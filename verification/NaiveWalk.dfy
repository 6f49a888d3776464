/** The reference for the column walk: every column of every run sorted from scratch and split
    into one list per key, nothing inherited, nothing shared. */
module NaiveWalk {
  import opened SuffixOrder
  import opened Keys
  import opened StableOrder
  import opened Permutations
  import opened Descriptors

  ghost predicate BlocksInside(t: Text, s: seq<nat>) {
    forall i :: 0 <= i < |s| ==> (s[i] + 1) * 256 <= |t|
  }

  /** s lists the run's blocks in the order of their suffixes at column rel. */
  ghost predicate IsColumnOrder(t: Text, first: nat, blocks: nat, rel: nat, s: seq<nat>) {
    && rel < 256
    && |s| == blocks
    && BlocksInside(t, s)
    && (forall i :: 0 <= i < |s| ==> first <= s[i] < first + blocks)
    && (forall b :: first <= b < first + blocks ==> b in s)
    && (forall i, j :: 0 <= i < j < |s| ==> Less(t, PosOf(s[i], rel), PosOf(s[j], rel)))
  }

  lemma ColumnOrderUnique(t: Text, first: nat, blocks: nat, rel: nat, s: seq<nat>, s': seq<nat>)
    requires IsColumnOrder(t, first, blocks, rel, s) && IsColumnOrder(t, first, blocks, rel, s')
    ensures s == s'
  {
    var r, r' := At(s, rel), At(s', rel);
    forall p ensures p in r <==> p in r' {
      if p in r {
        var i :| 0 <= i < |r| && r[i] == p;
        assert s[i] in s';
        var j :| 0 <= j < |s'| && s'[j] == s[i];
        assert r'[j] == p;
      }
      if p in r' {
        var i :| 0 <= i < |r'| && r'[i] == p;
        assert s'[i] in s;
        var j :| 0 <= j < |s| && s[j] == s'[i];
        assert r[j] == p;
      }
    }
    AscendingUnique(t, r, r');
    forall i | 0 <= i < |s| ensures s[i] == s'[i] { assert r[i] == r'[i]; }
  }

  /** One step of the seeding insertion sort, on values. */
  function InsertBlock(t: Text, rel: nat, s: seq<nat>, b: nat): (r: seq<nat>)
    requires rel < 256 && BlocksInside(t, s) && (b + 1) * 256 <= |t|
    ensures |r| == |s| + 1 && BlocksInside(t, r)
    decreases |s|
  {
    var n := |s| - 1;
    if s == [] || !Less(t, PosOf(b, rel), PosOf(s[n], rel)) then s + [b]
    else InsertBlock(t, rel, s[..n], b) + [s[n]]
  }

  /** The sorted blocks of one column, from scratch. */
  function ColumnOrder(t: Text, first: nat, blocks: nat, rel: nat): (s: seq<nat>)
    requires rel < 256 && (first + blocks) * 256 <= |t|
    ensures |s| == blocks && BlocksInside(t, s)
  {
    if blocks == 0 then [] else InsertBlock(t, rel, ColumnOrder(t, first, blocks - 1, rel), first + blocks - 1)
  }

  lemma {:induction false} InsertBlockSorts(t: Text, rel: nat, s: seq<nat>, b: nat)
    requires rel < 256 && BlocksInside(t, s) && (b + 1) * 256 <= |t|
    requires b !in s
    requires forall i, j :: 0 <= i < j < |s| ==> Less(t, PosOf(s[i], rel), PosOf(s[j], rel))
    ensures var r := InsertBlock(t, rel, s, b);
            && (forall x :: x in r <==> x in s || x == b)
            && (forall i, j :: 0 <= i < j < |r| ==> Less(t, PosOf(r[i], rel), PosOf(r[j], rel)))
    decreases |s|
  {
    var n := |s| - 1;
    var r := InsertBlock(t, rel, s, b);
    if s != [] {
      if Less(t, PosOf(b, rel), PosOf(s[n], rel)) {
        InsertBlockSorts(t, rel, s[..n], b);
        assert s == s[..n] + [s[n]];
        var r' := InsertBlock(t, rel, s[..n], b);
        forall i | 0 <= i < |r'| ensures Less(t, PosOf(r'[i], rel), PosOf(s[n], rel)) {
          assert r'[i] in r';
        }
      } else {
        LessTotal(t, PosOf(b, rel), PosOf(s[n], rel));
        forall i | 0 <= i < |s| ensures Less(t, PosOf(s[i], rel), PosOf(b, rel)) {
          if i < n { LessTransitive(t, PosOf(s[i], rel), PosOf(s[n], rel), PosOf(b, rel)); }
        }
      }
    }
  }

  lemma InsertKeepsColumnOrder(t: Text, first: nat, blocks: nat, rel: nat, s: seq<nat>)
    requires rel < 256 && (first + blocks + 1) * 256 <= |t|
    requires IsColumnOrder(t, first, blocks, rel, s)
    ensures IsColumnOrder(t, first, blocks + 1, rel, InsertBlock(t, rel, s, first + blocks))
  {
    hide Less, InsertBlock, PosOf;
    var b := first + blocks;
    assert b !in s;
    InsertBlockSorts(t, rel, s, b);
    var r := InsertBlock(t, rel, s, b);
    forall i | 0 <= i < |r| ensures first <= r[i] <= b { assert r[i] in r; }
  }

  lemma {:induction false} ColumnOrderIsOrder(t: Text, first: nat, blocks: nat, rel: nat)
    requires rel < 256 && (first + blocks) * 256 <= |t|
    ensures IsColumnOrder(t, first, blocks, rel, ColumnOrder(t, first, blocks, rel))
    decreases blocks
  {
    if blocks > 0 {
      ColumnOrderIsOrder(t, first, blocks - 1, rel);
      hide IsColumnOrder, InsertBlock;
      InsertKeepsColumnOrder(t, first, blocks - 1, rel, ColumnOrder(t, first, blocks - 1, rel));
    }
  }

  /** Prepending one byte: the byte decides, the inherited order breaks ties. */
  lemma PrependLess(t: Text, p: nat, q: nat)
    requires p < |t| && q < |t|
    ensures Less(t, p, q) <==> t[p] < t[q] || (t[p] == t[q] && Less(t, p + 1, q + 1))
  {}

  /** A column holds the same byte in every block of the run. */
  ghost predicate IsConstant(t: Text, first: nat, blocks: nat, col: nat)
    requires col < 256 && (first + blocks) * 256 <= |t|
  {
    forall b :: first <= b < first + blocks ==> t[PosOf(b, col)] == t[PosOf(first, col)]
  }

  /** A constant prepend leaves the order alone. */
  lemma ConstantKeepsOrder(t: Text, first: nat, blocks: nat, rel: nat, s: seq<nat>)
    requires 0 < rel && (first + blocks) * 256 <= |t|
    requires IsColumnOrder(t, first, blocks, rel, s) && IsConstant(t, first, blocks, rel - 1)
    ensures IsColumnOrder(t, first, blocks, rel - 1, s)
  {
    forall i, j | 0 <= i < j < |s| ensures Less(t, PosOf(s[i], rel - 1), PosOf(s[j], rel - 1)) {
      PrependLess(t, PosOf(s[i], rel - 1), PosOf(s[j], rel - 1));
    }
  }

  /** The bytes a step prepends, in the current order. */
  function PrependedBytes(t: Text, s: seq<nat>, col: nat): (r: seq<int>)
    requires col < 256 && BlocksInside(t, s)
    ensures |r| == |s| && forall i :: 0 <= i < |r| ==> r[i] == t[PosOf(s[i], col)]
  {
    seq(|s|, i requires 0 <= i < |s| => t[PosOf(s[i], col)])
  }

  /** A stable re-sort by the prepended byte turns one column's order into the next one's. */
  lemma StableStepKeepsOrder(t: Text, first: nat, blocks: nat, rel: nat, s: seq<nat>, s': seq<nat>)
    requires 0 < rel && IsColumnOrder(t, first, blocks, rel, s)
    requires StableSort(PrependedBytes(t, s, rel - 1), s, s')
    ensures IsColumnOrder(t, first, blocks, rel - 1, s')
  {
    var ks := PrependedBytes(t, s, rel - 1);
    StableSortPermutes(ks, s, s');
    SameMembers(s, s');
    forall i | 0 <= i < |s'| ensures s'[i] in s {}
    var q :| IsDestination(ks, q) && Placed(q, s, s');
    forall i, j | 0 <= i < j < |s'| ensures Less(t, PosOf(s'[i], rel - 1), PosOf(s'[j], rel - 1)) {
      var x, y := SourcesInOrder(ks, q, i, j);
      PrependLess(t, PosOf(s[x], rel - 1), PosOf(s[y], rel - 1));
    }
  }

  // Key groups.

  function KeyAt(t: Text, s: seq<nat>, rel: nat, i: nat): nat
    requires i < |s|
  {
    Key(t, PosOf(s[i], rel))
  }

  /** The end of the maximal stretch from j on whose keys equal k. */
  function RunEnd(t: Text, s: seq<nat>, rel: nat, k: nat, j: nat): (e: nat)
    requires j <= |s|
    ensures j <= e <= |s|
    ensures forall x :: j <= x < e ==> KeyAt(t, s, rel, x) == k
    ensures e < |s| ==> KeyAt(t, s, rel, e) != k
    decreases |s| - j
  {
    if j < |s| && KeyAt(t, s, rel, j) == k then RunEnd(t, s, rel, k, j + 1) else j
  }

  /** One list per maximal stretch of equal keys, from index i on. */
  function GroupsFrom(t: Text, s: seq<nat>, rel: nat, i: nat): seq<Group>
    requires i <= |s|
    decreases |s| - i
  {
    if i == |s| then []
    else
      var k := KeyAt(t, s, rel, i);
      var j := RunEnd(t, s, rel, k, i + 1);
      [Group(k, rel, s[i..j])] + GroupsFrom(t, s, rel, j)
  }

  /** A column whose keys all agree is one list. */
  lemma UniformColumnIsOneGroup(t: Text, s: seq<nat>, rel: nat, k: nat)
    requires s != []
    requires forall x :: 0 <= x < |s| ==> KeyAt(t, s, rel, x) == k
    ensures GroupsFrom(t, s, rel, 0) == [Group(k, rel, s)]
  {
    assert KeyAt(t, s, rel, 0) == k;
    var j := RunEnd(t, s, rel, k, 1);
    assert j == |s|;
    assert s[0..j] == s;
  }

  function NaiveColumn(t: Text, first: nat, blocks: nat, rel: nat): seq<Group>
    requires rel < 256 && (first + blocks) * 256 <= |t|
  {
    GroupsFrom(t, ColumnOrder(t, first, blocks, rel), rel, 0)
  }

  /** Columns 255 down to rel of one run. */
  function NaiveColumns(t: Text, first: nat, blocks: nat, rel: nat): seq<Group>
    requires rel <= 256 && (first + blocks) * 256 <= |t|
    decreases 256 - rel
  {
    if rel == 256 then [] else NaiveColumns(t, first, blocks, rel + 1) + NaiveColumn(t, first, blocks, rel)
  }

  function Sum(lens: seq<nat>): nat {
    if lens == [] then 0 else Sum(lens[..|lens| - 1]) + lens[|lens| - 1]
  }

  function NaiveRuns(t: Text, lens: seq<nat>): seq<Group>
    requires Sum(lens) * 256 <= |t|
  {
    if lens == [] then []
    else
      var n := |lens| - 1;
      NaiveRuns(t, lens[..n]) + NaiveColumns(t, Sum(lens[..n]), lens[n], 0)
  }

  /** The suffixes from p on, one list each, last suffix first. */
  function NaiveTail(t: Text, p: nat): seq<Group>
    requires p <= |t|
    decreases |t| - p
  {
    if p == |t| then [] else NaiveTail(t, p + 1) + [Group(Key(t, p), p % 256, [p / 256])]
  }

  /** The whole text for one choice of runs. */
  function Naive(t: Text, lens: seq<nat>): seq<Group>
    requires Sum(lens) * 256 <= |t|
  {
    NaiveRuns(t, lens) + NaiveTail(t, Sum(lens) * 256)
  }
}
