/** Splitting the blocks into runs, and the bitmap of columns that vary inside a run. A 32-bit
    mask word is modelled by its 32 bits. */
module RunMasks {
  import opened SuffixOrder
  import opened Descriptors
  import opened NaiveWalk

  const RUN_SPLIT := 160

  type Word = w: seq<bool> | |w| == 32 witness seq(32, _ => false)

  /** Column c differs between block g and the block after it. */
  predicate Differ(t: Text, g: nat, c: nat)
    requires c < 256 && (g + 2) * 256 <= |t|
  {
    t[PosOf(g, c)] != t[PosOf(g + 1, c)]
  }

  /** How many of the first c columns differ. */
  function DiffCount(t: Text, g: nat, c: nat): nat
    requires c <= 256 && (g + 2) * 256 <= |t|
  {
    if c == 0 then 0 else DiffCount(t, g, c - 1) + (if Differ(t, g, c - 1) then 1 else 0)
  }

  /** The columns in which block g and the block after it differ. */
  ghost function DifferingColumns(t: Text, g: nat): set<nat>
    requires (g + 2) * 256 <= |t|
  {
    var a, b := t[g * 256..(g + 1) * 256], t[(g + 1) * 256..(g + 2) * 256];
    set c: nat | c < 256 && a[c] != b[c]
  }

  lemma {:induction false} DiffCountIsSize(t: Text, g: nat, c: nat)
    requires c <= 256 && (g + 2) * 256 <= |t|
    ensures DiffCount(t, g, c) == |set k: nat | k < c && Differ(t, g, k)|
    decreases c
  {
    if c > 0 {
      DiffCountIsSize(t, g, c - 1);
      var before, now := set k: nat | k < c - 1 && Differ(t, g, k), set k: nat | k < c && Differ(t, g, k);
      assert now == if Differ(t, g, c - 1) then before + {c - 1} else before;
    }
  }

  /** The count is over all 256 columns. */
  lemma DiffCountIs(t: Text, g: nat)
    requires (g + 2) * 256 <= |t|
    ensures DiffCount(t, g, 256) == |DifferingColumns(t, g)|
  {
    hide DiffCount;
    DiffCountIsSize(t, g, 256);
    assert DifferingColumns(t, g) == set k: nat | k < 256 && Differ(t, g, k);
  }

  predicate BitAt(words: seq<Word>, c: nat)
    requires |words| == 8 && c < 256
  {
    words[c / 32][c % 32]
  }

  /** Bit c is clear exactly when every block of the run agrees at column c. */
  ghost predicate MaskExact(t: Text, first: nat, blocks: nat, words: seq<Word>) {
    && |words| == 8 && (first + blocks) * 256 <= |t|
    && forall c :: 0 <= c < 256 ==> (BitAt(words, c) <==> !IsConstant(t, first, blocks, c))
  }

  function PopCount(w: seq<bool>): nat {
    if w == [] then 0 else PopCount(w[..|w| - 1]) + (if w[|w| - 1] then 1 else 0)
  }

  function Or(a: Word, b: Word): (r: Word)
    ensures forall l :: 0 <= l < 32 ==> (r[l] <==> a[l] || b[l])
  {
    seq(32, l requires 0 <= l < 32 => a[l] || b[l])
  }

  /** The not-equal mask of 32 bytes of two adjacent blocks. */
  function NotEqualMask(t: Text, g: nat, word: nat): (r: Word)
    requires word < 8 && (g + 2) * 256 <= |t|
    ensures forall l :: 0 <= l < 32 ==> (r[l] <==> Differ(t, g, word * 32 + l))
  {
    seq(32, l requires 0 <= l < 32 => Differ(t, g, word * 32 + l))
  }

  lemma {:induction false} PopCountCounts(t: Text, g: nat, word: nat, l: nat)
    requires word < 8 && l <= 32 && (g + 2) * 256 <= |t|
    ensures DiffCount(t, g, word * 32 + l) == DiffCount(t, g, word * 32) + PopCount(NotEqualMask(t, g, word)[..l])
  {
    if l > 0 {
      PopCountCounts(t, g, word, l - 1);
      var m := NotEqualMask(t, g, word);
      assert m[..l][..l - 1] == m[..l - 1];
    }
  }

  /** Compare one adjacent pair, 32 columns at a time. */
  method ComparePair(t: Text, g: nat) returns (candidate: array<Word>, diff: nat)
    requires (g + 2) * 256 <= |t|
    ensures fresh(candidate) && candidate.Length == 8
    ensures forall c :: 0 <= c < 256 ==> (BitAt(candidate[..], c) <==> Differ(t, g, c))
    ensures diff == DiffCount(t, g, 256)
  {
    candidate := new Word[8](_ => seq(32, _ => false));
    diff := 0;
    for o := 0 to 8
      invariant diff == DiffCount(t, g, o * 32)
      invariant forall w :: 0 <= w < o ==> candidate[w] == NotEqualMask(t, g, w)
    {
      var ne := NotEqualMask(t, g, o);
      PopCountCounts(t, g, o, 32);
      assert ne[..32] == ne;
      candidate[o] := ne;
      diff := diff + PopCount(ne);
    }
  }

  /** By transitivity: a column varies over the longer run when it varied before or the new pair
      differs there. */
  lemma ConstantExtends(t: Text, first: nat, blocks: nat, c: nat)
    requires c < 256 && blocks > 0 && (first + blocks + 1) * 256 <= |t|
    ensures IsConstant(t, first, blocks + 1, c) <==>
            IsConstant(t, first, blocks, c) && !Differ(t, first + blocks - 1, c)
  {
    var b := first + blocks - 1;
    assert t[PosOf(b, c)] == t[PosOf(first, c)] || !IsConstant(t, first, blocks, c);
    if IsConstant(t, first, blocks + 1, c) {
      assert t[PosOf(b + 1, c)] == t[PosOf(first, c)];
    }
  }

  /** A run: consecutive blocks, cut before a pair that differs in more than RUN_SPLIT columns. */
  ghost predicate IsRun(t: Text, g: nat, full: nat, len: nat) {
    && 1 <= len <= RUN_MAX && g + len <= full && full * 256 <= |t|
    && (forall b :: g <= b < g + len - 1 ==> DiffCount(t, b, 256) <= RUN_SPLIT)
    && (len < RUN_MAX && g + len < full ==> DiffCount(t, g + len - 1, 256) > RUN_SPLIT)
  }

  /** In numbers: neighbours in a run differ in at most 160 columns, and a run ends at 512 blocks, at
      the last block, or before a block that differs in more. */
  lemma RunIs(t: Text, g: nat, full: nat, len: nat)
    requires full * 256 <= |t| && 1 <= len && g + len <= full
    ensures IsRun(t, g, full, len) <==>
              && len <= 512
              && (forall b :: g <= b < g + len - 1 ==> |DifferingColumns(t, b)| <= 160)
              && (len == 512 || g + len == full || |DifferingColumns(t, g + len - 1)| > 160)
  {
    hide DiffCount, DifferingColumns;
    forall b | g <= b < full - 1 ensures DiffCount(t, b, 256) == |DifferingColumns(t, b)| { DiffCountIs(t, b); }
  }

  /** Only the masks of accepted pairs are committed: the pair that ends a run is not part of it. */
  method NextRun(t: Text, g: nat, full: nat) returns (len: nat, words: seq<Word>)
    requires g < full && full * 256 <= |t|
    ensures IsRun(t, g, full, len)
    ensures MaskExact(t, g, len, words)
  {
    len := 1;
    words := seq(8, _ => seq(32, _ => false));
    while len < RUN_MAX && g + len < full
      invariant 1 <= len <= RUN_MAX && g + len <= full
      invariant forall b :: g <= b < g + len - 1 ==> DiffCount(t, b, 256) <= RUN_SPLIT
      invariant MaskExact(t, g, len, words)
    {
      hide DiffCount;
      var candidate, diff := ComparePair(t, g + len - 1);
      if diff > RUN_SPLIT { break; }
      words := Commit(t, g, len, words, candidate[..]);
      len := len + 1;
    }
  }

  /** How the blocks are cut into runs: where the source cuts them, or anywhere else. */
  datatype Cuts = Discovered | Given(lens: seq<nat>)

  /** The bitmap of a run whose length was decided elsewhere: the same comparisons, no split test. */
  method CutRun(t: Text, g: nat, len: nat) returns (words: seq<Word>)
    requires 1 <= len && (g + len) * 256 <= |t|
    ensures MaskExact(t, g, len, words)
  {
    words := seq(8, _ => seq(32, _ => false));
    for n := 1 to len
      invariant MaskExact(t, g, n, words)
    {
      hide DiffCount;
      var candidate, diff := ComparePair(t, g + n - 1);
      words := Commit(t, g, n, words, candidate[..]);
    }
  }

  method Commit(t: Text, g: nat, len: nat, words: seq<Word>, candidate: seq<Word>) returns (r: seq<Word>)
    requires len > 0 && (g + len + 1) * 256 <= |t| && |candidate| == 8
    requires MaskExact(t, g, len, words)
    requires forall c :: 0 <= c < 256 ==> (BitAt(candidate, c) <==> Differ(t, g + len - 1, c))
    ensures MaskExact(t, g, len + 1, r)
  {
    r := seq(8, w requires 0 <= w < 8 => Or(words[w], candidate[w]));
    forall c | 0 <= c < 256 ensures BitAt(r, c) <==> !IsConstant(t, g, len + 1, c) {
      ConstantExtends(t, g, len, c);
      assert BitAt(r, c) <==> BitAt(words, c) || BitAt(candidate, c);
    }
  }

  /** A bit scan from the top; -1 when no bit is set. */
  function HighestSet(w: seq<bool>): (k: int)
    ensures -1 <= k < |w|
    ensures k >= 0 ==> w[k]
    ensures forall l :: k < l < |w| ==> !w[l]
  {
    if w == [] then -1
    else if w[|w| - 1] then |w| - 1
    else HighestSet(w[..|w| - 1])
  }

  /** uniform_span_start: the least column from which every prepend up to r is constant. */
  method UniformSpanStart(words: seq<Word>, r: nat) returns (last: nat)
    requires |words| == 8 && r < 256
    ensures last <= r
    ensures forall c :: last <= c < r ==> !BitAt(words, c)
    ensures last > 0 ==> BitAt(words, last - 1)
  {
    if r == 0 { return 0; }
    var word := (r - 1) / 32;
    var low := (r - 1) % 32 + 1;
    var bits := words[word][..low];
    while HighestSet(bits) < 0 && word > 0
      invariant 0 <= word < 8 && |bits| <= 32 && word * 32 + |bits| <= r
      invariant bits == words[word][..|bits|]
      invariant forall c :: word * 32 + |bits| <= c < r ==> !BitAt(words, c)
      decreases word
    {
      assert forall c :: word * 32 <= c < word * 32 + |bits| ==> BitAt(words, c) == bits[c - word * 32];
      word := word - 1;
      bits := words[word];
    }
    assert forall c :: word * 32 <= c < word * 32 + |bits| ==> BitAt(words, c) == bits[c - word * 32];
    var highest := HighestSet(bits);
    if highest < 0 { return 0; }
    last := word * 32 + highest + 1;
    assert BitAt(words, last - 1);
  }
}
