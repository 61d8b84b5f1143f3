/** inflate_table: from code lengths to the two-level decoding table. */
module InflateTable {
  import opened Bits
  import opened Permutations
  import opened Counting
  import opened CanonicalCode
  import opened TableCells
  import opened TableSpace

  const ENOUGH_LENS := 852
  const ENOUGH_DISTS := 592

  /** No code, or one that is complete, or, but for the code length code, a single code of one bit. */
  ghost predicate Acceptable(typ: CodeType, lens: seq<nat>)
  {
    Kraft(lens, MAXBITS) == 0 || Kraft(lens, MAXBITS) == Pow2(MAXBITS)
    || (typ != Codes && exists s :: 0 <= s < |lens| && OnlyCode(lens, s))
  }

  ghost predicate OnlyCode(lens: seq<nat>, s: int)
  {
    0 <= s < |lens| && lens[s] == 1 && forall t :: 0 <= t < |lens| && t != s ==> lens[t] == 0
  }

  /** Looking up any bits gives the symbol whose code they begin with, or what marks an invalid code. */
  ghost predicate Decodes(table: seq<Code>, root: nat, typ: CodeType, lens: seq<nat>)
  {
    && |lens| <= MostSymbols(typ)
    && (forall s, h: nat :: 0 <= s < |lens| && Spells(lens, h, s) ==> Finds(table, root, h, Meaning(typ, s, lens[s])))
    && forall h: nat :: Unspelled(lens, h) ==> Finds(table, root, h, Code(64, 1, 0))
  }

  /** The bits begin with no symbol's code. */
  ghost predicate Unspelled(lens: seq<nat>, h: nat)
  {
    forall s :: 0 <= s < |lens| ==> !Spells(lens, h, s)
  }

  // ----- counting and sorting

  ghost predicate Counted(count: seq<nat>, lens: seq<nat>, k: nat)
  {
    |count| == MAXBITS + 1 && k <= |lens| && forall l :: 0 <= l <= MAXBITS ==> count[l] == Occ(lens, 0, k, l)
  }

  method CountLengths(count: array<nat>, lens: seq<nat>)
    requires count.Length == MAXBITS + 1 && LengthsOk(lens)
    modifies count
    ensures Counted(count[..], lens, |lens|)
  {
    for l := 0 to MAXBITS + 1
      invariant forall m :: 0 <= m < l ==> count[m] == 0
    {
      count[l] := 0;
    }
    for sym := 0 to |lens|
      invariant Counted(count[..], lens, sym)
    {
      ghost var c := count[..];
      count[lens[sym]] := count[lens[sym]] + 1;
      assert count[..] == c[lens[sym] := c[lens[sym]] + 1];
    }
  }

  /** Where symbol s goes when the symbols are sorted by length. */
  function SortedAt(lens: seq<nat>, s: nat): int
    requires s < |lens|
  {
    Below(lens, lens[s]) - Occ(lens, 0, |lens|, 0) + Occ(lens, 0, s, lens[s])
  }

  /** work lists the first k symbols that have codes where they belong. */
  ghost predicate Sorted(work: seq<nat>, lens: seq<nat>, k: nat)
  {
    k <= |lens| && forall s :: 0 <= s < k && lens[s] > 0 ==> InWork(work, lens, s)
  }

  ghost predicate InWork(work: seq<nat>, lens: seq<nat>, s: nat)
  {
    s < |lens| && 0 <= SortedAt(lens, s) < |work| && work[SortedAt(lens, s)] == s
  }

  lemma SortedRange(lens: seq<nat>, s: nat)
    requires s < |lens| && lens[s] > 0
    ensures 0 <= SortedAt(lens, s) < |lens|
  {
    BelowMono(lens, 1, lens[s]);
    OccBefore(lens, s, |lens|, lens[s]);
    BelowMono(lens, lens[s], lens[s] + 1);
    BelowAtMost(lens, lens[s] + 1);
  }

  lemma SortedApart(lens: seq<nat>, s: nat, t: nat)
    requires s < t < |lens| && lens[s] > 0 && lens[t] > 0
    ensures SortedAt(lens, s) != SortedAt(lens, t)
  {
    OccBefore(lens, s, |lens|, lens[s]);
    OccBefore(lens, t, |lens|, lens[t]);
    if lens[s] == lens[t] { OccBefore(lens, s, t, lens[s]); }
    else if lens[s] < lens[t] { BelowMono(lens, lens[s] + 1, lens[t]); }
    else { BelowMono(lens, lens[t] + 1, lens[s]); }
  }

  ghost predicate Offsets(offs: seq<int>, lens: seq<nat>, k: nat, top: nat)
  {
    |offs| == MAXBITS + 1 && k <= |lens| && forall l :: 1 <= l <= top <= MAXBITS ==> OffsetIs(offs, lens, k, l)
  }

  ghost predicate OffsetIs(offs: seq<int>, lens: seq<nat>, k: nat, l: int)
  {
    0 <= l < |offs| && k <= |lens| && offs[l] == Below(lens, l) - Occ(lens, 0, |lens|, 0) + Occ(lens, 0, k, l)
  }

  lemma OffsetStep(offs: seq<int>, lens: seq<nat>, k: nat)
    requires Offsets(offs, lens, k, MAXBITS) && k < |lens| && lens[k] <= MAXBITS
    ensures lens[k] > 0 ==> offs[lens[k]] == SortedAt(lens, k)
    ensures Offsets(if lens[k] > 0 then offs[lens[k] := offs[lens[k]] + 1] else offs, lens, k + 1, MAXBITS)
  {
    hide Below;
    var o := if lens[k] > 0 then offs[lens[k] := offs[lens[k]] + 1] else offs;
    if lens[k] > 0 { assert OffsetIs(offs, lens, k, lens[k]); }
    var k1 := k + 1;
    forall l | 1 <= l <= MAXBITS ensures OffsetIs(o, lens, k1, l) { assert OffsetIs(offs, lens, k, l); }
  }

  lemma WorkStep(work: seq<nat>, lens: seq<nat>, k: nat)
    requires Sorted(work, lens, k) && k < |lens| && lens[k] > 0 && |work| >= |lens|
    ensures 0 <= SortedAt(lens, k) < |work| && Sorted(work[SortedAt(lens, k) := k], lens, k + 1)
  {
    hide SortedAt;
    SortedRange(lens, k);
    var w := work[SortedAt(lens, k) := k];
    forall s | 0 <= s < k + 1 && lens[s] > 0 ensures InWork(w, lens, s) {
      if s < k {
        assert InWork(work, lens, s);
        SortedApart(lens, s, k);
      }
    }
  }

  /** The symbols that have codes, by length, and by number within a length. */
  method SortSymbols(work: array<nat>, lens: seq<nat>, count: array<nat>)
    requires count.Length == MAXBITS + 1 && LengthsOk(lens) && Counted(count[..], lens, |lens|) && work.Length >= |lens|
    requires work != count
    modifies work
    ensures Sorted(work[..], lens, |lens|)
  {
    hide Below, SortedAt, Counted;
    var offs := new int[MAXBITS + 1];
    offs[1] := 0;
    FirstOffset(offs[..], lens);
    var len := 1;
    while len < MAXBITS
      invariant 1 <= len <= MAXBITS && Offsets(offs[..], lens, 0, len)
      modifies offs
    {
      ghost var o := offs[..];
      NextOffset(o, lens, len, count[..]);
      offs[len + 1] := offs[len] + count[len];
      assert offs[..] == o[len + 1 := o[len] + count[..][len]];
      len := len + 1;
    }
    for sym := 0 to |lens|
      invariant Offsets(offs[..], lens, sym, MAXBITS) && Sorted(work[..], lens, sym)
    {
      ghost var o, w := offs[..], work[..];
      OffsetStep(o, lens, sym);
      if lens[sym] != 0 {
        WorkStep(w, lens, sym);
        work[offs[lens[sym]]] := sym;
        offs[lens[sym]] := offs[lens[sym]] + 1;
        assert offs[..] == o[lens[sym] := o[lens[sym]] + 1] && work[..] == w[SortedAt(lens, sym) := sym];
      }
    }
  }

  lemma FirstOffset(offs: seq<int>, lens: seq<nat>)
    requires |offs| == MAXBITS + 1 && offs[1] == 0
    ensures Offsets(offs, lens, 0, 1)
  {
    assert Below(lens, 1) == Below(lens, 0) + Occ(lens, 0, |lens|, 0);
    assert OffsetIs(offs, lens, 0, 1);
  }

  lemma NextOffset(offs: seq<int>, lens: seq<nat>, len: nat, count: seq<nat>)
    requires Offsets(offs, lens, 0, len) && 1 <= len < MAXBITS && Counted(count, lens, |lens|)
    ensures Offsets(offs[len + 1 := offs[len] + count[len]], lens, 0, len + 1)
  {
    var o := offs[len + 1 := offs[len] + count[len]];
    assert OffsetIs(offs, lens, 0, len);
    forall l | 1 <= l <= len + 1 ensures OffsetIs(o, lens, 0, l) {
      if l <= len { assert OffsetIs(offs, lens, 0, l); }
    }
  }

  // ----- the set of lengths

  /** No code is longer than max, and some code is that long. */
  ghost predicate Longest(lens: seq<nat>, max: nat)
  {
    max <= MAXBITS && (max > 0 ==> Count(lens, max) > 0) && forall l :: max < l <= MAXBITS ==> Count(lens, l) == 0
  }

  lemma EndAtMax(lens: seq<nat>, max: nat, l: nat)
    requires Longest(lens, max) && max <= l <= MAXBITS
    ensures End(lens, l) == End(lens, max) * Pow2(l - max)
  {
    hide FirstCode;
    if l == max { TimesOne(End(lens, max)); } else { FirstAfter(lens, max, l); }
  }

  /** What is left of all prefix codes of a length, and whether that was never less than none. */
  method CheckSet(count: array<nat>, lens: seq<nat>) returns (left: int)
    requires count.Length == MAXBITS + 1 && Counted(count[..], lens, |lens|)
    ensures left >= 0 ==> left == Pow2(MAXBITS) - End(lens, MAXBITS) && forall l :: 0 <= l <= MAXBITS ==> End(lens, l) <= Pow2(l)
    ensures left < 0 ==> End(lens, MAXBITS) > Pow2(MAXBITS)
  {
    hide FirstCode, End, Pow2, Occ, Counted;
    left := 1;
    EndZero(lens);
    var len := 1;
    while len <= MAXBITS
      invariant 1 <= len <= MAXBITS + 1 && left == Pow2(len - 1) - End(lens, len - 1) && left >= 0
      invariant forall l :: 0 <= l < len ==> End(lens, l) <= Pow2(l)
    {
      left := 2 * left;
      CountedAt(count[..], lens, len);
      EndNext(lens, len);
      left := left - count[len];
      if left < 0 {
        TooMany(lens, len);
        return;
      }
      len := len + 1;
    }
  }

  lemma CountedAt(count: seq<nat>, lens: seq<nat>, l: nat)
    requires Counted(count, lens, |lens|) && l <= MAXBITS
    ensures |count| == MAXBITS + 1 && count[l] == Occ(lens, 0, |lens|, l)
  {
  }

  lemma EndZero(lens: seq<nat>)
    ensures End(lens, 0) == 0 && Pow2(0) == 1
  {
  }

  lemma EndNext(lens: seq<nat>, l: nat)
    requires l > 0
    ensures End(lens, l) == 2 * End(lens, l - 1) + Occ(lens, 0, |lens|, l) && Pow2(l) == 2 * Pow2(l - 1)
  {
  }

  lemma TooMany(lens: seq<nat>, l: nat)
    requires l <= MAXBITS && End(lens, l) > Pow2(l)
    ensures End(lens, MAXBITS) > Pow2(MAXBITS)
  {
    hide FirstCode;
    EndGrows(lens, l, MAXBITS);
    Pow2Add(l, MAXBITS - l);
    MoreTimes(End(lens, l), Pow2(l), Pow2(MAXBITS - l));
  }

  lemma MoreTimes(a: nat, b: nat, p: nat)
    requires a > b && p > 0
    ensures a * p > b * p
  {
    TimesGap(p, b, a);
    CommuteTimes(p, b);
    CommuteTimes(p, a);
  }

  // ----- building the table

  /** The code worked on, c of length len, is one of those there are. */
  ghost predicate Going(lens: seq<nat>, c: nat, len: nat, max: nat)
  {
    && 1 <= len <= max && Longest(lens, max) && FirstCode(lens, len) <= c < End(lens, len)
    && forall l :: 0 <= l <= MAXBITS ==> End(lens, l) <= Pow2(l)
  }

  /** count: how many codes are still to come. */
  ghost predicate Left(count: seq<nat>, lens: seq<nat>, c: nat, len: nat)
  {
    && |count| == MAXBITS + 1 && 1 <= len <= MAXBITS && c + count[len] == End(lens, len)
    && forall l :: len < l <= MAXBITS ==> count[l] == Count(lens, l)
  }

  /** The place of code c of length len in work. */
  function Place(lens: seq<nat>, c: int, len: nat): int
  {
    Below(lens, len) - Occ(lens, 0, |lens|, 0) + c - FirstCode(lens, len)
  }

  lemma SymbolAt(work: seq<nat>, lens: seq<nat>, c: nat, len: nat, max: nat) returns (s: nat)
    requires Sorted(work, lens, |lens|) && Going(lens, c, len, max)
    ensures s < |lens| && lens[s] == len && CodeOf(lens, s) == c
    ensures 0 <= Place(lens, c, len) < |work| && work[Place(lens, c, len)] == s
  {
    hide FirstCode, Pow2, Below;
    s := CodeSymbol(lens, len, c);
    assert InWork(work, lens, s);
  }

  /** The first bits of all codes of sub-table t are no longer than l. */
  ghost predicate SubRoom(lens: seq<nat>, t: nat, root: nat, l: nat, max: nat)
  {
    root <= l <= max && (l == max || End(lens, l) >= (t + 1) * Pow2(l - root))
  }

  /** A code of sub-table t fits it. */
  lemma FitsSub(lens: seq<nat>, t: nat, root: nat, l: nat, max: nat, c: nat, len: nat)
    requires SubRoom(lens, t, root, l, max) && Going(lens, c, len, max) && root < len && Hi(c, len - root) == t
    ensures len <= l
  {
    hide FirstCode, Pow2, End, Hi;
    if len > l {
      var p, q := Pow2(l - root), Pow2(len - l);
      EndGrows(lens, l, len);
      Pow2Add(l - root, len - l);
      HiBelow(c, len - root, t);
      PastAll(End(lens, l), t + 1, p, q, c);
    }
  }

  lemma PastAll(e: nat, t: nat, p: nat, q: nat, c: nat)
    requires e >= t * p && e * q <= c
    ensures (p * q) * t <= c
  {
    MoreOrSame(t * p, e, q);
    Shuffle(t, p, q);
  }

  lemma Shuffle(a: nat, b: nat, c: nat)
    ensures (a * b) * c == (b * c) * a
  {
  }

  lemma HiBelow(c: nat, n: nat, t: nat)
    requires Hi(c, n) == t
    ensures c < Pow2(n) * (t + 1)
  {
    hide Pow2;
    var p := Pow2(n);
    assert c == p * (c / p) + c % p;
    TimesNext(p, t);
  }

  /** How many index bits the sub-table needs: as many as the longest code that begins like this one has left. */
  method SubSize(count: array<nat>, lens: seq<nat>, len: nat, root: nat, max: nat, ghost c: nat, ghost t: nat)
    returns (curr: nat)
    requires count.Length == MAXBITS + 1 && Left(count[..], lens, c, len) && Going(lens, c, len, max) && root < len
    requires c == t * Pow2(len - root) && LengthsOk(lens)
    ensures len <= root + curr <= max && SubRoom(lens, t, root, root + curr, max)
    ensures Pow2(curr) == SubEntries(lens, root, t)
  {
    hide FirstCode, Pow2, End, Left, SubEntries, Going, LengthsOk;
    GoingRange(lens, c, len, max);
    curr := len - root;
    var left: int := Shl1(curr);
    PlusOneTimes(t, Pow2(len - root));
    while curr + root < max
      invariant len <= root + curr <= max && 0 < left == (t + 1) * Pow2(curr) - Lower(lens, c, len, root + curr)
      invariant t * Pow2(curr) <= Lower(lens, c, len, root + curr)
      decreases max - curr
    {
      LeftAt(count[..], lens, c, len, root + curr);
      left := left - count[curr + root];
      if left <= 0 { break; }
      Double(curr + 1);
      DoubleTimes(t + 1, Pow2(curr));
      DoubleTimes(t, Pow2(curr));
      LowerNext(lens, c, len, root + curr);
      curr := curr + 1;
      left := 2 * left;
    }
    LeftAt(count[..], lens, c, len, root + curr);
    LowerGoing(count[..], lens, c, len, root + curr, max);
    SubReached(lens, t, root, root + curr, max, Lower(lens, c, len, root + curr));
  }

  /** Codes of length l are still to come: the first of them. */
  lemma LowerGoing(count: seq<nat>, lens: seq<nat>, c: nat, len: nat, l: nat, max: nat)
    requires Left(count, lens, c, len) && Going(lens, c, len, max) && len <= l <= max && (l < max ==> count[l] > 0)
    ensures Going(lens, Lower(lens, c, len, l), l, max)
  {
    hide FirstCode, Pow2;
  }

  /** Code x has all the index bits, and no code under t has more. */
  lemma SubReached(lens: seq<nat>, t: nat, root: nat, l: nat, max: nat, x: nat)
    requires SubRoom(lens, t, root, l, max) && Going(lens, x, l, max) && root < l && LengthsOk(lens)
    requires t * Pow2(l - root) <= x < (t + 1) * Pow2(l - root)
    ensures SubEntries(lens, root, t) == Pow2(l - root)
  {
    hide FirstCode, Pow2, End, SubRoom, SubEntries, LengthsOk, CodeOf, Hi, Going;
    GoingRange(lens, x, l, max);
    var s := CodeSymbol(lens, l, x);
    HiIs(x, l - root, t);
    forall u: nat | LongUnder(lens, root, t, u) ensures lens[u] <= l {
      SymbolGoing(lens, u, x, l, max);
      FitsSub(lens, t, root, l, max, CodeOf(lens, u), lens[u]);
    }
    DeepestIs(lens, root, t, s);
  }

  lemma HiIs(x: nat, n: nat, t: nat)
    requires t * Pow2(n) <= x < (t + 1) * Pow2(n)
    ensures Hi(x, n) == t
  {
    hide Pow2;
    var p := Pow2(n);
    CommuteTimes(t, p);
    PlusOneTimes(t, p);
    DivUnique(x, p, t, x - t * p);
  }

  lemma SymbolGoing(lens: seq<nat>, s: nat, c: nat, len: nat, max: nat)
    requires s < |lens| && lens[s] > 0 && Going(lens, c, len, max) && LengthsOk(lens)
    ensures Going(lens, CodeOf(lens, s), lens[s], max)
  {
    hide FirstCode, Pow2, CodeOf, End;
    CodeRange(lens, s);
    CountedSymbol(lens, s);
  }

  /** 1 << n. */
  function Shl1(n: nat): nat { Pow2(n) }

  /** The codes of length l that are still to come begin here. */
  ghost function Lower(lens: seq<nat>, c: nat, len: nat, l: nat): nat
  {
    if l == len then c else FirstCode(lens, l)
  }

  lemma LeftAt(count: seq<nat>, lens: seq<nat>, c: nat, len: nat, l: nat)
    requires Left(count, lens, c, len) && len <= l <= MAXBITS
    ensures |count| == MAXBITS + 1 && Lower(lens, c, len, l) + count[l] == End(lens, l)
  {
    hide FirstCode;
  }

  lemma LowerNext(lens: seq<nat>, c: nat, len: nat, l: nat)
    requires len <= l
    ensures Lower(lens, c, len, l + 1) == 2 * End(lens, l)
  {
  }

  lemma PlusOneTimes(t: nat, p: nat)
    ensures (t + 1) * p - t * p == p
  {
  }

  lemma DoubleTimes(t: nat, p: nat)
    ensures t * (2 * p) == 2 * (t * p)
  {
  }

  /** The entries from fill on are written, and no others. */
  ghost predicate Filled(s: seq<Code>, t: seq<Code>, off: nat, size: nat, d: nat, x: nat, e: Code, fill: nat)
  {
    && |t| == |s| && off + Pow2(size) <= |s| && fill <= Pow2(size)
    && (forall i :: 0 <= i < |s| && (i < off + fill || off + Pow2(size) <= i) ==> t[i] == s[i])
    && forall j :: fill <= j < Pow2(size) ==> CellIs(t, off, j, if Lo(j, d) == x then e else s[off + j])
  }

  lemma FilledStep(s: seq<Code>, t: seq<Code>, off: nat, size: nat, d: nat, x: nat, e: Code, fill: nat, m: nat)
    requires Filled(s, t, off, size, d, x, e, fill + Pow2(d)) && x < Pow2(d) && fill == Pow2(d) * m
    ensures off + fill + x < |t| && Filled(s, t[off + fill + x := e], off, size, d, x, e, fill)
  {
    hide Pow2, Lo;
    var t' := t[off + fill + x := e];
    forall j | fill <= j < Pow2(size) ensures CellIs(t', off, j, if Lo(j, d) == x then e else s[off + j]) {
      if j < fill + Pow2(d) {
        InBlock(j - fill, d, m);
      } else {
        assert CellIs(t, off, j, if Lo(j, d) == x then e else s[off + j]);
      }
    }
  }

  lemma FilledAll(s: seq<Code>, t: seq<Code>, off: nat, size: nat, d: nat, x: nat, e: Code)
    requires Filled(s, t, off, size, d, x, e, 0)
    ensures Replicated(s, t, off, size, d, x, e)
  {
    hide Pow2, Lo, CellIs;
  }

  /** The entry goes to every index whose low bits are those of the code. */
  method Replicate(table: array<Code>, next: nat, size: nat, d: nat, x: nat, here: Code)
    requires next + Pow2(size) <= table.Length && d <= size && x < Pow2(d)
    modifies table
    ensures Replicated(old(table[..]), table[..], next, size, d, x, here)
  {
    hide Pow2, Lo, CellIs, Filled, Replicated;
    ghost var s := table[..];
    var incr := Shl1(d);
    var fill := Shl1(size);
    Pow2Add(d, size - d);
    ghost var m := Pow2(size - d);
    NoneFilled(s, next, size, d, x, here);
    while true
      invariant m > 0 && fill == incr * m && Filled(s, table[..], next, size, d, x, here, fill)
      decreases m
    {
      ghost var t := table[..];
      TimesNext(incr, m - 1);
      FilledStep(s, t, next, size, d, x, here, fill - incr, m - 1);
      fill := fill - incr;
      table[next + x + fill] := here;
      assert table[..] == t[next + fill + x := here];
      m := m - 1;
      if fill == 0 { break; }
      ZeroTimes(incr, m);
    }
    FilledAll(s, table[..], next, size, d, x, here);
  }

  lemma NoneFilled(s: seq<Code>, off: nat, size: nat, d: nat, x: nat, e: Code)
    requires off + Pow2(size) <= |s|
    ensures Filled(s, s, off, size, d, x, e, Pow2(size))
  {
    hide Pow2, Lo;
  }

  lemma InBlock(y: nat, d: nat, m: nat)
    requires y < Pow2(d)
    ensures Lo(Pow2(d) * m + y, d) == y
  {
    hide Pow2;
    ModPlus(y, Pow2(d), m);
    SmallMod(y, Pow2(d));
  }

  lemma ZeroTimes(a: nat, m: nat)
    requires a * m != 0
    ensures m > 0
  {
  }

  /** The code goes up by one, from its last bit, which is the highest here. */
  method BackIncrement(huff: nat, len: nat) returns (r: nat)
    requires huff < Pow2(len) && len >= 1
    ensures r == BackStep(huff, len)
  {
    hide Pow2;
    ghost var h, k := huff, len;
    var incr := Shl1(len - 1);
    Halve(len);
    while incr != 0 && huff / incr % 2 == 1
      invariant 0 <= k <= len && incr == HalfPower(k) && h == Lo(huff, k) && BackStep(huff, len) == BackStep(h, k)
      decreases k
    {
      TopBit(huff, k);
      h := Lo(huff, k - 1);
      HalfOf(k);
      incr := incr / 2;
      k := k - 1;
    }
    if incr != 0 {
      TopBit(huff, k);
      r := huff % incr + incr;
    } else {
      r := 0;
    }
  }

  function HalfPower(k: nat): nat { if k == 0 then 0 else Pow2(k - 1) }

  lemma HalfOf(k: nat)
    requires k > 0
    ensures HalfPower(k) / 2 == HalfPower(k - 1)
  {
  }

  lemma Halve(n: nat)
    ensures forall v :: 0 <= v < Pow2(n) ==> Lo(v, n) == v
  {
    hide Pow2;
    forall v | 0 <= v < Pow2(n) ensures Lo(v, n) == v { SmallMod(v, Pow2(n)); }
  }

  /** Bit k - 1 of v, and the bits below it. */
  lemma TopBit(v: nat, k: nat)
    requires k > 0
    ensures Lo(v, k) == Lo(v, k - 1) + (if Hi(v, k - 1) % 2 == 1 then Pow2(k - 1) else 0)
    ensures BackStep(Lo(v, k), k) == if Hi(v, k - 1) % 2 == 1 then BackStep(Lo(v, k - 1), k - 1) else Lo(v, k) + Pow2(k - 1)
  {
    hide Pow2;
    var p := Pow2(k - 1);
    Double(k);
    ModParts(v, p, 2);
    CommuteTimes(p, 2);
    var w := v % (2 * p);
    assert w == p * (w / p) + w % p;
    BitCases(p, w / p);
  }

  lemma BitCases(p: nat, b: nat)
    requires b < 2
    ensures p * b == if b == 1 then p else 0
  {
  }

  // ----- the state of the main loop

  /** The table being filled, and whether the code worked on goes there. */
  ghost predicate Current(table: seq<Code>, lens: seq<nat>, root: nat, next: nat, curr: nat, drop: nat, low: int, c: nat, len: nat,
                          max: nat)
  {
    if low < 0 then len <= root && drop == 0 && curr == root && next == 0 && low == -1
    else InCurrent(table, lens, root, next, curr, drop, low, c, len, max)
  }

  ghost predicate InCurrent(table: seq<Code>, lens: seq<nat>, root: nat, next: nat, curr: nat, drop: nat, low: int, c: nat,
                            len: nat, max: nat)
  {
    && root < len && drop == root && low == Lo(Rev(c, len), root) && Pow2(root) <= next && low < |table|
    && table[low] == Code(curr, root, next) && curr <= MAXBITS
    && SubRoom(lens, Hi(c, len - root), root, root + curr, max)
  }

  /** What holds each time a code is about to be entered. */
  ghost predicate Building(table: seq<Code>, lens: seq<nat>, typ: CodeType, root: nat, next: nat, curr: nat, drop: nat, low: int,
                           used: nat, c: nat, len: nat, max: nat)
  {
    && Going(lens, c, len, max) && Built(table, lens, typ, root, next, curr, low, c, len) && root <= max
    && Current(table, lens, root, next, curr, drop, low, c, len, max) && used == next + Pow2(curr)
  }

  /** One code's entries: the same code is now among those entered. */
  lemma Entered(s0: seq<Code>, t: seq<Code>, lens: seq<nat>, typ: CodeType, root: nat, next: nat, curr: nat, drop: nat, low: int,
                used: nat, c: nat, len: nat, max: nat, sym: nat)
    requires Building(s0, lens, typ, root, next, curr, drop, low, used, c, len, max)
    requires sym < |lens| && lens[sym] == len && CodeOf(lens, sym) == c
    requires Replicated(s0, t, next, curr, len - drop, Hi(Rev(c, len), drop), Meaning(typ, sym, len - drop))
    ensures Built(t, lens, typ, root, next, curr, low, c + 1, len)
    ensures low >= 0 ==> low < |t| && t[low] == s0[low]
  {
    hide FirstCode, Pow2, End, Rev, Lo, Hi, CodeOf, Meaning, Built, SubRoom;
    CodeFits(lens, c, len, max);
    if low < 0 {
      HighAll(Rev(c, len));
      WroteRoot(s0, t, lens, typ, root, c, len, sym, low);
    } else {
      FitsSub(lens, Hi(c, len - root), root, root + curr, max, c, len);
      WroteSub(s0, t, lens, typ, root, next, curr, low, c, len, sym);
      assert low < next;
    }
  }

  lemma CodeFits(lens: seq<nat>, c: nat, len: nat, max: nat)
    requires Going(lens, c, len, max)
    ensures c < Pow2(len)
  {
    hide FirstCode, Pow2, End;
    assert End(lens, len) <= Pow2(len);
  }

  /** Where the code fits: what Replicate needs. */
  lemma EntryFits(table: seq<Code>, lens: seq<nat>, typ: CodeType, root: nat, next: nat, curr: nat, drop: nat, low: int, used: nat,
                  c: nat, len: nat, max: nat)
    requires Building(table, lens, typ, root, next, curr, drop, low, used, c, len, max)
    ensures next + Pow2(curr) <= |table| && drop < len && len - drop <= curr && Hi(Rev(c, len), drop) < Pow2(len - drop)
    ensures |lens| <= MostSymbols(typ)
  {
    hide FirstCode, Pow2, End, Rev, Lo, Hi, SubRoom, Going;
    GoingRange(lens, c, len, max);
    if low >= 0 { FitsSub(lens, Hi(c, len - root), root, root + curr, max, c, len); }
    HighBelow(Rev(c, len), len - drop, len);
  }

  /** The next code: one more of the same length, or the first of the next length that has any. */
  ghost predicate NextCode(lens: seq<nat>, c: nat, len: nat, c': nat, len': nat)
  {
    if c + 1 < End(lens, len) then c' == c + 1 && len' == len
    else len < len' <= MAXBITS && c' == FirstCode(lens, len') && Count(lens, len') > 0 && forall l :: len < l < len' ==> Count(lens, l) == 0
  }

  lemma SameEarlier(table: seq<Code>, lens: seq<nat>, typ: CodeType, root: nat, next: nat, curr: nat, low: int, c: nat, len: nat,
                    c': nat, len': nat)
    requires Built(table, lens, typ, root, next, curr, low, c + 1, len) && NextCode(lens, c, len, c', len') && c < End(lens, len)
    ensures Built(table, lens, typ, root, next, curr, low, c', len')
  {
    hide FirstCode, Pow2, CodeOf, SymbolDone, End;
    forall s | Earlier(lens, s, c', len') ensures Earlier(lens, s, c + 1, len) {
      CodeRange(lens, s);
      if len < lens[s] { CountedSymbol(lens, s); }
    }
  }

  lemma CountedSymbol(lens: seq<nat>, s: nat)
    requires s < |lens| && lens[s] > 0
    ensures Count(lens, lens[s]) > 0
  {
    OccPositive(lens, 0, |lens|, s);
  }

  lemma NextGoing(lens: seq<nat>, c: nat, len: nat, c': nat, len': nat, max: nat)
    requires Going(lens, c, len, max) && NextCode(lens, c, len, c', len') && (c + 1 == End(lens, len) ==> len < max)
    ensures Going(lens, c', len', max)
  {
    hide FirstCode, Pow2;
  }

  /** The next code is the one after this, with zeros appended when it is longer. */
  lemma NextIs(lens: seq<nat>, c: nat, len: nat, c': nat, len': nat)
    requires NextCode(lens, c, len, c', len') && c < End(lens, len)
    ensures len <= len' && c' == (c + 1) * Pow2(len' - len)
  {
    hide FirstCode, Pow2, End;
    if c + 1 < End(lens, len) {
      TimesOne(c + 1);
    } else {
      FirstAfter(lens, len, len');
    }
  }

  lemma NextHuff(lens: seq<nat>, c: nat, len: nat, c': nat, len': nat, max: nat)
    requires Going(lens, c, len, max) && Going(lens, c', len', max) && NextCode(lens, c, len, c', len')
    ensures BackStep(Rev(c, len), len) == Rev(c', len')
  {
    hide FirstCode, Pow2, End, BackStep, Rev;
    CodeFits(lens, c, len, max);
    CodeFits(lens, c', len', max);
    NextIs(lens, c, len, c', len');
    BackStepIs(c, len);
    RevAppend(c + 1, len, len' - len);
    StillFits(c + 1, len, len' - len);
  }

  lemma StillFits(c: nat, n: nat, d: nat)
    requires c * Pow2(d) < Pow2(n + d)
    ensures c < Pow2(n)
  {
    hide Pow2;
    Pow2Add(n, d);
    if c >= Pow2(n) { MoreOrSame(Pow2(n), c, Pow2(d)); }
  }

  /** Shifting a number up shifts its high bits and its low bits up. */
  lemma ShiftParts(x: nat, n: nat, d: nat)
    ensures Hi(x * Pow2(d), n + d) == Hi(x, n) && Lo(x * Pow2(d), n + d) == Lo(x, n) * Pow2(d)
  {
    hide Pow2;
    var p, q := Pow2(n), Pow2(d);
    Pow2Add(n, d);
    var k, r := x / p, x % p;
    assert x == p * k + r;
    assert x * q == (p * q) * k + r * q by { Spread(p, k, r, q); }
    LessTimes(r, p, q);
    DivUnique(x * q, p * q, k, r * q);
  }

  lemma Spread(p: nat, k: nat, r: nat, q: nat)
    ensures (p * k + r) * q == (p * q) * k + r * q
  {
  }

  lemma LessTimes(r: nat, p: nat, q: nat)
    requires r < p && q > 0
    ensures r * q < p * q
  {
    MoreTimes(p, r, q);
  }

  /** The first code whose first root bits differ from those of the sub-table is the first with its own. */
  lemma Aligned(c: nat, len: nat, c': nat, len': nat, root: nat)
    requires len <= len' && root < len' && c' == (c + 1) * Pow2(len' - len)
    requires root < len ==> Hi(c', len' - root) != Hi(c, len - root)
    ensures Lo(c', len' - root) == 0 && c' == Hi(c', len' - root) * Pow2(len' - root)
  {
    hide Pow2;
    var d := len' - len;
    if len <= root {
      Pow2Add(len' - root, root - len);
      var p, q := Pow2(len' - root), Pow2(root - len);
      assert Pow2(d) == p * q;
      Rearranged3b(c + 1, q, p);
      CommuteTimes(p, q);
      DivUnique(c', p, (c + 1) * q, 0);
      CommuteTimes(p, (c + 1) * q);
    } else {
      ShiftParts(c + 1, len - root, d);
      Carry(c, Pow2(len - root));
      NoneTimes(Pow2(d));
      WholeTimes(c', Pow2(len' - root));
    }
  }

  lemma NoneTimes(p: nat)
    ensures 0 * p == 0
  {
  }

  lemma WholeTimes(c: nat, p: nat)
    requires p > 0 && c % p == 0
    ensures c == (c / p) * p
  {
    assert c == p * (c / p) + c % p;
    CommuteTimes(p, c / p);
  }

  lemma Carry(c: nat, p: nat)
    requires p > 0 && (c + 1) / p != c / p
    ensures (c + 1) % p == 0
  {
    var k, r := c / p, c % p;
    assert c == p * k + r;
    if r + 1 < p { DivUnique(c + 1, p, k, r + 1); } else { TimesNext(p, k); DivUnique(c + 1, p, k + 1, 0); }
  }

  /** Still in the same table: nothing to do before the next code. */
  lemma StaysCurrent(t: seq<Code>, lens: seq<nat>, typ: CodeType, root: nat, next: nat, curr: nat, drop: nat, low: int, used: nat,
                     c: nat, len: nat, max: nat, c': nat, len': nat)
    requires Going(lens, c, len, max) && Going(lens, c', len', max) && NextCode(lens, c, len, c', len') && root <= max
    requires Current(t, lens, root, next, curr, drop, low, c, len, max) && used == next + Pow2(curr)
    requires Built(t, lens, typ, root, next, curr, low, c + 1, len) && (len' <= root || Lo(Rev(c', len'), root) == low)
    ensures Building(t, lens, typ, root, next, curr, drop, low, used, c', len', max)
  {
    hide FirstCode, Pow2, End, Rev, Lo, Hi, Built, Going, SubRoom;
    GoingRange(lens, c, len, max);
    SameEarlier(t, lens, typ, root, next, curr, low, c, len, c', len');
    NextIs(lens, c, len, c', len');
    if low >= 0 { SameBits(lens, c, len, c', len', root, max); }
  }

  lemma GoingRange(lens: seq<nat>, c: nat, len: nat, max: nat)
    requires Going(lens, c, len, max)
    ensures 1 <= len <= max <= MAXBITS && FirstCode(lens, len) <= c < End(lens, len)
  {
  }

  /** Codes with the same first root bits reversed have the same first root bits. */
  lemma SameBits(lens: seq<nat>, c: nat, len: nat, c': nat, len': nat, root: nat, max: nat)
    requires Going(lens, c, len, max) && Going(lens, c', len', max) && root < len && root < len'
    ensures Lo(Rev(c', len'), root) == Lo(Rev(c, len), root) <==> Hi(c', len' - root) == Hi(c, len - root)
  {
    hide FirstCode, Pow2, End, Rev, Lo, Hi;
    CodeFits(lens, c, len, max);
    CodeFits(lens, c', len', max);
    RevLow(c, root, len);
    RevLow(c', root, len');
    HighBelow(c, root, len);
    HighBelow(c', root, len');
    var x, y := Hi(c, len - root), Hi(c', len' - root);
    if Rev(x, root) == Rev(y, root) { RevInjective(x, y, root); }
  }

  /** A new sub-table is wanted: the code is the first with its first root bits. */
  lemma WantsSub(lens: seq<nat>, root: nat, low: int, c: nat, len: nat, max: nat, c': nat, len': nat)
    requires Going(lens, c, len, max) && Going(lens, c', len', max) && NextCode(lens, c, len, c', len') && root < len'
    requires (low < 0 && len <= root) || (root < len && low == Lo(Rev(c, len), root) && Lo(Rev(c', len'), root) != low)
    ensures Lo(c', len' - root) == 0 && c' == Hi(c', len' - root) * Pow2(len' - root)
  {
    hide FirstCode, Pow2, End, Rev, Lo, Hi, Going;
    GoingRange(lens, c, len, max);
    NextIs(lens, c, len, c', len');
    if root < len { SameBits(lens, c, len, c', len', root, max); }
    Aligned(c, len, c', len', root);
  }

  /** With the link written, the next code is ready to be entered. */
  lemma SubReady(s0: seq<Code>, t: seq<Code>, lens: seq<nat>, typ: CodeType, root: nat, next: nat, curr: nat, low0: int, c: nat,
                 len: nat, max: nat, c': nat, len': nat, curr': nat)
    requires Going(lens, c, len, max) && Going(lens, c', len', max) && NextCode(lens, c, len, c', len') && 1 <= root < len'
    requires Built(s0, lens, typ, root, next, curr, low0, c + 1, len) && Lo(c', len' - root) == 0
    requires SubRoom(lens, Hi(c', len' - root), root, root + curr', max) && next + Pow2(curr) + Pow2(curr') <= |s0|
    requires var low := Lo(Rev(c', len'), root);
             low < |s0| && t == s0[low := Code(curr', root, next + Pow2(curr))]
    ensures Building(t, lens, typ, root, next + Pow2(curr), curr', root, Lo(Rev(c', len'), root),
                     next + Pow2(curr) + Pow2(curr'), c', len', max)
  {
    hide FirstCode, Pow2, End, Rev, Lo, Hi, Going, Built, SubRoom, NextCode;
    BuiltRange(s0, lens, typ, root, next, curr, low0, c + 1, len);
    RoomRange(lens, Hi(c', len' - root), root, root + curr', max);
    GoingRange(lens, c, len, max);
    GoingRange(lens, c', len', max);
    CodeFits(lens, c', len', max);
    SameEarlier(s0, lens, typ, root, next, curr, low0, c, len, c', len');
    Linked(s0, t, lens, typ, root, next, curr, low0, c', len', next + Pow2(curr), curr', Lo(Rev(c', len'), root));
  }

  lemma BuiltRange(table: seq<Code>, lens: seq<nat>, typ: CodeType, root: nat, next: nat, curr: nat, low: int, c: nat, len: nat)
    requires Built(table, lens, typ, root, next, curr, low, c, len)
    ensures Pow2(root) <= next + Pow2(curr)
  {
    hide FirstCode, Pow2, SymbolDone, Earlier;
  }

  lemma RoomRange(lens: seq<nat>, t: nat, root: nat, l: nat, max: nat)
    requires SubRoom(lens, t, root, l, max)
    ensures root <= l <= max
  {
    hide Pow2, End;
  }

  // ----- the space handed out

  predicate TooLarge(typ: CodeType, used: nat)
  {
    (typ.Lens? && used > ENOUGH_LENS) || (typ.Dists? && used > ENOUGH_DISTS)
  }

  /** The entries handed out are those of the root table and of the sub-tables up to the one in work, and there is space. */
  ghost predicate Spent(typ: CodeType, lens: seq<nat>, root: nat, low: int, used: nat, c: nat, len: nat)
  {
    && (low >= 0 ==> root < len) && !TooLarge(typ, used)
    && used == Pow2(root) + SubSpace(lens, root, if low < 0 then 0 else Hi(c, len - root) + 1)
  }

  lemma SpentFits(typ: CodeType, lens: seq<nat>, root: nat, low: int, used: nat, c: nat, len: nat)
    requires Spent(typ, lens, root, low, used, c, len)
    ensures !TooLarge(typ, used)
  {
  }

  lemma SpaceStart(lens: seq<nat>, root: nat)
    ensures SubSpace(lens, root, 0) == 0
  {
  }

  lemma SpentIs(typ: CodeType, lens: seq<nat>, root: nat, low: nat, used: nat, c: nat, len: nat)
    requires root < len && !TooLarge(typ, used) && used == Pow2(root) + SubSpace(lens, root, Hi(c, len - root) + 1)
    ensures Spent(typ, lens, root, low, used, c, len)
  {
  }

  lemma SpentStart(typ: CodeType, lens: seq<nat>, root: nat, c: nat, len: nat)
    requires !TooLarge(typ, Pow2(root))
    ensures Spent(typ, lens, root, -1, Pow2(root), c, len)
  {
    assert SubSpace(lens, root, 0) == 0;
  }

  lemma SpentStays(t: seq<Code>, typ: CodeType, lens: seq<nat>, root: nat, next: nat, curr: nat, drop: nat, low: int, used: nat,
                   c: nat, len: nat, max: nat, c': nat, len': nat)
    requires Going(lens, c, len, max) && Going(lens, c', len', max) && NextCode(lens, c, len, c', len')
    requires Current(t, lens, root, next, curr, drop, low, c, len, max) && Spent(typ, lens, root, low, used, c, len)
    requires len' <= root || Lo(Rev(c', len'), root) == low
    ensures Spent(typ, lens, root, low, used, c', len')
  {
    hide FirstCode, Pow2, End, Rev, Lo, Hi, Going, SubRoom, SubSpace, TooLarge;
    GoingRange(lens, c, len, max);
    NextIs(lens, c, len, c', len');
    if low >= 0 { SameBits(lens, c, len, c', len', root, max); }
  }

  /** A new sub-table is the next one after the root bits so far. */
  lemma SpentNew(typ: CodeType, lens: seq<nat>, root: nat, low: int, used: nat, c: nat, len: nat, max: nat, c': nat, len': nat)
    requires Going(lens, c, len, max) && Going(lens, c', len', max) && NextCode(lens, c, len, c', len') && root < len'
    requires (low < 0 && len <= root) || (root < len && 0 <= low == Lo(Rev(c, len), root) && Lo(Rev(c', len'), root) != low)
    requires Spent(typ, lens, root, low, used, c, len)
    ensures used + SubEntries(lens, root, Hi(c', len' - root)) == Pow2(root) + SubSpace(lens, root, Hi(c', len' - root) + 1)
  {
    hide FirstCode, Pow2, End, Rev, Lo, Hi, Going, SubEntries, LongUnder, TooLarge;
    GoingRange(lens, c, len, max);
    GoingRange(lens, c', len', max);
    var t := Hi(c', len' - root);
    if low < 0 {
      forall s: nat, u: nat | 0 <= u < t ensures !LongUnder(lens, root, u, s) {
        if LongUnder(lens, root, u, s) {
          LongFollows(lens, root, u, s, c, len, c', len');
          FirstStart(lens, root, c', len', s, u);
        }
      }
      SpaceSame(lens, root, 0, t);
    } else {
      SameBits(lens, c, len, c', len', root, max);
      NextIs(lens, c, len, c', len');
      NextStart(c, len, c', len', root);
    }
  }

  lemma LongFollows(lens: seq<nat>, root: nat, t: nat, s: nat, c: nat, len: nat, c': nat, len': nat)
    requires LongUnder(lens, root, t, s) && len <= root < len' && NextCode(lens, c, len, c', len')
    ensures lens[s] >= len' && c' == FirstCode(lens, len')
  {
    hide FirstCode, CodeOf, Hi;
    CountedSymbol(lens, s);
  }

  lemma NextStart(c: nat, len: nat, c': nat, len': nat, root: nat)
    requires root < len <= len' && c' == (c + 1) * Pow2(len' - len) && Hi(c', len' - root) != Hi(c, len - root)
    ensures Hi(c', len' - root) == Hi(c, len - root) + 1
  {
    hide Pow2;
    ShiftParts(c + 1, len - root, len' - len);
    Successor(c, Pow2(len - root));
  }

  lemma Successor(c: nat, p: nat)
    requires p > 0
    ensures (c + 1) / p == c / p || (c + 1) / p == c / p + 1
  {
    var k, r := c / p, c % p;
    assert c == p * k + r;
    if r + 1 < p { DivUnique(c + 1, p, k, r + 1); } else { TimesNext(p, k); DivUnique(c + 1, p, k + 1, 0); }
  }

  lemma SpentAll(t: seq<Code>, typ: CodeType, lens: seq<nat>, root: nat, next: nat, curr: nat, drop: nat, low: int, used: nat,
                 c: nat, max: nat)
    requires LengthsOk(lens) && Going(lens, c, max, max) && c + 1 == End(lens, max) && root <= max
    requires Current(t, lens, root, next, curr, drop, low, c, max, max) && Spent(typ, lens, root, low, used, c, max)
    ensures used == Space(lens, root)
  {
    hide FirstCode, Pow2, End, Rev, Lo, Hi, Going, SubSpace, LongUnder, TooLarge, SubRoom, LengthsOk;
    GoingRange(lens, c, max, max);
    var n := if low < 0 then 0 else Hi(c, max - root) + 1;
    forall s: nat, u: nat | n <= u < Pow2(root) ensures !LongUnder(lens, root, u, s) {
      if LongUnder(lens, root, u, s) {
        LongGoing(lens, root, u, s, c, max);
        LastStart(lens, root, c, max, s, u);
      }
    }
    if low >= 0 { StartBelow(lens, c, max, max, root); }
    SpaceSame(lens, root, n, Pow2(root));
  }

  lemma LongGoing(lens: seq<nat>, root: nat, t: nat, s: nat, c: nat, max: nat)
    requires LongUnder(lens, root, t, s) && LengthsOk(lens) && Going(lens, c, max, max)
    ensures root < lens[s] <= max
  {
    hide FirstCode, CodeOf, Hi, Going;
    SymbolGoing(lens, s, c, max, max);
    GoingRange(lens, CodeOf(lens, s), lens[s], max);
  }

  lemma StartBelow(lens: seq<nat>, c: nat, len: nat, max: nat, root: nat)
    requires Going(lens, c, len, max) && root <= len
    ensures Hi(c, len - root) < Pow2(root)
  {
    hide FirstCode, Pow2, Hi, Going;
    CodeFits(lens, c, len, max);
    HighBelow(c, root, len);
  }

  /** What is too much on the way is too much in all. */
  lemma SpentTooMuch(typ: CodeType, lens: seq<nat>, root: nat, n: nat)
    requires n <= Pow2(root) && TooLarge(typ, Pow2(root) + SubSpace(lens, root, n))
    ensures TooLarge(typ, Space(lens, root))
  {
    hide Pow2, SubSpace;
    SpaceGrows(lens, root, n, Pow2(root));
  }

  // ----- the end

  /** Every number of max bits lies among the codes of some length, when the code is complete. */
  lemma {:induction false} Covers(lens: seq<nat>, x: nat, l: nat) returns (m: nat)
    requires x < End(lens, l)
    ensures 0 < m <= l && FirstCode(lens, m) <= Hi(x, l - m) < End(lens, m)
    decreases l
  {
    hide Pow2;
    HighAll(x);
    if x >= FirstCode(lens, l) {
      m := l;
    } else {
      HalfBit(x);
      m := Covers(lens, Hi(x, 1), l - 1);
      HiHi(x, 1, l - 1 - m);
    }
  }

  lemma HalfBit(x: nat)
    ensures Hi(x, 1) == x / 2
  {
    assert Pow2(1) == 2;
  }

  /** In a complete code any bits begin with a symbol's code. */
  lemma SomeSymbol(lens: seq<nat>, h: nat, max: nat) returns (s: nat)
    requires End(lens, max) == Pow2(max)
    ensures s < |lens| && Spells(lens, h, s)
  {
    hide Pow2, End, FirstCode, Rev, Lo, Hi;
    var x := Rev(Lo(h, max), max);
    var m := Covers(lens, x, max);
    s := CodeSymbol(lens, m, Hi(x, max - m));
    RevLow(Lo(h, max), max - (max - m), max);
    RevRev(Lo(h, max), max, m);
    ModPow(h, m, max);
  }

  /** The high m bits of the reversal are the reversal of the low m bits, and reversing twice gives the bits back. */
  lemma RevRev(v: nat, n: nat, m: nat)
    requires v < Pow2(n) && m <= n
    ensures Rev(Hi(Rev(v, n), n - m), m) == Lo(v, m)
  {
    hide Pow2, Rev, Lo, Hi;
    RevLow(Rev(v, n), m, n);
    RevTwice(v, n);
  }

  lemma {:induction false} RevTwice(v: nat, n: nat)
    requires v < Pow2(n)
    ensures Rev(Rev(v, n), n) == v
    decreases n
  {
    hide Hi, Lo;
    if n > 0 {
      RevTwice(v / 2, n - 1);
      RevOfTop(v % 2, Rev(v / 2, n - 1), n - 1);
    }
  }

  /** A bit put on top comes out at the bottom. */
  lemma {:induction false} RevOfTop(b: nat, x: nat, n: nat)
    requires b < 2 && x < Pow2(n)
    ensures Rev(b * Pow2(n) + x, n + 1) == 2 * Rev(x, n) + b
    decreases n
  {
    if n == 0 {
      assert Pow2(0) == 1 && Rev(b, 1) == b % 2 * Pow2(0) + Rev(b / 2, 0);
    } else {
      var y := b * Pow2(n) + x;
      HalfOfTop(b, x, n);
      RevOne(y, n);
      RevOfTop(b, x / 2, n - 1);
      RevOne(x, n - 1);
      BitTimes(x % 2, Pow2(n - 1));
    }
  }

  lemma HalfOfTop(b: nat, x: nat, n: nat)
    requires n > 0
    ensures (b * Pow2(n) + x) / 2 == b * Pow2(n - 1) + x / 2 && (b * Pow2(n) + x) % 2 == x % 2
  {
    DoubleTimes(b, Pow2(n - 1));
  }

  lemma BitTimes(b: nat, p: nat)
    ensures b * (2 * p) == 2 * (b * p)
  {
  }

  /** All codes are in the table. */
  lemma AllDone(table: seq<Code>, lens: seq<nat>, typ: CodeType, root: nat, next: nat, curr: nat, low: int, c: nat, max: nat,
                s: nat, h: nat)
    requires Built(table, lens, typ, root, next, curr, low, c, max) && c == End(lens, max) && Longest(lens, max)
    requires LengthsOk(lens) && s < |lens| && Spells(lens, h, s)
    ensures Finds(table, root, h, Meaning(typ, s, lens[s]))
  {
    hide FirstCode, Pow2, CodeOf, Finds, SymbolDone, Rev, Lo, Meaning;
    CodeRange(lens, s);
    CountedSymbol(lens, s);
    assert Earlier(lens, s, c, max);
    DoneFinds(table, lens, typ, root, next, curr, low, s, h);
  }

  lemma CompleteDecodes(table: seq<Code>, lens: seq<nat>, typ: CodeType, root: nat, next: nat, curr: nat, low: int, c: nat,
                        max: nat)
    requires Built(table, lens, typ, root, next, curr, low, c, max) && c == End(lens, max) == Pow2(max) && Longest(lens, max)
    requires LengthsOk(lens)
    ensures Decodes(table, root, typ, lens)
  {
    hide FirstCode, Pow2, CodeOf, Finds, SymbolDone, Rev, Lo, Meaning, End, Spells;
    forall s, h: nat | 0 <= s < |lens| && Spells(lens, h, s) ensures Finds(table, root, h, Meaning(typ, s, lens[s])) {
      AllDone(table, lens, typ, root, next, curr, low, c, max, s, h);
    }
    forall h: nat ensures !Unspelled(lens, h) {
      var s := SomeSymbol(lens, h, max);
    }
  }

  // ----- a single code of one bit, and no code at all

  /** The only code: 0, of one bit. */
  lemma SingleCode(lens: seq<nat>)
    requires LengthsOk(lens) && Longest(lens, 1) && End(lens, 1) == 1
    ensures exists s :: 0 <= s < |lens| && OnlyCode(lens, s)
  {
    FirstOne(lens);
    var s := CodeSymbol(lens, 1, 0);
    forall t | 0 <= t < |lens| && t != s ensures lens[t] == 0 {
      if lens[t] > 0 {
        CountedSymbol(lens, t);
        CodeRange(lens, t);
        SameCode(lens, s, t);
      }
    }
    assert OnlyCode(lens, s);
  }

  lemma FirstOne(lens: seq<nat>)
    ensures FirstCode(lens, 1) == 0
  {
    assert FirstCode(lens, 0) == 0 && Count(lens, 0) == 0;
  }

  /** And the invalid marker where the bit is 1. */
  lemma SingleDecodes(s0: seq<Code>, table: seq<Code>, lens: seq<nat>, typ: CodeType)
    requires Built(s0, lens, typ, 1, 0, 1, -1, 1, 1) && Longest(lens, 1) && End(lens, 1) == 1 && LengthsOk(lens)
    requires table == s0[1 := Code(64, 1, 0)] && |s0| >= 2
    ensures Decodes(table, 1, typ, lens)
  {
    hide CodeOf, Meaning;
    assert Pow2(1) == 2;
    FirstOne(lens);
    var s := CodeSymbol(lens, 1, 0);
    assert Earlier(lens, s, 1, 1) && Rev(0, 1) == 0;
    assert RootDone(s0, lens, typ, 1, s) && s0[0] == Meaning(typ, s, 1);
    MeaningNoLink(typ, s, 1);
    forall t, h: nat | 0 <= t < |lens| && Spells(lens, h, t) ensures Finds(table, 1, h, Meaning(typ, t, lens[t])) {
      CountedSymbol(lens, t);
      CodeRange(lens, t);
      SameCode(lens, s, t);
    }
    forall h: nat | Unspelled(lens, h) ensures Finds(table, 1, h, Code(64, 1, 0)) {
      assert !Spells(lens, h, s);
    }
  }

  lemma EmptyDecodes(table: seq<Code>, lens: seq<nat>, typ: CodeType)
    requires |lens| <= MostSymbols(typ) && LengthsOk(lens) && Longest(lens, 0)
    requires |table| >= 2 && table[0] == table[1] == Code(64, 1, 0)
    ensures Decodes(table, 1, typ, lens) && Kraft(lens, MAXBITS) == 0
  {
    hide FirstCode, CodeOf, Meaning, Rev;
    assert Pow2(1) == 2;
    forall s | 0 <= s < |lens| ensures lens[s] == 0 {
      if lens[s] > 0 { CountedSymbol(lens, s); }
    }
    KraftIsEnd(lens, MAXBITS);
    EndAtMax(lens, 0, MAXBITS);
    EndZero(lens);
  }

  // ----- acceptance

  lemma Accepted(typ: CodeType, lens: seq<nat>, max: nat)
    requires LengthsOk(lens) && Longest(lens, max) && max > 0
    ensures Acceptable(typ, lens) <==>
            End(lens, MAXBITS) == Pow2(MAXBITS) || (End(lens, MAXBITS) < Pow2(MAXBITS) && typ != Codes && max == 1)
  {
    hide FirstCode, Pow2, Occ;
    KraftIsEnd(lens, MAXBITS);
    SomeCode(lens, max);
    if max == 1 {
      EndAtMax(lens, 1, MAXBITS);
      OneBitSets(lens);
    }
    if s :| 0 <= s < |lens| && OnlyCode(lens, s) { OnlyIsSingle(lens, s, max); }
  }

  lemma SomeCode(lens: seq<nat>, max: nat)
    requires Longest(lens, max) && max > 0
    ensures End(lens, MAXBITS) > 0
  {
    hide FirstCode, Pow2, Occ;
    EndGrows(lens, max, MAXBITS);
    PositiveTimes(End(lens, max), Pow2(MAXBITS - max));
  }

  lemma PositiveTimes(a: nat, b: nat)
    requires a > 0 && b > 0
    ensures a * b > 0
  {
  }

  /** With codes of one bit only, incomplete means there is just one. */
  lemma OneBitSets(lens: seq<nat>)
    requires LengthsOk(lens) && Longest(lens, 1) && End(lens, MAXBITS) == End(lens, 1) * Pow2(MAXBITS - 1)
    ensures End(lens, MAXBITS) < Pow2(MAXBITS) ==> End(lens, 1) == 1 && exists s :: 0 <= s < |lens| && OnlyCode(lens, s)
  {
    FirstOne(lens);
    Pow2Add(1, MAXBITS - 1);
    assert Pow2(1) == 2;
    if End(lens, MAXBITS) < Pow2(MAXBITS) {
      if End(lens, 1) >= 2 { MoreOrSame(2, End(lens, 1), Pow2(MAXBITS - 1)); }
      SingleCode(lens);
    }
  }

  lemma OnlyIsSingle(lens: seq<nat>, s: nat, max: nat)
    requires Longest(lens, max) && max > 0 && OnlyCode(lens, s)
    ensures max == 1 && End(lens, MAXBITS) < Pow2(MAXBITS)
  {
    hide Pow2;
    var t := CodeSymbol(lens, max, FirstCode(lens, max));
    FirstOne(lens);
    CodeRange(lens, s);
    if End(lens, 1) > 1 { var u := CodeSymbol(lens, 1, 1); OnlyOne(lens, s, u); }
    EndAtMax(lens, 1, MAXBITS);
    Pow2Add(1, MAXBITS - 1);
    PowOne();
    TimesOneIs(Pow2(MAXBITS - 1));
  }

  lemma OnlyOne(lens: seq<nat>, s: nat, u: nat)
    requires OnlyCode(lens, s) && u < |lens| && lens[u] == 1
    ensures CodeOf(lens, u) == CodeOf(lens, s) && CodeOf(lens, u) < End(lens, 1)
  {
    CodeRange(lens, u);
  }

  lemma PowOne()
    ensures Pow2(1) == 2
  {
  }

  lemma TimesOneIs(p: nat)
    ensures 1 * p == p
  {
  }

  // ----- the whole

  /** bits where it is one of the lengths from min to max, and otherwise the nearer end. */
  function Clamped(bits: nat, min: nat, max: nat): nat
  {
    if bits > max then max else if bits < min then min else bits
  }

  /** The index bits of the root table: bits, but for the lengths in use. */
  function RootBits(lens: seq<nat>, bits: nat): nat
  {
    if LongestLen(lens) == 0 then 1 else Clamped(bits, ShortestLen(lens), LongestLen(lens))
  }

  lemma RootBitsAre(lens: seq<nat>, bits: nat, min: nat, max: nat)
    requires LengthsOk(lens) && Longest(lens, max)
    requires max > 0 ==> 1 <= min <= max && Count(lens, min) > 0 && forall l :: 0 < l < min ==> Count(lens, l) == 0
    ensures RootBits(lens, bits) == if max == 0 then 1 else Clamped(bits, min, max)
  {
    hide FirstCode, Pow2, Occ, Clamped;
    forall s | 0 <= s < |lens| ensures lens[s] <= max && (max > 0 && lens[s] > 0 ==> lens[s] >= min) {
      if lens[s] > 0 { CountedSymbol(lens, s); }
    }
    if max > 0 {
      var s := CodeSymbol(lens, max, FirstCode(lens, max));
      var u := CodeSymbol(lens, min, FirstCode(lens, min));
      ShortestIs(lens, min);
    }
    LongestIs(lens, max);
  }

  /** The longest and the shortest length in use, and the root table's index bits. */
  method Bounds(count: array<nat>, lens: seq<nat>, bits: nat) returns (max: nat, min: nat, root: nat)
    requires count.Length == MAXBITS + 1 && Counted(count[..], lens, |lens|)
    ensures Longest(lens, max) && (max == 0 || 1 <= min <= root <= max)
    ensures max > 0 ==> Count(lens, min) > 0 && forall l :: 0 < l < min ==> Count(lens, l) == 0
    ensures root == if max == 0 then 0 else Clamped(bits, min, max)
  {
    hide Counted, Occ;
    root := bits;
    max := MAXBITS;
    while max >= 1
      invariant max <= MAXBITS && forall l :: max < l <= MAXBITS ==> Count(lens, l) == 0
    {
      CountedAt(count[..], lens, max);
      if count[max] != 0 { break; }
      max := max - 1;
    }
    if root > max { root := max; }
    min := 1;
    if max == 0 { return; }
    while min < max
      invariant 1 <= min <= max && forall l :: 0 < l < min ==> Count(lens, l) == 0
    {
      CountedAt(count[..], lens, min);
      if count[min] != 0 { break; }
      min := min + 1;
    }
    if root < min { root := min; }
  }

  /** On to the next symbol: its length, and whether there is one. */
  method Advance(count: array<nat>, lens: seq<nat>, work: array<nat>, sym: nat, len: nat, max: nat, ghost c: nat)
    returns (done: bool, len': nat, ghost c': nat)
    requires count.Length == MAXBITS + 1 && count != work && Sorted(work[..], lens, |lens|)
    requires Going(lens, c, len, max) && Left(count[..], lens, c, len) && sym == Place(lens, c, len) + 1
    modifies count
    ensures done ==> len == max && c + 1 == End(lens, max)
    ensures !done ==> NextCode(lens, c, len, c', len') && Going(lens, c', len', max) && Left(count[..], lens, c', len')
    ensures !done ==> sym == Place(lens, c', len')
  {
    hide FirstCode, Pow2, Below, Occ;
    done, len', c' := false, len, c + 1;
    ghost var w, k := work[..], count[..];
    count[len] := count[len] - 1;
    assert work[..] == w && count[..] == k[len := k[len] - 1];
    if count[len] == 0 {
      if len == max { done := true; return; }
      ghost var m := NextLength(lens, len, max);
      c' := FirstCode(lens, m);
      NextGoing(lens, c, len, c', m, max);
      NextPlace(lens, c, len, m);
      ghost var s := SymbolAt(w, lens, c', m, max);
      assert work[sym] == w[sym];
      len' := lens[work[sym]];
    } else {
      NextGoing(lens, c, len, c', len', max);
    }
  }

  /** The next length in use. */
  lemma NextLength(lens: seq<nat>, len: nat, max: nat) returns (m: nat)
    requires Longest(lens, max) && len < max
    ensures len < m <= max && Count(lens, m) > 0 && forall l :: len < l < m ==> Count(lens, l) == 0
  {
    m := len + 1;
    while Count(lens, m) == 0
      invariant len < m <= max && forall l :: len < l < m ==> Count(lens, l) == 0
      decreases max - m
    {
      m := m + 1;
    }
  }

  lemma NextPlace(lens: seq<nat>, c: nat, len: nat, m: nat)
    requires 0 < len < m && c + 1 == End(lens, len) && forall l :: len < l < m ==> Count(lens, l) == 0
    ensures Place(lens, FirstCode(lens, m), m) == Place(lens, c, len) + 1
  {
    hide FirstCode;
    SameBelow(lens, len + 1, m);
  }

  lemma {:induction false} SameBelow(lens: seq<nat>, l: nat, m: nat)
    requires 0 < l <= m && forall j :: l <= j < m ==> Count(lens, j) == 0
    ensures Below(lens, m) == Below(lens, l)
  {
    if l < m {
      assert Count(lens, m - 1) == 0;
      SameBelow(lens, l, m - 1);
    }
  }

  /** The entry of the symbol at sym, wherever it belongs. */
  method Enter(typ: CodeType, lens: seq<nat>, table: array<Code>, work: array<nat>, root: nat, next: nat, curr: nat, drop: nat,
               ghost low: int, ghost used: nat, huff: nat, sym: nat, len: nat, ghost max: nat, ghost c: nat)
    requires table as object != work && Sorted(work[..], lens, |lens|) && sym == Place(lens, c, len) && huff == Rev(c, len)
    requires Building(table[..], lens, typ, root, next, curr, drop, low, used, c, len, max)
    modifies table
    ensures Built(table[..], lens, typ, root, next, curr, low, c + 1, len)
    ensures Current(table[..], lens, root, next, curr, drop, low, c, len, max)
  {
    hide FirstCode, Pow2, Below, Occ, Rev, Hi, Lo, Built, Place, SubRoom, Meaning, End, Replicated;
    ghost var s := SymbolAt(work[..], lens, c, len, max);
    ghost var t := table[..];
    EntryFits(t, lens, typ, root, next, curr, drop, low, used, c, len, max);
    assert work[sym] == work[..][sym];
    var here := Meaning(typ, work[sym], len - drop);
    MeaningNoLink(typ, work[sym], len - drop);
    // the entry fits its 8 and 16 bits
    assert here.op < 256 && here.bits < 256 && here.val < 65536;
    Replicate(table, next, curr, len - drop, Hi(huff, drop), here);
    Entered(t, table[..], lens, typ, root, next, curr, drop, low, used, c, len, max, s);
  }

  /** A new sub-table, and the link to it: when there is space. */
  method NewSub(typ: CodeType, lens: seq<nat>, table: array<Code>, count: array<nat>, root: nat, next0: nat, curr0: nat, ghost low0: int,
                used0: nat, huff: nat, len: nat, max: nat, ghost c: nat, ghost len0: nat, ghost c0: nat)
    returns (ok: bool, next: nat, curr: nat, low: nat, used: nat)
    requires table as object != count && count.Length == MAXBITS + 1 && Left(count[..], lens, c, len) && huff == Rev(c, len)
    requires Going(lens, c0, len0, max) && Going(lens, c, len, max) && NextCode(lens, c0, len0, c, len) && 1 <= root < len
    requires Built(table[..], lens, typ, root, next0, curr0, low0, c0 + 1, len0) && used0 == next0 + Pow2(curr0)
    requires (low0 < 0 && len0 <= root) || (root < len0 && low0 == Lo(Rev(c0, len0), root) && Lo(huff, root) != low0)
    requires typ != Codes && (typ.Lens? ==> table.Length >= ENOUGH_LENS) && (typ.Dists? ==> table.Length >= ENOUGH_DISTS)
    requires Spent(typ, lens, root, low0, used0, c0, len0) && LengthsOk(lens)
    modifies table
    ensures ok ==> Spent(typ, lens, root, low, used, c, len)
    ensures ok ==> Building(table[..], lens, typ, root, next, curr, root, low, used, c, len, max) && low == Lo(huff, root)
    ensures ok ==> used <= table.Length
    ensures !ok ==> TooLarge(typ, Space(lens, root))
  {
    hide FirstCode, Pow2, Below, Occ, Rev, Hi, Lo, Built, Place, SubRoom, End, Going, Left, LengthsOk, SubEntries, SubSpace, Space, Spent;
    ghost var t := table[..];
    WantsSub(lens, root, low0, c0, len0, max, c, len);
    next := next0 + Shl1(curr0);
    curr := SubSize(count, lens, len, root, max, c, Hi(c, len - root));
    used := used0 + Shl1(curr);
    low := Lo(huff, root);
    SpentNew(typ, lens, root, low0, used0, c0, len0, max, c, len);
    StartBelow(lens, c, len, max, root);
    if TooLarge(typ, used) {
      SpentTooMuch(typ, lens, root, Hi(c, len - root) + 1);
      return false, next, curr, low, used;
    }
    SpentIs(typ, lens, root, low, used, c, len);
    LowInTable(t, lens, typ, root, next0, curr0, low0, c0 + 1, len0, huff);
    LinkFits(lens, c, len, max, curr, next, used);
    table[low] := Code(curr, root, next);
    assert table[..] == t[low := Code(curr, root, next)];
    SubReady(t, table[..], lens, typ, root, next0, curr0, low0, c0, len0, max, c, len, curr);
    ok := true;
  }

  /** The link fits its 8 and 16 bits. */
  lemma LinkFits(lens: seq<nat>, c: nat, len: nat, max: nat, curr: nat, next: nat, used: nat)
    requires Going(lens, c, len, max) && curr <= max && next <= used <= ENOUGH_LENS
    ensures curr < 256 && max < 256 && next < 65536
  {
  }

  lemma LowInTable(table: seq<Code>, lens: seq<nat>, typ: CodeType, root: nat, next: nat, curr: nat, low: int, c: nat, len: nat,
                   huff: nat)
    requires Built(table, lens, typ, root, next, curr, low, c, len)
    ensures Lo(huff, root) < |table|
  {
    hide FirstCode, Pow2, Lo, SymbolDone;
  }

  /** How the table may be filled: all of it, with a code that is complete or one bit long. */
  ghost predicate Result(table: seq<Code>, lens: seq<nat>, typ: CodeType, root: nat, next: nat, curr: nat, low: int, c: nat,
                         max: nat, huff: nat)
  {
    && c >= 1 && Built(table, lens, typ, root, next, curr, low, c, max) && c == End(lens, max)
    && Current(table, lens, root, next, curr, if low < 0 then 0 else root, low, c - 1, max, max)
    && huff == BackStep(Rev(c - 1, max), max)
  }

  /** The main loop: an entry for each code, and a sub-table for each start of codes longer than root. */
  method FillTables(typ: CodeType, lens: seq<nat>, table: array<Code>, count: array<nat>, work: array<nat>, root: nat, min: nat,
                    max: nat)
    returns (ok: bool, used: nat, huff: nat, ghost next: nat, ghost curr: nat, ghost low: int, ghost c: nat)
    requires table as object != count && table as object != work && count != work && count.Length == MAXBITS + 1
    requires Sorted(work[..], lens, |lens|) && Counted(count[..], lens, |lens|) && |lens| <= MostSymbols(typ)
    requires 1 <= min <= root <= max && Longest(lens, max) && Count(lens, min) > 0 && LengthsOk(lens)
    requires forall l :: 0 < l < min ==> Count(lens, l) == 0
    requires forall l :: 0 <= l <= MAXBITS ==> End(lens, l) <= Pow2(l)
    requires typ == Codes ==> root == max && table.Length >= Pow2(root)
    requires (typ.Lens? ==> table.Length >= ENOUGH_LENS) && (typ.Dists? ==> table.Length >= ENOUGH_DISTS)
    modifies table, count
    ensures ok ==> Result(table[..], lens, typ, root, next, curr, low, c, max, huff) && used <= table.Length
    ensures ok ==> used == Space(lens, root) && !TooLarge(typ, used)
    ensures !ok ==> TooLarge(typ, Space(lens, root))
  {
    hide FirstCode, Pow2, Below, Occ, Rev, Hi, Lo, Built, Place, SubRoom, End, Going, Left, Counted, Current, BackStep, Sorted;
    hide Space, SubSpace, Spent, LengthsOk;
    used := Shl1(root);
    SpaceStart(lens, root);
    if TooLarge(typ, used) {
      SpentTooMuch(typ, lens, root, 0);
      return false, used, 0, 0, 0, -1, 0;
    }
    huff := 0;
    var sym: nat, len: nat, at: nat, size: nat, drop: nat, mark: int := 0, min, 0, root, 0, -1;
    c := 0;
    StartBuilding(table[..], lens, typ, count[..], root, min, max);
    WorkPlace(work[..], lens, c, len, max);
    SpentStart(typ, lens, root, c, len);
    while true
      invariant Building(table[..], lens, typ, root, at, size, drop, mark, used, c, len, max) && Left(count[..], lens, c, len)
      invariant huff == Rev(c, len) && sym == Place(lens, c, len) && Sorted(work[..], lens, |lens|) && used <= table.Length
      invariant sym < |lens| && Spent(typ, lens, root, mark, used, c, len)
      decreases |lens| - sym
    {
      ghost var s := SymbolAt(work[..], lens, c, len, max);
      CodeFits(lens, c, len, max);
      Enter(typ, lens, table, work, root, at, size, drop, mark, used, huff, sym, len, max, c);
      GoingRange(lens, c, len, max);
      huff := BackIncrement(huff, len);
      sym := sym + 1;
      var done, len';
      ghost var c';
      done, len', c' := Advance(count, lens, work, sym, len, max, c);
      if done {
        SpentAll(table[..], typ, lens, root, at, size, drop, mark, used, c, max);
        SpentFits(typ, lens, root, mark, used, c, len);
        next, curr, low, c := at, size, mark, c + 1;
        DropIs(table[..], lens, root, at, size, drop, mark, c - 1, max, max);
        return true, used, huff, next, curr, low, c;
      }
      NextHuff(lens, c, len, c', len', max);
      WorkPlace(work[..], lens, c', len', max);
      if len' > root && Lo(huff, root) != mark {
        MarkIs(table[..], lens, root, at, size, drop, mark, c, len, max);
        var ok', a, z, m, u := NewSub(typ, lens, table, count, root, at, size, mark, used, huff, len', max, c', len, c);
        if !ok' { return false, u, huff, 0, 0, -1, 0; }
        at, size, drop, mark, used := a, z, root, m, u;
      } else {
        SpentStays(table[..], typ, lens, root, at, size, drop, mark, used, c, len, max, c', len');
        StaysCurrent(table[..], lens, typ, root, at, size, drop, mark, used, c, len, max, c', len');
      }
      len, c := len', c';
    }
  }

  lemma StartBuilding(table: seq<Code>, lens: seq<nat>, typ: CodeType, count: seq<nat>, root: nat, min: nat, max: nat)
    requires Counted(count, lens, |lens|) && |lens| <= MostSymbols(typ) && Pow2(root) <= |table|
    requires 1 <= min <= root <= max && Longest(lens, max) && Count(lens, min) > 0
    requires forall l :: 0 < l < min ==> Count(lens, l) == 0
    requires forall l :: 0 <= l <= MAXBITS ==> End(lens, l) <= Pow2(l)
    ensures Building(table, lens, typ, root, 0, root, 0, -1, Pow2(root), 0, min, max) && Left(count, lens, 0, min)
    ensures Rev(0, min) == 0 && Place(lens, 0, min) == 0
  {
    hide Pow2;
    NothingBelow(lens, min);
    RevZero(min);
    forall s ensures !Earlier(lens, s, 0, min) {
      if 0 <= s < |lens| && 0 < lens[s] < min { CountedSymbol(lens, s); }
    }
  }

  lemma {:induction false} NothingBelow(lens: seq<nat>, min: nat)
    requires min >= 1 && forall l :: 0 < l < min ==> Count(lens, l) == 0
    ensures FirstCode(lens, min) == 0 && Below(lens, min) == Occ(lens, 0, |lens|, 0)
  {
    if min > 1 {
      assert Count(lens, min - 1) == 0;
      NothingBelow(lens, min - 1);
    } else {
      FirstOne(lens);
      assert Below(lens, 0) == 0;
    }
  }

  lemma {:induction false} RevZero(n: nat)
    ensures Rev(0, n) == 0
  {
    if n > 0 { RevZero(n - 1); }
  }

  lemma DropIs(table: seq<Code>, lens: seq<nat>, root: nat, next: nat, curr: nat, drop: nat, low: int, c: nat, len: nat, max: nat)
    requires Current(table, lens, root, next, curr, drop, low, c, len, max)
    ensures Current(table, lens, root, next, curr, if low < 0 then 0 else root, low, c, len, max)
  {
    hide FirstCode, Pow2, SubRoom, Rev, Lo, Hi;
  }

  lemma MarkIs(table: seq<Code>, lens: seq<nat>, root: nat, next: nat, curr: nat, drop: nat, low: int, c: nat, len: nat, max: nat)
    requires Current(table, lens, root, next, curr, drop, low, c, len, max)
    ensures (low < 0 && len <= root) || (root < len && low == Lo(Rev(c, len), root))
  {
    hide FirstCode, Pow2, SubRoom, Rev, Lo, Hi;
  }

  lemma WorkPlace(work: seq<nat>, lens: seq<nat>, c: nat, len: nat, max: nat)
    requires Sorted(work, lens, |lens|) && Going(lens, c, len, max)
    ensures 0 <= Place(lens, c, len) < |lens|
  {
    hide FirstCode, Pow2, Below;
    var s := SymbolAt(work, lens, c, len, max);
    SortedRange(lens, s);
  }

  /** The end of the main loop: the entry of what no code begins with, if there is such. */
  method Finish(typ: CodeType, lens: seq<nat>, table: array<Code>, root: nat, huff: nat, max: nat, ghost next: nat, ghost curr: nat,
                ghost low: int, ghost c: nat)
    requires Result(table[..], lens, typ, root, next, curr, low, c, max, huff) && LengthsOk(lens) && Longest(lens, max)
    requires 1 <= root <= max && (End(lens, max) == Pow2(max) || (max == 1 && End(lens, 1) == 1))
    modifies table
    ensures Decodes(table[..], root, typ, lens)
  {
    hide FirstCode, Built, Decodes, CodeOf, End;
    if End(lens, max) == Pow2(max) {
      LastHuff(c - 1, max);
      assert huff == 0;
      CompleteDecodes(table[..], lens, typ, root, next, curr, low, c, max);
    } else {
      OneBitHuff();
      assert huff == 1 && low == -1;
      TwoEntries(table[..], lens, typ, next, curr, low, c);
    }
    if huff != 0 {
      ghost var t := table[..];
      table[huff] := Code(64, 1, 0);
      assert table[..] == t[1 := Code(64, 1, 0)];
      SingleDecodes(t, table[..], lens, typ);
    }
  }

  lemma LastHuff(c: nat, n: nat)
    requires c + 1 == Pow2(n)
    ensures BackStep(Rev(c, n), n) == 0
  {
    hide Pow2, BackStep, Rev;
    BackStepIs(c, n);
  }

  lemma OneBitHuff()
    ensures BackStep(Rev(0, 1), 1) == 1
  {
    assert Pow2(0) == 1;
    assert Rev(0, 1) == 0;
  }

  lemma TwoEntries(table: seq<Code>, lens: seq<nat>, typ: CodeType, next: nat, curr: nat, low: int, c: nat)
    requires Built(table, lens, typ, 1, next, curr, low, c, 1)
    ensures |table| >= 2
  {
    hide SymbolDone;
    assert Pow2(1) == 2;
  }

  /** inflate_table: 0 and a table that decodes the canonical code of lens; -1 exactly when the lengths are not those of an
      acceptable code; 1 exactly when the table of such a code takes up more space than there is. */
  method InflateTable(typ: CodeType, lens: seq<nat>, table: array<Code>, bits: nat, work: array<nat>)
    returns (ret: int, used: nat, root: nat)
    requires LengthsOk(lens) && |lens| <= MostSymbols(typ) && work.Length >= |lens| && table as object != work
    requires typ == Codes ==> (forall s :: 0 <= s < |lens| ==> lens[s] <= bits) && bits >= 1 && table.Length >= Pow2(bits)
    requires (typ.Lens? ==> table.Length >= ENOUGH_LENS) && (typ.Dists? ==> table.Length >= ENOUGH_DISTS)
    modifies table, work
    ensures ret in {-1, 0, 1} && (ret == -1 <==> !Acceptable(typ, lens))
    ensures ret == 0 ==> Decodes(table[..], root, typ, lens) && used == Space(lens, root) <= table.Length
    ensures ret == 1 <==> Acceptable(typ, lens) && TooLarge(typ, Space(lens, RootBits(lens, bits)))
    ensures ret != -1 ==> root == RootBits(lens, bits)
  {
    hide FirstCode, Pow2, Below, Occ, End, Counted, Longest, Result, Decodes, Acceptable, LengthsOk, Sorted, Space, RootBits, Count;
    var count := new nat[MAXBITS + 1];
    CountLengths(count, lens);
    var max, min;
    max, min, root := Bounds(count, lens, bits);
    RoomForTwo(bits);
    RootBitsAre(lens, bits, min, max);
    if max == 0 {
      NoneSpace(lens);
      table[0] := Code(64, 1, 0);
      table[1] := Code(64, 1, 0);
      EmptyDecodes(table[..], lens, typ);
      NoneAcceptable(typ, lens);
      return 0, 2, 1;
    }
    Accepted(typ, lens, max);
    var left := CheckSet(count, lens);
    if left < 0 { return -1, 0, root; }
    if left > 0 && (typ.Codes? || max != 1) { return -1, 0, root; }
    SortSymbols(work, lens, count);
    RootIsMax(typ, lens, bits, max);
    var ok, huff;
    ghost var next, curr, low, c;
    ok, used, huff, next, curr, low, c := FillTables(typ, lens, table, count, work, root, min, max);
    if !ok { return 1, used, root; }
    FullOrSingle(lens, max, left);
    Finish(typ, lens, table, root, huff, max, next, curr, low, c);
    ret := 0;
  }

  /** Without codes the table has two entries. */
  lemma NoneSpace(lens: seq<nat>)
    requires LengthsOk(lens) && Longest(lens, 0)
    ensures Space(lens, 1) == 2
  {
    hide FirstCode, CodeOf, Hi;
    PowOne();
    forall s: nat, t: nat | 0 <= t < 2 ensures !LongUnder(lens, 1, t, s) {
      if LongUnder(lens, 1, t, s) { CountedSymbol(lens, s); }
    }
    SpaceSame(lens, 1, 0, 2);
  }

  lemma RoomForTwo(bits: nat)
    ensures bits >= 1 ==> Pow2(bits) >= 2
  {
  }

  lemma NoneAcceptable(typ: CodeType, lens: seq<nat>)
    requires Kraft(lens, MAXBITS) == 0
    ensures Acceptable(typ, lens)
  {
  }

  lemma RootIsMax(typ: CodeType, lens: seq<nat>, bits: nat, max: nat)
    requires Longest(lens, max) && max > 0 && (typ == Codes ==> forall s :: 0 <= s < |lens| ==> lens[s] <= bits)
    ensures typ == Codes ==> bits >= max && Pow2(bits) >= Pow2(max)
  {
    hide FirstCode, Pow2;
    if typ == Codes {
      var s := CodeSymbol(lens, max, FirstCode(lens, max));
      Pow2Mono(max, bits);
    }
  }

  lemma FullOrSingle(lens: seq<nat>, max: nat, left: int)
    requires LengthsOk(lens) && Longest(lens, max) && max > 0 && left >= 0 && left == Pow2(MAXBITS) - End(lens, MAXBITS)
    requires left == 0 || max == 1
    ensures End(lens, max) == Pow2(max) || (max == 1 && End(lens, 1) == 1)
  {
    hide FirstCode, Pow2, Occ, LengthsOk;
    EndAtMax(lens, max, MAXBITS);
    if left == 0 {
      Pow2Add(max, MAXBITS - max);
      SameTimes(End(lens, max), Pow2(max), Pow2(MAXBITS - max));
    } else {
      OneBitSets(lens);
    }
  }

  lemma SameTimes(a: nat, b: nat, p: nat)
    requires a * p == b * p && p > 0
    ensures a == b
  {
    if a < b { MoreTimes(b, a, p); } else if b < a { MoreTimes(a, b, p); }
  }
}
