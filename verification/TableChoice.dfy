/** sendMTFValues, first half: four rounds of picking the cheapest table for each group of fifty symbols and fitting
    the tables to the groups that picked them. */
module TableChoice {
  import opened Bits
  import opened BlockFormat
  import opened Permutations
  import C = HuffmanCodes
  import F = HuffmanForest
  import L = HuffmanLengths

  const ITERATIONS := 4
  const SHORT_LIMIT := 17
  const MAX_MTF := 900_001

  /** Bits taken by symbols lo..hi-1 in one table. */
  function Cost(len: seq<int>, syms: seq<int>, lo: nat, hi: nat): int
    requires lo <= hi <= |syms|
    decreases hi
  {
    if lo == hi then 0
    else Cost(len, syms, lo, hi - 1) + (if 0 <= syms[hi - 1] < |len| then len[syms[hi - 1]] else 0)
  }

  lemma {:induction false} CostBound(len: seq<int>, syms: seq<int>, lo: nat, hi: nat)
    requires lo <= hi <= |syms| && C.LensIn(len, 0, C.LONGEST_CODE)
    ensures 0 <= Cost(len, syms, lo, hi) <= C.LONGEST_CODE * (hi - lo)
    decreases hi
  {
    if lo < hi { CostBound(len, syms, lo, hi - 1); }
  }

  ghost predicate Sized(tables: seq<seq<int>>, alphaSize: nat)
  {
    forall t :: 0 <= t < |tables| ==> |tables[t]| == alphaSize && C.LensIn(tables[t], 0, C.LONGEST_CODE)
  }

  ghost predicate InAlphabet(syms: seq<int>, alphaSize: nat)
  {
    forall i :: 0 <= i < |syms| ==> 0 <= syms[i] < alphaSize
  }

  /** One entry of len_pack. */
  function Pack(hi: nat, lo: nat): (r: nat)
    requires lo < 0x1_0000
    ensures r == hi * 0x1_0000 + lo
  {
    assert Pow2(16) == 0x1_0000 by { Pow2Add(8, 8); }
    OrDisjoint(hi, lo, 16);
    Or(hi * 0x1_0000, lo)
  }

  /** The fast track: two costs of a full group in one 32-bit sum. */
  method PairCost(len0: seq<int>, len1: seq<int>, syms: seq<int>, gs: nat) returns (c0: int, c1: int)
    requires gs + G_SIZE <= |syms| && |len0| == |len1| && InAlphabet(syms, |len0|)
    requires C.LensIn(len0, 0, C.LONGEST_CODE) && C.LensIn(len1, 0, C.LONGEST_CODE)
    ensures c0 == Cost(len0, syms, gs, gs + G_SIZE) && c1 == Cost(len1, syms, gs, gs + G_SIZE)
  {
    var cost01 := 0;
    var nn := 0;
    while nn < G_SIZE
      invariant 0 <= nn <= G_SIZE
      invariant cost01 == Cost(len1, syms, gs, gs + nn) * 0x1_0000 + Cost(len0, syms, gs, gs + nn)
    {
      var icv := syms[gs + nn];
      cost01 := cost01 + Pack(len1[icv], len0[icv]);
      nn := nn + 1;
    }
    CostBound(len0, syms, gs, gs + G_SIZE);
    CostBound(len1, syms, gs, gs + G_SIZE);
    assert cost01 < 0x1_0000_0000;
    c0, c1 := cost01 % 0x1_0000, cost01 / 0x1_0000;
  }

  /** The cost of one group in one table, entry by entry. */
  method SlowCost(len: seq<int>, syms: seq<int>, gs: nat, ge: nat) returns (c: int)
    requires gs <= ge < |syms| && InAlphabet(syms, |len|)
    ensures c == Cost(len, syms, gs, ge + 1)
  {
    c := 0;
    var i := gs;
    while i <= ge
      invariant gs <= i <= ge + 1 && c == Cost(len, syms, gs, i)
    {
      c := c + len[syms[i]];
      i := i + 1;
    }
  }

  method GroupCosts(tables: seq<seq<int>>, syms: seq<int>, gs: nat, ge: nat) returns (cost: seq<int>)
    requires 2 <= |tables| <= N_GROUPS && gs <= ge < |syms| && ge - gs < G_SIZE
    requires Sized(tables, |tables[0]|) && InAlphabet(syms, |tables[0]|)
    ensures |cost| == |tables| && forall t :: 0 <= t < |tables| ==> cost[t] == Cost(tables[t], syms, gs, ge + 1)
  {
    hide Cost;
    if |tables| == 6 && 50 == ge - gs + 1 {
      var c0, c1 := PairCost(tables[0], tables[1], syms, gs);
      var c2, c3 := PairCost(tables[2], tables[3], syms, gs);
      var c4, c5 := PairCost(tables[4], tables[5], syms, gs);
      cost := [c0, c1, c2, c3, c4, c5];
    } else {
      cost := [];
      var t := 0;
      while t < |tables|
        invariant 0 <= t <= |tables| && |cost| == t
        invariant forall u :: 0 <= u < t ==> cost[u] == Cost(tables[u], syms, gs, ge + 1)
      {
        var c := SlowCost(tables[t], syms, gs, ge);
        cost := cost + [c];
        t := t + 1;
      }
    }
  }

  /** Table bt is the first of the cheapest for symbols gs..end-1. */
  ghost predicate Cheapest(tables: seq<seq<int>>, syms: seq<int>, gs: nat, end: nat, bt: int)
  {
    && gs <= end <= |syms| && 0 <= bt < |tables|
    && (forall t :: 0 <= t < |tables| ==> Cost(tables[bt], syms, gs, end) <= Cost(tables[t], syms, gs, end))
    && (forall t :: 0 <= t < bt ==> Cost(tables[bt], syms, gs, end) < Cost(tables[t], syms, gs, end))
  }

  method PickTable(tables: seq<seq<int>>, syms: seq<int>, gs: nat, ge: nat) returns (bt: int)
    requires 2 <= |tables| <= N_GROUPS && gs <= ge < |syms| && ge - gs < G_SIZE
    requires Sized(tables, |tables[0]|) && InAlphabet(syms, |tables[0]|)
    ensures Cheapest(tables, syms, gs, ge + 1, bt)
  {
    hide Cost;
    var cost := GroupCosts(tables, syms, gs, ge);
    CostBound(tables[0], syms, gs, ge + 1);
    var bc := 999999999;
    bt := -1;
    var t := 0;
    while t < |tables|
      invariant 0 <= t <= |tables| && -1 <= bt < t && (bt == -1 ==> t == 0 && bc == 999999999)
      invariant bt >= 0 ==> bc == cost[bt]
      invariant forall u :: 0 <= u < t ==> bc <= cost[u]
      invariant forall u :: 0 <= u < bt ==> bc < cost[u]
    {
      if cost[t] < bc { bc, bt := cost[t], t; }
      t := t + 1;
    }
  }

  ghost predicate Frequencies(rfreq: seq<seq<int>>, alphaSize: nat, total: nat)
  {
    forall t :: 0 <= t < |rfreq| ==> Frequency(rfreq[t], alphaSize, total)
  }

  ghost predicate Frequency(row: seq<int>, alphaSize: nat, total: nat)
  {
    |row| == alphaSize && (forall v :: 0 <= v < alphaSize ==> row[v] >= 0) && F.Sum(row, alphaSize) <= total
  }

  method CountGroup(row0: seq<int>, alphaSize: nat, syms: seq<int>, gs: nat, ge: nat) returns (row: seq<int>)
    requires gs <= ge < |syms| && InAlphabet(syms, alphaSize) && Frequency(row0, alphaSize, gs)
    ensures Frequency(row, alphaSize, ge + 1)
    ensures forall v :: 0 <= v < alphaSize ==> row[v] == row0[v] + Occ(syms, gs, ge + 1, v)
  {
    row := row0;
    var i := gs;
    while i <= ge
      invariant gs <= i <= ge + 1 && Frequency(row, alphaSize, i)
      invariant forall v :: 0 <= v < alphaSize ==> row[v] == row0[v] + Occ(syms, gs, i, v)
    {
      F.SumUpdate(row, syms[i], row[syms[i]] + 1, alphaSize);
      row := row[syms[i] := row[syms[i]] + 1];
      i := i + 1;
    }
  }

  function Zero(n: nat): (r: seq<int>)
    ensures |r| == n && forall i :: 0 <= i < n ==> r[i] == 0
  {
    seq(n, i => 0)
  }

  lemma {:induction false} SumZero(n: nat, k: nat)
    requires k <= n
    ensures F.Sum(Zero(n), k) == 0
  {
    if k > 0 { SumZero(n, k - 1); }
  }

  /** How many groups n symbols make. */
  function Groups(n: nat): nat
  {
    (n + G_SIZE - 1) / G_SIZE
  }

  /** The end of group g. */
  function GroupEnd(n: nat, g: nat): nat
  {
    if G_SIZE * (g + 1) < n then G_SIZE * (g + 1) else n
  }

  /** Selectors 0..k-1 each pick the cheapest table for their group. */
  ghost predicate BestChoice(tables: seq<seq<int>>, syms: seq<int>, selector: seq<int>)
  {
    forall g :: 0 <= g < |selector| ==> Cheapest(tables, syms, G_SIZE * g, GroupEnd(|syms|, g), selector[g])
  }

  /** How often v occurs among the first k symbols, in groups that picked table t. */
  function UsesOf(syms: seq<int>, selector: seq<int>, t: int, v: int, k: nat): (n: nat)
    requires k <= |syms|
  {
    if k == 0 then 0
    else
      UsesOf(syms, selector, t, v, k - 1)
      + (if syms[k - 1] == v && (k - 1) / G_SIZE < |selector| && selector[(k - 1) / G_SIZE] == t then 1 else 0)
  }

  /** How often the groups that picked table t use each symbol. */
  function Uses(syms: seq<int>, selector: seq<int>, t: int, alphaSize: nat, k: nat): (row: seq<int>)
    requires k <= |syms|
    ensures |row| == alphaSize && forall v :: 0 <= v < alphaSize ==> row[v] == UsesOf(syms, selector, t, v, k)
  {
    seq(alphaSize, v => UsesOf(syms, selector, t, v, k))
  }

  /** One more group. */
  lemma {:induction false} UsesMore(syms: seq<int>, selector: seq<int>, bt: int, t: int, v: int, gs: nat, k: nat)
    requires gs <= k <= |syms| && gs == G_SIZE * |selector| && k <= gs + G_SIZE
    ensures UsesOf(syms, selector + [bt], t, v, k) == UsesOf(syms, selector, t, v, gs) + if t == bt then Occ(syms, gs, k, v) else 0
    decreases k
  {
    if k > gs {
      UsesMore(syms, selector, bt, t, v, gs, k - 1);
      assert (k - 1) / G_SIZE == |selector|;
    } else {
      UsesSame(syms, selector, selector + [bt], t, v, k);
    }
  }

  lemma {:induction false} UsesSame(syms: seq<int>, selector: seq<int>, more: seq<int>, t: int, v: int, k: nat)
    requires k <= |syms| && k <= G_SIZE * |selector| && selector <= more
    ensures UsesOf(syms, more, t, v, k) == UsesOf(syms, selector, t, v, k)
  {
    if k > 0 { UsesSame(syms, selector, more, t, v, k - 1); }
  }

  /** Row t counts what the groups that picked table t use. */
  ghost predicate CountsUses(rfreq: seq<seq<int>>, syms: seq<int>, selector: seq<int>, alphaSize: nat, k: nat)
  {
    k <= |syms| && forall t :: 0 <= t < |rfreq| ==> rfreq[t] == Uses(syms, selector, t, alphaSize, k)
  }

  lemma NoUses(n: nat, syms: seq<int>, alphaSize: nat)
    ensures CountsUses(seq(n, t => Zero(alphaSize)), syms, [], alphaSize, 0)
  {
    forall t | 0 <= t < n ensures Zero(alphaSize) == Uses(syms, [], t, alphaSize, 0) {}
  }

  lemma GroupCounted(rfreq: seq<seq<int>>, row: seq<int>, syms: seq<int>, selector: seq<int>, bt: int, alphaSize: nat, gs: nat, k: nat)
    requires CountsUses(rfreq, syms, selector, alphaSize, gs) && gs == G_SIZE * |selector| && gs <= k <= gs + G_SIZE && k <= |syms|
    requires 0 <= bt < |rfreq| && |row| == alphaSize == |rfreq[bt]|
    requires forall v :: 0 <= v < alphaSize ==> row[v] == rfreq[bt][v] + Occ(syms, gs, k, v)
    ensures CountsUses(rfreq[bt := row], syms, selector + [bt], alphaSize, k)
  {
    hide Occ, UsesOf;
    var more := rfreq[bt := row];
    forall t | 0 <= t < |more| ensures more[t] == Uses(syms, selector + [bt], t, alphaSize, k) {
      assert rfreq[t] == Uses(syms, selector, t, alphaSize, gs);
      forall v | 0 <= v < alphaSize ensures more[t][v] == UsesOf(syms, selector + [bt], t, v, k) {
        UsesMore(syms, selector, bt, t, v, gs, k);
      }
    }
  }

  /** One round: the selectors, and how often each table's groups use each symbol. */
  method ChooseSelectors(tables: seq<seq<int>>, alphaSize: nat, syms: seq<int>)
    returns (selector: seq<int>, rfreq: seq<seq<int>>)
    requires 2 <= |tables| <= N_GROUPS && 0 < alphaSize && Sized(tables, alphaSize) && InAlphabet(syms, alphaSize)
    ensures |selector| == Groups(|syms|) && BestChoice(tables, syms, selector)
    ensures |rfreq| == |tables| && Frequencies(rfreq, alphaSize, |syms|) && CountsUses(rfreq, syms, selector, alphaSize, |syms|)
  {
    hide Cost, CountsUses, Cheapest;
    rfreq := seq(|tables|, t => Zero(alphaSize));
    SumZero(alphaSize, alphaSize);
    NoUses(|tables|, syms, alphaSize);
    selector := [];
    var gs := 0;
    while gs < |syms|
      invariant 0 <= gs <= |syms| && |rfreq| == |tables| && Frequencies(rfreq, alphaSize, gs)
      invariant gs == G_SIZE * |selector| || (gs == |syms| && |selector| == Groups(|syms|))
      invariant BestChoice(tables, syms, selector) && CountsUses(rfreq, syms, selector, alphaSize, gs)
    {
      var ge := gs + G_SIZE - 1;
      if ge >= |syms| { ge := |syms| - 1; }
      assert |tables[0]| == alphaSize;
      var bt := PickTable(tables, syms, gs, ge);
      CheapestInRange(tables, syms, gs, ge + 1, bt);
      assert ge + 1 == GroupEnd(|syms|, |selector|);
      assert Frequency(rfreq[bt], alphaSize, gs);
      var row := CountGroup(rfreq[bt], alphaSize, syms, gs, ge);
      GroupCounted(rfreq, row, syms, selector, bt, alphaSize, gs, ge + 1);
      selector := selector + [bt];
      ghost var was := rfreq;
      rfreq := rfreq[bt := row];
      forall t | 0 <= t < |rfreq| ensures Frequency(rfreq[t], alphaSize, ge + 1) {
        assert Frequency(was[t], alphaSize, gs);
      }
      gs := ge + 1;
    }
  }

  lemma CheapestInRange(tables: seq<seq<int>>, syms: seq<int>, gs: nat, end: nat, bt: int)
    requires Cheapest(tables, syms, gs, end, bt)
    ensures 0 <= bt < |tables|
  {
  }

  // ----- fitting the tables

  /** What BZ2_hbMakeCodeLengths promises of a table. */
  ghost predicate Fitted(len: seq<int>, alphaSize: nat)
  {
    && |len| == alphaSize && C.LensIn(len, 1, SHORT_LIMIT)
    && F.Kraft(len, SHORT_LIMIT, alphaSize) == Pow2(SHORT_LIMIT)
  }

  ghost predicate AllFitted(tables: seq<seq<int>>, alphaSize: nat)
  {
    forall t :: 0 <= t < |tables| ==> Fitted(tables[t], alphaSize)
  }

  lemma {:induction false} SumOfCounts(row: seq<int>, k: nat)
    requires k <= |row| && forall v :: 0 <= v < |row| ==> row[v] >= 0
    ensures F.Sum(L.Counts(row, |row|), k) <= F.Sum(row, k) + k
  {
    if k > 0 { SumOfCounts(row, k - 1); }
  }

  /** The best lengths of at most 17 bits for these counts, as far as the code goes in looking for them. */
  ghost predicate BestFor(row: seq<int>, len: seq<int>, alphaSize: nat)
  {
    |row| == alphaSize && L.BestInTime(L.Counts(row, alphaSize), len, SHORT_LIMIT)
  }

  method FitTable(row: seq<int>, alphaSize: nat) returns (len: seq<int>)
    requires 2 <= alphaSize <= C.MAX_ALPHA_SIZE && Frequency(row, alphaSize, MAX_MTF)
    ensures Fitted(len, alphaSize) && BestFor(row, len, alphaSize)
  {
    hide L.BestInTime;
    var a := new int[C.MAX_ALPHA_SIZE](_ => 0);
    SumOfCounts(row, alphaSize);
    L.MakeCodeLengths(a, row, alphaSize, SHORT_LIMIT);
    len := a[..alphaSize];
  }

  method FitTables(rfreq: seq<seq<int>>, alphaSize: nat) returns (tables: seq<seq<int>>)
    requires 2 <= alphaSize <= C.MAX_ALPHA_SIZE && Frequencies(rfreq, alphaSize, MAX_MTF)
    ensures |tables| == |rfreq| && AllFitted(tables, alphaSize)
    ensures forall t :: 0 <= t < |tables| ==> BestFor(rfreq[t], tables[t], alphaSize)
  {
    hide Fitted, Frequency, BestFor;
    tables := [];
    var t := 0;
    while t < |rfreq|
      invariant 0 <= t <= |rfreq| && |tables| == t && AllFitted(tables, alphaSize)
      invariant forall u :: 0 <= u < t ==> BestFor(rfreq[u], tables[u], alphaSize)
    {
      assert Frequency(rfreq[t], alphaSize, MAX_MTF);
      var len := FitTable(rfreq[t], alphaSize);
      tables := tables + [len];
      t := t + 1;
    }
  }

  lemma FittedSized(tables: seq<seq<int>>, alphaSize: nat)
    requires AllFitted(tables, alphaSize)
    ensures Sized(tables, alphaSize)
  {
    forall t | 0 <= t < |tables| ensures |tables[t]| == alphaSize && C.LensIn(tables[t], 0, C.LONGEST_CODE) {
      assert Fitted(tables[t], alphaSize);
    }
  }

  lemma Looser(rfreq: seq<seq<int>>, alphaSize: nat, n: nat, m: nat)
    requires Frequencies(rfreq, alphaSize, n) && n <= m
    ensures Frequencies(rfreq, alphaSize, m)
  {
    forall t | 0 <= t < |rfreq| ensures Frequency(rfreq[t], alphaSize, m) {
      assert Frequency(rfreq[t], alphaSize, n);
    }
  }

  // ----- the first guess

  const LESSER_ICOST := 0
  const GREATER_ICOST := 15

  function Tally(syms: seq<int>, alphaSize: nat): (f: seq<int>)
    ensures |f| == alphaSize && forall v :: 0 <= v < alphaSize ==> f[v] == Occ(syms, 0, |syms|, v)
  {
    seq(alphaSize, v => Occ(syms, 0, |syms|, v))
  }

  /** How often each symbol occurs. */
  method CountSymbols(syms: seq<int>, alphaSize: nat) returns (mtfFreq: seq<int>)
    requires InAlphabet(syms, alphaSize)
    ensures |mtfFreq| == alphaSize && (forall v :: 0 <= v < alphaSize ==> mtfFreq[v] >= 0)
    ensures F.Sum(mtfFreq, alphaSize) == |syms| && mtfFreq == Tally(syms, alphaSize)
  {
    mtfFreq := Zero(alphaSize);
    SumZero(alphaSize, alphaSize);
    var i := 0;
    while i < |syms|
      invariant 0 <= i <= |syms| && |mtfFreq| == alphaSize && (forall v :: 0 <= v < alphaSize ==> mtfFreq[v] >= 0)
      invariant F.Sum(mtfFreq, alphaSize) == i && forall v :: 0 <= v < alphaSize ==> mtfFreq[v] == Occ(syms, 0, i, v)
    {
      F.SumUpdate(mtfFreq, syms[i], mtfFreq[syms[i]] + 1, alphaSize);
      mtfFreq := mtfFreq[syms[i] := mtfFreq[syms[i]] + 1];
      i := i + 1;
    }
  }

  lemma {:induction false} SumGrows(f: seq<int>, i: nat, j: nat)
    requires i <= j <= |f| && forall v :: 0 <= v < |f| ==> f[v] >= 0
    ensures F.Sum(f, i) <= F.Sum(f, j)
    decreases j
  {
    if i < j { SumGrows(f, i, j - 1); }
  }

  predicate FallsShort(f: seq<int>, gs: nat, tFreq: int, e: int)
    requires gs <= e + 1 <= |f|
  {
    F.Sum(f, e + 1) - F.Sum(f, gs) < tFreq
  }

  /** The first symbol from ge on up to which those from gs on make up tFreq occurrences, or else the last symbol. */
  function Reach(f: seq<int>, gs: nat, tFreq: int, ge: int): (r: int)
    requires gs - 1 <= ge < |f|
    ensures ge <= r < |f| && forall e :: ge <= e < r ==> FallsShort(f, gs, tFreq, e)
    ensures r < |f| - 1 ==> F.Sum(f, r + 1) - F.Sum(f, gs) >= tFreq
    decreases |f| - ge
  {
    if F.Sum(f, ge + 1) - F.Sum(f, gs) < tFreq && ge < |f| - 1 then Reach(f, gs, tFreq, ge + 1) else ge
  }

  /** The last symbol of a stretch: one less if it is to be shorter and has more than one symbol. */
  function StretchEnd(f: seq<int>, gs: nat, tFreq: int, shorten: bool): (r: int)
    requires gs <= |f| && |f| > 0
    ensures gs - 1 <= r < |f|
  {
    var ge := Reach(f, gs, tFreq, gs - 1);
    if ge > gs && shorten then ge - 1 else ge
  }

  /** A stretch of symbols from gs on that makes up about tFreq occurrences. */
  method Stretch(mtfFreq: seq<int>, gs: nat, tFreq: int, shorten: bool) returns (ge: int, aFreq: int)
    requires gs <= |mtfFreq| && |mtfFreq| > 0
    ensures gs - 1 <= ge < |mtfFreq| && aFreq == F.Sum(mtfFreq, ge + 1) - F.Sum(mtfFreq, gs)
    ensures ge == StretchEnd(mtfFreq, gs, tFreq, shorten)
  {
    ge, aFreq := gs - 1, 0;
    while aFreq < tFreq && ge < |mtfFreq| - 1
      invariant gs - 1 <= ge < |mtfFreq| && aFreq == F.Sum(mtfFreq, ge + 1) - F.Sum(mtfFreq, gs)
      invariant Reach(mtfFreq, gs, tFreq, ge) == Reach(mtfFreq, gs, tFreq, gs - 1)
      decreases |mtfFreq| - ge
    {
      ge := ge + 1;
      aFreq := aFreq + mtfFreq[ge];
    }
    if ge > gs && shorten {
      aFreq := aFreq - mtfFreq[ge];
      ge := ge - 1;
    }
  }

  /** A table that favours symbols gs to ge. */
  function Favour(n: nat, gs: nat, ge: int): seq<int>
  {
    seq(n, v => if gs <= v <= ge then LESSER_ICOST else GREATER_ICOST)
  }

  /** The stretch of the table nPart - 1 of nGroups, which begins at gs: what is left is shared out evenly, and every other stretch
      but the first and the last is shortened. */
  function PartEnd(f: seq<int>, n: int, nGroups: nat, nPart: nat, gs: nat): (ge: int)
    requires gs <= |f| && |f| > 0 && nPart > 0
    ensures gs - 1 <= ge < |f|
  {
    StretchEnd(f, gs, (n - F.Sum(f, gs)) / nPart, nPart != nGroups && nPart != 1 && (nGroups - nPart) % 2 == 1)
  }

  /** The first nPart tables, which share the symbols from gs on. */
  function Guess(f: seq<int>, n: int, nGroups: nat, nPart: nat, gs: nat): (r: seq<seq<int>>)
    requires gs <= |f| && |f| > 0
    ensures |r| == nPart
    decreases nPart
  {
    if nPart == 0 then []
    else
      var ge := PartEnd(f, n, nGroups, nPart, gs);
      Guess(f, n, nGroups, nPart - 1, ge + 1) + [Favour(|f|, gs, ge)]
  }

  /** No symbol is favoured by two tables. */
  lemma {:induction false} GuessApart(f: seq<int>, n: int, nGroups: nat, nPart: nat, gs: nat, t: nat, u: nat, v: nat)
    requires gs <= |f| && t < u < nPart && v < |f|
    ensures var g := Guess(f, n, nGroups, nPart, gs);
            |g[t]| == |g[u]| == |f| && (g[t][v] == LESSER_ICOST ==> g[u][v] == GREATER_ICOST && v >= gs)
    decreases nPart
  {
    hide PartEnd;
    var ge := PartEnd(f, n, nGroups, nPart, gs);
    if u < nPart - 1 {
      GuessApart(f, n, nGroups, nPart - 1, ge + 1, t, u, v);
    } else {
      GuessFrom(f, n, nGroups, nPart - 1, ge + 1, t, v);
    }
  }

  /** Only symbols from gs on are favoured. */
  lemma {:induction false} GuessFrom(f: seq<int>, n: int, nGroups: nat, nPart: nat, gs: nat, t: nat, v: nat)
    requires gs <= |f| && t < nPart && v < |f|
    ensures var g := Guess(f, n, nGroups, nPart, gs); |g[t]| == |f| && (g[t][v] == LESSER_ICOST ==> v >= gs)
    decreases nPart
  {
    hide PartEnd;
    if t < nPart - 1 { GuessFrom(f, n, nGroups, nPart - 1, PartEnd(f, n, nGroups, nPart, gs) + 1, t, v); }
  }

  /** The first coding tables: the alphabet is cut into stretches of about equal weight, from the last table down, and
      each table favours its stretch. The weight left over is never negative. */
  method FirstGuess(mtfFreq: seq<int>, nMTF: nat, nGroups: nat) returns (tables: seq<seq<int>>)
    requires 2 <= nGroups <= N_GROUPS && |mtfFreq| > 0 && F.Sum(mtfFreq, |mtfFreq|) == nMTF
    requires forall v :: 0 <= v < |mtfFreq| ==> mtfFreq[v] >= 0
    ensures |tables| == nGroups && Sized(tables, |mtfFreq|) && tables == Guess(mtfFreq, nMTF, nGroups, nGroups, 0)
  {
    hide StretchEnd, Guess, Favour, Sized, F.Sum;
    tables := [];
    NoTables(mtfFreq, nMTF, nGroups);
    var nPart, remF, gs := nGroups, nMTF, 0;
    while nPart > 0
      invariant 0 <= nPart <= nGroups && |tables| == nGroups - nPart && 0 <= gs <= |mtfFreq|
      invariant remF == nMTF - F.Sum(mtfFreq, gs) && remF >= 0 && Sized(tables, |mtfFreq|)
      invariant Guess(mtfFreq, nMTF, nGroups, nPart, gs) + tables == Guess(mtfFreq, nMTF, nGroups, nGroups, 0)
      decreases nPart
    {
      var tFreq := remF / nPart;
      var ge, aFreq := Stretch(mtfFreq, gs, tFreq, nPart != nGroups && nPart != 1 && (nGroups - nPart) % 2 == 1);
      var len := seq(|mtfFreq|, v => if gs <= v <= ge then LESSER_ICOST else GREATER_ICOST);
      OneLess(mtfFreq, nMTF, nGroups, nPart, gs, tables);
      FavourSized(len, |mtfFreq|, gs, ge, tables);
      tables := [len] + tables;
      nPart := nPart - 1;
      gs := ge + 1;
      SumGrows(mtfFreq, gs, |mtfFreq|);
      remF := remF - aFreq;
    }
  }

  lemma NoTables(f: seq<int>, n: int, nGroups: nat)
    requires |f| > 0
    ensures Sized([], |f|) && Guess(f, n, nGroups, nGroups, 0) + [] == Guess(f, n, nGroups, nGroups, 0) && F.Sum(f, 0) == 0
    ensures Guess(f, n, nGroups, 0, |f|) == []
  {
  }

  lemma FavourLens(len: seq<int>, gs: nat, ge: int)
    requires forall v :: 0 <= v < |len| ==> len[v] == if gs <= v <= ge then LESSER_ICOST else GREATER_ICOST
    ensures C.LensIn(len, 0, C.LONGEST_CODE)
  {
  }

  lemma FavourSized(len: seq<int>, n: nat, gs: nat, ge: int, tables: seq<seq<int>>)
    requires |len| == n && Sized(tables, n)
    requires forall v :: 0 <= v < n ==> len[v] == if gs <= v <= ge then LESSER_ICOST else GREATER_ICOST
    ensures len == Favour(n, gs, ge) && Sized([len] + tables, n)
  {
    hide C.LensIn;
    FavourLens(len, gs, ge);
    forall t | 0 <= t < |[len] + tables| ensures |([len] + tables)[t]| == n && C.LensIn(([len] + tables)[t], 0, C.LONGEST_CODE) {
      if t > 0 { assert ([len] + tables)[t] == tables[t - 1]; }
    }
  }

  lemma OneLess(f: seq<int>, n: int, nGroups: nat, nPart: nat, gs: nat, tables: seq<seq<int>>)
    requires gs <= |f| && |f| > 0 && nPart > 0
    ensures var ge := PartEnd(f, n, nGroups, nPart, gs);
            Guess(f, n, nGroups, nPart, gs) + tables
            == Guess(f, n, nGroups, nPart - 1, ge + 1) + ([Favour(|f|, gs, ge)] + tables)
  {
    hide PartEnd, Favour;
  }

  /** How many of these numbers of symbols are reached. */
  function Reached(limits: seq<nat>, n: nat): (r: nat)
    ensures r <= |limits|
  {
    if limits == [] then 0 else Reached(limits[1..], n) + if n >= limits[0] then 1 else 0
  }

  const LIMITS: seq<nat> := [200, 600, 1200, 2400]

  /** How many tables so many symbols are worth: two, and one more for each limit reached. */
  method TableCount(nMTF: nat) returns (nGroups: nat)
    requires nMTF > 0
    ensures 2 <= nGroups <= N_GROUPS && nGroups == 2 + Reached(LIMITS, nMTF)
  {
    AllReached(nMTF);
    if nMTF < 200 { nGroups := 2; }
    else if nMTF < 600 { nGroups := 3; }
    else if nMTF < 1200 { nGroups := 4; }
    else if nMTF < 2400 { nGroups := 5; }
    else { nGroups := 6; }
  }

  lemma AllReached(n: nat)
    ensures Reached(LIMITS, n) == (if n >= 200 then 1 else 0) + (if n >= 600 then 1 else 0) + (if n >= 1200 then 1 else 0)
                                  + if n >= 2400 then 1 else 0
  {
    var l := LIMITS;
    assert Reached(l, n) == Reached(l[1..], n) + if n >= 200 then 1 else 0;
    assert Reached(l[1..], n) == Reached(l[1..][1..], n) + if n >= 600 then 1 else 0;
    assert Reached(l[1..][1..], n) == Reached(l[1..][1..][1..], n) + if n >= 1200 then 1 else 0;
    assert Reached(l[1..][1..][1..], n) == Reached(l[1..][1..][1..][1..], n) + if n >= 2400 then 1 else 0;
  }

  /** Each table is best for the symbols of the groups that picked it. */
  ghost predicate BestTables(tables: seq<seq<int>>, syms: seq<int>, selector: seq<int>, alphaSize: nat)
  {
    forall t :: 0 <= t < |tables| ==> BestFor(Uses(syms, selector, t, alphaSize, |syms|), tables[t], alphaSize)
  }

  lemma TablesBest(tables: seq<seq<int>>, rfreq: seq<seq<int>>, syms: seq<int>, selector: seq<int>, alphaSize: nat)
    requires |tables| == |rfreq| && CountsUses(rfreq, syms, selector, alphaSize, |syms|)
    requires forall t :: 0 <= t < |tables| ==> BestFor(rfreq[t], tables[t], alphaSize)
    ensures BestTables(tables, syms, selector, alphaSize)
  {
    hide BestFor;
    forall t | 0 <= t < |tables| ensures BestFor(Uses(syms, selector, t, alphaSize, |syms|), tables[t], alphaSize) {
      assert BestFor(rfreq[t], tables[t], alphaSize);
    }
  }

  datatype Round = Round(tables: seq<seq<int>>, selector: seq<int>)

  /** Every group picks the cheapest of the tables before, and then each table is fitted to the groups that picked it. */
  ghost predicate NextRound(before: Round, r: Round, syms: seq<int>, alphaSize: nat)
  {
    && |r.tables| == |before.tables| && |r.selector| == Groups(|syms|) && BestChoice(before.tables, syms, r.selector)
    && BestTables(r.tables, syms, r.selector, alphaSize)
  }

  ghost predicate Rounds(rounds: seq<Round>, guess: seq<seq<int>>, syms: seq<int>, alphaSize: nat)
  {
    && rounds != [] && rounds[0].tables == guess
    && forall i, j :: 0 <= i && j == i + 1 && j < |rounds| ==> NextRound(rounds[i], rounds[j], syms, alphaSize)
  }

  /** After n rounds from the first guess. */
  ghost predicate RoundsTo(guess: seq<seq<int>>, tables: seq<seq<int>>, selector: seq<int>, syms: seq<int>, alphaSize: nat, n: nat)
  {
    exists rounds ::
      Rounds(rounds, guess, syms, alphaSize) && |rounds| == n + 1 && rounds[n] == Round(tables, selector)
  }

  /** The tables and selectors that symbols are sent with: four rounds from the first guess. */
  ghost predicate ChosenFor(tables: seq<seq<int>>, selector: seq<int>, syms: seq<int>, alphaSize: nat)
  {
    && alphaSize > 0
    && var count := 2 + Reached(LIMITS, |syms|);
       RoundsTo(Guess(Tally(syms, alphaSize), |syms|, count, count, 0), tables, selector, syms, alphaSize, ITERATIONS)
  }

  lemma OneRound(guess: seq<seq<int>>, before: seq<seq<int>>, picked: seq<int>, tables: seq<seq<int>>, selector: seq<int>,
                 syms: seq<int>, alphaSize: nat, n: nat)
    requires RoundsTo(guess, before, picked, syms, alphaSize, n) && |before| == |tables| && BestChoice(before, syms, selector)
    requires |selector| == Groups(|syms|) && BestTables(tables, syms, selector, alphaSize)
    ensures RoundsTo(guess, tables, selector, syms, alphaSize, n + 1)
  {
    hide BestTables, BestChoice;
    var rounds :| Rounds(rounds, guess, syms, alphaSize) && |rounds| == n + 1 && rounds[n] == Round(before, picked);
    var more := rounds + [Round(tables, selector)];
    assert NextRound(rounds[n], more[n + 1], syms, alphaSize);
    assert Rounds(more, guess, syms, alphaSize);
  }

  /** All rounds, from any first guess: complete tables of at most 17 bits, and a selector for each group that picked
      the cheapest of the tables of the round before. Each table is the best for the groups that picked it. */
  method ChooseTables(guess: seq<seq<int>>, alphaSize: nat, syms: seq<int>)
    returns (tables: seq<seq<int>>, selector: seq<int>, ghost previous: seq<seq<int>>)
    requires 2 <= |guess| <= N_GROUPS && 2 <= alphaSize <= C.MAX_ALPHA_SIZE
    requires Sized(guess, alphaSize) && InAlphabet(syms, alphaSize) && |syms| <= MAX_MTF
    ensures |tables| == |guess| == |previous| && AllFitted(tables, alphaSize)
    ensures |selector| == Groups(|syms|) && BestChoice(previous, syms, selector)
    ensures BestTables(tables, syms, selector, alphaSize) && RoundsTo(guess, tables, selector, syms, alphaSize, ITERATIONS)
  {
    hide Fitted, Frequency, Cheapest, BestFor, CountsUses, BestTables, RoundsTo;
    NoRound(guess, syms, alphaSize);
    tables, selector, previous := guess, [], guess;
    var iter := 0;
    while iter < ITERATIONS
      invariant 0 <= iter <= ITERATIONS && |tables| == |guess| == |previous| && Sized(tables, alphaSize)
      invariant iter > 0 ==> AllFitted(tables, alphaSize)
      invariant iter > 0 ==> |selector| == Groups(|syms|) && BestChoice(previous, syms, selector)
      invariant iter > 0 ==> BestTables(tables, syms, selector, alphaSize)
      invariant RoundsTo(guess, tables, selector, syms, alphaSize, iter)
    {
      previous := tables;
      ghost var picked := selector;
      var rfreq;
      selector, rfreq := ChooseSelectors(tables, alphaSize, syms);
      Looser(rfreq, alphaSize, |syms|, MAX_MTF);
      tables := FitTables(rfreq, alphaSize);
      FittedSized(tables, alphaSize);
      TablesBest(tables, rfreq, syms, selector, alphaSize);
      OneRound(guess, previous, picked, tables, selector, syms, alphaSize, iter);
      iter := iter + 1;
    }
  }

  lemma NoRound(guess: seq<seq<int>>, syms: seq<int>, alphaSize: nat)
    ensures RoundsTo(guess, guess, [], syms, alphaSize, 0)
  {
    assert Rounds([Round(guess, [])], guess, syms, alphaSize);
  }

  /** Counted in finer units, the Kraft sum of short enough codes grows with the unit. */
  lemma {:induction false} KraftFiner(len: seq<int>, m: nat, j: nat, k: nat)
    requires k <= |len| && C.LensIn(len, 0, m)
    ensures F.Kraft(len, m + j, k) == F.Kraft(len, m, k) * Pow2(j)
  {
    if k > 0 {
      KraftFiner(len, m, j, k - 1);
      Pow2Add(m - len[k - 1], j);
      var x, y := F.Kraft(len, m, k - 1), Pow2(m - len[k - 1]);
      assert (x + y) * Pow2(j) == x * Pow2(j) + y * Pow2(j);
    }
  }

  /** Fitted tables are tables whose codes the decoder can read. */
  lemma FittedCoded(tables: seq<seq<int>>, alphaSize: nat)
    requires AllFitted(tables, alphaSize)
    ensures Coded(tables, alphaSize)
  {
    hide Pow2;
    forall t | 0 <= t < |tables|
      ensures |tables[t]| == alphaSize && C.LensIn(tables[t], 1, C.LONGEST_CODE) && CodesFit(tables[t])
    {
      assert Fitted(tables[t], alphaSize);
      KraftFiner(tables[t], SHORT_LIMIT, 3, alphaSize);
      Pow2Add(SHORT_LIMIT, 3);
    }
  }
}
