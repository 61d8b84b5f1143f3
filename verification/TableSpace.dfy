/** How many entries the two-level table of a canonical code takes up, and what its first level is indexed by. */
module TableSpace {
  import opened Bits
  import opened Permutations
  import opened CanonicalCode

  /** The code of s goes on after the root bits t. */
  predicate LongUnder(lens: seq<nat>, root: nat, t: nat, s: nat)
  {
    s < |lens| && lens[s] > root && Hi(CodeOf(lens, s), lens[s] - root) == t
  }

  /** The longest of the first k symbols' codes that go on after the root bits t; root when there are none. */
  function Deepest(lens: seq<nat>, root: nat, t: nat, k: nat): (d: nat)
    requires k <= |lens|
    ensures d >= root
  {
    if k == 0 then root
    else
      var d := Deepest(lens, root, t, k - 1);
      if LongUnder(lens, root, t, k - 1) && lens[k - 1] > d then lens[k - 1] else d
  }

  /** The sub-table after the root bits t: indexed by as many bits as its longest code has left. */
  function SubEntries(lens: seq<nat>, root: nat, t: nat): nat
  {
    var d := Deepest(lens, root, t, |lens|);
    if d > root then Pow2(d - root) else 0
  }

  /** The sub-tables after the root bits below n. */
  function SubSpace(lens: seq<nat>, root: nat, n: nat): nat
  {
    if n == 0 then 0 else SubSpace(lens, root, n - 1) + SubEntries(lens, root, n - 1)
  }

  /** The root table, and a sub-table for each start that longer codes share. */
  function Space(lens: seq<nat>, root: nat): nat
  {
    Pow2(root) + SubSpace(lens, root, Pow2(root))
  }

  // ----- the longest code under a start

  lemma {:induction false} DeepestCovers(lens: seq<nat>, root: nat, t: nat, k: nat, s: nat)
    requires s < k <= |lens| && LongUnder(lens, root, t, s)
    ensures Deepest(lens, root, t, k) >= lens[s]
  {
    hide LongUnder;
    if s < k - 1 { DeepestCovers(lens, root, t, k - 1, s); }
  }

  lemma {:induction false} DeepestAtMost(lens: seq<nat>, root: nat, t: nat, k: nat, d: nat)
    requires k <= |lens| && d >= root && forall s: nat :: LongUnder(lens, root, t, s) ==> lens[s] <= d
    ensures Deepest(lens, root, t, k) <= d
  {
    hide LongUnder;
    if k > 0 { DeepestAtMost(lens, root, t, k - 1, d); }
  }

  /** The longest code under t has d bits. */
  lemma DeepestIs(lens: seq<nat>, root: nat, t: nat, s: nat)
    requires LongUnder(lens, root, t, s) && forall u: nat :: LongUnder(lens, root, t, u) ==> lens[u] <= lens[s]
    ensures SubEntries(lens, root, t) == Pow2(lens[s] - root)
  {
    hide Pow2, CodeOf, Hi;
    DeepestCovers(lens, root, t, |lens|, s);
    DeepestAtMost(lens, root, t, |lens|, lens[s]);
  }

  lemma NoSub(lens: seq<nat>, root: nat, t: nat)
    requires forall s: nat :: !LongUnder(lens, root, t, s)
    ensures SubEntries(lens, root, t) == 0
  {
    hide LongUnder;
    DeepestAtMost(lens, root, t, |lens|, root);
  }

  lemma {:induction false} SpaceGrows(lens: seq<nat>, root: nat, m: nat, n: nat)
    requires m <= n
    ensures SubSpace(lens, root, m) <= SubSpace(lens, root, n)
  {
    hide SubEntries;
    if m < n { SpaceGrows(lens, root, m, n - 1); }
  }

  /** Starts no long code has take up nothing. */
  lemma {:induction false} SpaceSame(lens: seq<nat>, root: nat, m: nat, n: nat)
    requires m <= n && forall s: nat, t: nat :: m <= t < n ==> !LongUnder(lens, root, t, s)
    ensures SubSpace(lens, root, m) == SubSpace(lens, root, n)
  {
    hide SubEntries, LongUnder;
    if m < n {
      SpaceSame(lens, root, m, n - 1);
      NoSub(lens, root, n - 1);
    }
  }

  /** Later codes begin with later root bits. */
  lemma StartsRise(c: nat, l: nat, c': nat, l': nat, root: nat)
    requires root < l <= l' && c * Pow2(l' - l) <= c'
    ensures Hi(c, l - root) <= Hi(c', l' - root)
  {
    hide Pow2;
    var p, q := Pow2(l - root), Pow2(l' - l);
    Pow2Add(l - root, l' - l);
    var h := Hi(c, l - root);
    assert h * p <= c by { CommuteTimes(h, p); assert c == p * (c / p) + c % p; }
    MoreOrSame(h * p, c, q);
    assert h * (p * q) == (h * p) * q;
    DivAtLeast(c', h, p * q);
  }

  lemma MoreOrSame(a: nat, b: nat, p: nat)
    requires a <= b
    ensures a * p <= b * p
  {
  }

  /** The first code longer than root: no start before its own has long codes. */
  lemma FirstStart(lens: seq<nat>, root: nat, c: nat, len: nat, s: nat, t: nat)
    requires LongUnder(lens, root, t, s) && root < len <= lens[s] && c == FirstCode(lens, len) && c < End(lens, len)
    ensures Hi(c, len - root) <= t
  {
    hide Pow2, FirstCode, End;
    var l := lens[s];
    CodeRange(lens, s);
    if l == len {
      TimesOne(c);
    } else {
      EndGrows(lens, len, l);
      MoreOrSame(c, End(lens, len), Pow2(l - len));
    }
    StartsRise(c, len, CodeOf(lens, s), l, root);
  }

  /** The last code: no start after its own has long codes. */
  lemma LastStart(lens: seq<nat>, root: nat, c: nat, max: nat, s: nat, t: nat)
    requires LongUnder(lens, root, t, s) && lens[s] <= max && c + 1 == End(lens, max) && FirstCode(lens, max) <= c
    ensures t <= Hi(c, max - root)
  {
    hide Pow2, FirstCode, End;
    var l := lens[s];
    CodeRange(lens, s);
    if l == max {
      TimesOne(CodeOf(lens, s));
    } else {
      EndGrows(lens, l, max);
      MoreOrSame(CodeOf(lens, s), End(lens, l), Pow2(max - l));
    }
    StartsRise(CodeOf(lens, s), l, c, max, root);
  }

  // ----- the lengths in use

  function LongestLen(lens: seq<nat>): nat
  {
    if lens == [] then 0
    else
      var m := LongestLen(lens[1..]);
      if lens[0] > m then lens[0] else m
  }

  /** The least length but 0; 0 when there are no codes. */
  function ShortestLen(lens: seq<nat>): nat
  {
    if lens == [] then 0
    else
      var m := ShortestLen(lens[1..]);
      if lens[0] > 0 && (m == 0 || lens[0] < m) then lens[0] else m
  }

  lemma {:induction false} LongestIs(lens: seq<nat>, max: nat)
    requires forall s :: 0 <= s < |lens| ==> lens[s] <= max
    requires max > 0 ==> max in lens
    ensures LongestLen(lens) == max
  {
    LongestBound(lens, max);
    if max > 0 { LongestReached(lens, max); }
  }

  lemma {:induction false} LongestBound(lens: seq<nat>, max: nat)
    requires forall s :: 0 <= s < |lens| ==> lens[s] <= max
    ensures LongestLen(lens) <= max
  {
    if lens != [] { LongestBound(lens[1..], max); }
  }

  lemma {:induction false} LongestReached(lens: seq<nat>, l: nat)
    requires l in lens
    ensures LongestLen(lens) >= l
  {
    if lens[0] != l { LongestReached(lens[1..], l); }
  }

  lemma {:induction false} ShortestIs(lens: seq<nat>, min: nat)
    requires min > 0 && min in lens && forall s :: 0 <= s < |lens| && lens[s] > 0 ==> lens[s] >= min
    ensures ShortestLen(lens) == min
  {
    ShortestBound(lens, min);
    ShortestReached(lens, min);
  }

  lemma {:induction false} ShortestBound(lens: seq<nat>, min: nat)
    requires forall s :: 0 <= s < |lens| && lens[s] > 0 ==> lens[s] >= min
    ensures ShortestLen(lens) == 0 || ShortestLen(lens) >= min
  {
    if lens != [] { ShortestBound(lens[1..], min); }
  }

  lemma {:induction false} ShortestReached(lens: seq<nat>, l: nat)
    requires l in lens && l > 0
    ensures 0 < ShortestLen(lens) <= l
  {
    if lens[0] != l { ShortestReached(lens[1..], l); }
  }
}
