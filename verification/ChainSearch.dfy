/** Following the links of a hash chain: the inserted strings with the same hash, from the nearest on. */
module ChainSearch {
  import opened Lz77
  import opened HashChains
  import opened MatcherSteps

  /** The links from cur on that lie above limit, and at most chain of them: what a search looks at when it does not find what is
      good enough first. */
  function Visited(prev: seq<int>, cur: int, chain: nat, limit: nat): (r: seq<int>)
    decreases chain
  {
    if chain == 0 || cur < 0 || |prev| == 0 then []
    else
      var next := prev[cur % |prev|];
      [cur] + if next <= limit then [] else Visited(prev, next, chain - 1, limit)
  }

  /** A link, and the rest of them. */
  lemma VisitedFirst(prev: seq<int>, cur: nat, chain: nat, limit: nat, seen: seq<int>) returns (rest: seq<int>)
    requires chain >= 1 && |prev| > 0
    ensures var next := prev[cur % |prev|]; rest == if next <= limit || chain == 1 then [] else Visited(prev, next, chain - 1, limit)
    ensures Visited(prev, cur, chain, limit) == [cur] + rest
    ensures seen + Visited(prev, cur, chain, limit) == (seen + [cur]) + rest
  {
    var next := prev[cur % |prev|];
    rest := if next <= limit then [] else Visited(prev, next, chain - 1, limit);
    assert seen + ([cur] + rest) == (seen + [cur]) + rest;
  }

  /** Nothing is listed from q up to p. */
  ghost predicate Bare(data: seq<bv8>, base: nat, ins: set<int>, m: nat, h: int, q: int, p: int, lo: int)
  {
    forall x :: q <= x < p && x > lo ==> !Listed(data, base, ins, m, h, x)
  }

  lemma {:induction false} BelowSkips(data: seq<bv8>, base: nat, ins: set<int>, m: nat, h: int, p: int, q: int, lo: int, n: nat)
    requires q <= p && Bare(data, base, ins, m, h, q, p, lo)
    ensures Below(data, base, ins, m, h, p, lo, n) == Below(data, base, ins, m, h, q, lo, n)
    decreases p - q
  {
    hide Listed;
    if q < p {
      assert Bare(data, base, ins, m, h, q, p - 1, lo);
      if p - 1 > lo { assert !Listed(data, base, ins, m, h, p - 1); }
      BelowSkips(data, base, ins, m, h, p - 1, q, lo, n);
    }
  }

  lemma LatestBare(data: seq<bv8>, base: nat, ins: set<int>, v: int, h: int, str: int, below: int, w: nat, m: nat, lo: int)
    requires Latest(data, base, ins, v, h, str, below, w, m) && lo >= Limit(str, w)
    ensures Bare(data, base, ins, m, h, v + 1, below, lo)
  {
    hide HashAt, Limit;
    forall x | v + 1 <= x < below && x > lo ensures !Listed(data, base, ins, m, h, x) {
      if base + x in ins { assert NotAfter(data, base, base + x, v, h, str, below, w, m); }
    }
  }

  /** A string inserted at or above p makes no difference. */
  lemma {:induction false} BelowMore(data: seq<bv8>, base: nat, ins: set<int>, m: nat, h: int, p: int, lo: int, n: nat, a: int)
    requires a >= base + p
    ensures Below(data, base, ins + {a}, m, h, p, lo, n) == Below(data, base, ins, m, h, p, lo, n)
    decreases if p > lo then p - lo else 0
  {
    hide HashAt;
    if n > 0 && p - 1 > lo {
      BelowMore(data, base, ins, m, h, p - 1, lo, n, a);
      BelowMore(data, base, ins, m, h, p - 1, lo, n - 1, a);
    }
  }

  /** From a string in reach on, the links are to all inserted strings with its hash, the nearest first. */
  lemma {:induction false} VisitedAre(data: seq<bv8>, base: nat, ins: set<int>, head: seq<int>, prev: seq<int>, top: int, str: int,
                                      w: nat, m: nat, cur: int, chain: nat, limit: nat)
    requires Chains(data, base, ins, head, prev, top, str, w, m) && base + cur in ins && cur > Limit(str, w)
    requires chain >= 1 && limit >= Limit(str, w)
    ensures Visited(prev, cur, chain, limit)
            == [cur] + Below(data, base, ins, m, HashAt(data, base + cur, m), cur, limit, chain - 1)
    decreases chain
  {
    hide HashAt, HeadsOk, LinksOk, InsertedOk, Latest, Bare;
    var h := HashAt(data, base + cur, m);
    LinkFine(data, base, ins, head, prev, top, str, w, m, cur);
    var next := prev[cur % w];
    LatestBare(data, base, ins, next, h, str, cur, w, m, limit);
    if next <= limit {
      if limit < cur {
        BareFrom(data, base, ins, m, h, next + 1, limit + 1, cur, limit);
        BelowSkips(data, base, ins, m, h, cur, limit + 1, limit, chain - 1);
      }
    } else if chain > 1 {
      BelowSkips(data, base, ins, m, h, cur, next + 1, limit, chain - 1);
      VisitedAre(data, base, ins, head, prev, top, str, w, m, next, chain - 1, limit);
    }
  }

  lemma BareFrom(data: seq<bv8>, base: nat, ins: set<int>, m: nat, h: int, q: int, q': int, p: int, lo: int)
    requires Bare(data, base, ins, m, h, q, p, lo) && q <= q'
    ensures Bare(data, base, ins, m, h, q', p, lo)
  {
    hide Listed;
  }

  /** The first place: the head of the chain, if it is in reach. */
  lemma FirstPlace(data: seq<bv8>, base: nat, ins: set<int>, v: int, h: int, str: int, w: nat, m: nat)
    requires Fine(data, base, ins, v, h, str, str, w, m) && Latest(data, base, ins, v, h, str, 2 * w + 1, w, m) && str <= 2 * w
    ensures Below(data, base, ins, m, h, str, Limit(str, w), 1) == if v > Limit(str, w) then [v] else []
  {
    hide HashAt, Latest, Bare, Limit;
    var lo := Limit(str, w);
    LatestBare(data, base, ins, v, h, str, 2 * w + 1, w, m, lo);
    BareUpTo(data, base, ins, m, h, v + 1, 2 * w + 1, str, lo);
    if v > lo {
      BelowSkips(data, base, ins, m, h, str, v + 1, lo, 1);
      assert Below(data, base, ins, m, h, v, lo, 0) == [];
    } else if lo < str {
      BareFrom(data, base, ins, m, h, v + 1, lo + 1, str, lo);
      BelowSkips(data, base, ins, m, h, str, lo + 1, lo, 1);
    }
  }

  lemma BareUpTo(data: seq<bv8>, base: nat, ins: set<int>, m: nat, h: int, q: int, p: int, p': int, lo: int)
    requires Bare(data, base, ins, m, h, q, p, lo) && p' <= p
    ensures Bare(data, base, ins, m, h, q, p', lo)
  {
    hide Listed;
  }

  /** Once the string itself is inserted, following the links from the head finds the places that a search is to look at. */
  lemma PlacesVisited(p: Setting, s: Sight, head: seq<int>, prev: seq<int>, top: int, v: int, chain: nat)
    requires s.Ahead() >= MIN_MATCH && s.str <= 2 * p.w
    requires Fine(s.data, s.base, s.ins, v, HashAt(s.data, s.At(), p.m), s.str, s.str, p.w, p.m)
    requires Latest(s.data, s.base, s.ins, v, HashAt(s.data, s.At(), p.m), s.str, 2 * p.w + 1, p.w, p.m)
    requires Chains(s.data, s.base, s.ins + {s.At()}, head, prev, top, s.str, p.w, p.m)
    ensures Places(p, s, chain) == if v > Limit(s.str, p.w) then Visited(prev, v, chain, Nearest(s.str, p.w)) else []
  {
    hide HashAt, Latest, Chains, Below;
    var h := HashAt(s.data, s.At(), p.m);
    FirstPlace(s.data, s.base, s.ins, v, h, s.str, p.w, p.m);
    if v > Limit(s.str, p.w) && chain > 0 {
      VisitedAre(s.data, s.base, s.ins + {s.At()}, head, prev, top, s.str, p.w, p.m, v, chain, Nearest(s.str, p.w));
      BelowMore(s.data, s.base, s.ins, p.m, h, v, Nearest(s.str, p.w), chain - 1, s.At());
    }
  }

  // ----- comparing

  lemma {:induction false} CommonRepeats(data: seq<bv8>, a: nat, b: nat, most: nat)
    requires b < a && a + most <= |data|
    ensures var n := Common(data, a, b, most); Repeats(data, a, a - b, n) && (n < most ==> data[a + n] != data[b + n])
    decreases most
  {
    if most > 0 && data[a] == data[b] {
      CommonRepeats(data, a + 1, b + 1, most - 1);
      var n := Common(data, a, b, most);
      forall j | a <= j < a + n ensures data[j] == data[j - (a - b)] {
        if j > a { assert Repeats(data, a + 1, a - b, n - 1); }
      }
    }
  }

  /** As many bytes as repeat, up to most of them, are in common. */
  lemma {:induction false} CommonMost(data: seq<bv8>, a: nat, b: nat, most: nat, n: nat)
    requires b < a && n <= most && Repeats(data, a, a - b, n)
    ensures Common(data, a, b, most) >= n
    decreases n
  {
    if n > 0 {
      assert data[a] == data[a - (a - b)];
      CommonMost(data, a + 1, b + 1, most - 1, n - 1);
    }
  }

  // ----- what a search looks at, and what it finds

  /** Listed positions between lo and p, the nearest to p first. */
  ghost predicate Descends(data: seq<bv8>, base: nat, ins: set<int>, m: nat, h: int, p: int, lo: int, qs: seq<int>)
  {
    forall i :: 0 <= i < |qs| ==> InTurn(data, base, ins, m, h, p, lo, qs, i)
  }

  ghost predicate InTurn(data: seq<bv8>, base: nat, ins: set<int>, m: nat, h: int, p: int, lo: int, qs: seq<int>, i: int)
  {
    0 <= i < |qs| && lo < qs[i] < (if i == 0 then p else qs[i - 1]) && Listed(data, base, ins, m, h, qs[i])
  }

  /** Position x is one of qs, or further away than all of them, and there are n of them. */
  ghost predicate Seen(qs: seq<int>, n: nat, x: int)
  {
    x in qs || (|qs| == n && forall i :: 0 <= i < |qs| ==> x < qs[i])
  }

  lemma {:induction false} BelowDescends(data: seq<bv8>, base: nat, ins: set<int>, m: nat, h: int, p: int, lo: int, n: nat)
    ensures Descends(data, base, ins, m, h, p, lo, Below(data, base, ins, m, h, p, lo, n))
    decreases if p > lo then p - lo else 0
  {
    hide Listed;
    if n > 0 && p - 1 > lo {
      if Listed(data, base, ins, m, h, p - 1) {
        BelowDescends(data, base, ins, m, h, p - 1, lo, n - 1);
        DescendsFrom(data, base, ins, m, h, p, lo, p - 1, lo, Below(data, base, ins, m, h, p - 1, lo, n - 1));
      } else {
        BelowDescends(data, base, ins, m, h, p - 1, lo, n);
        DescendsUp(data, base, ins, m, h, p - 1, p, lo, Below(data, base, ins, m, h, p - 1, lo, n));
      }
    }
  }

  lemma DescendsUp(data: seq<bv8>, base: nat, ins: set<int>, m: nat, h: int, p: int, p': int, lo: int, qs: seq<int>)
    requires Descends(data, base, ins, m, h, p, lo, qs) && p <= p'
    ensures Descends(data, base, ins, m, h, p', lo, qs)
  {
    hide Listed;
    forall i | 0 <= i < |qs| ensures InTurn(data, base, ins, m, h, p', lo, qs, i) {
      assert InTurn(data, base, ins, m, h, p, lo, qs, i);
    }
  }

  lemma DescendsFrom(data: seq<bv8>, base: nat, ins: set<int>, m: nat, h: int, p: int, lo: int, q: int, lo': int, qs: seq<int>)
    requires lo < q < p && lo <= lo' && Listed(data, base, ins, m, h, q) && Descends(data, base, ins, m, h, q, lo', qs)
    ensures Descends(data, base, ins, m, h, p, lo, [q] + qs)
  {
    hide Listed;
    var all := [q] + qs;
    forall i | 0 <= i < |all| ensures InTurn(data, base, ins, m, h, p, lo, all, i) {
      if i > 0 { assert InTurn(data, base, ins, m, h, q, lo', qs, i - 1); }
    }
  }

  lemma {:induction false} BelowSees(data: seq<bv8>, base: nat, ins: set<int>, m: nat, h: int, p: int, lo: int, n: nat, x: int)
    requires lo < x < p && Listed(data, base, ins, m, h, x)
    ensures Seen(Below(data, base, ins, m, h, p, lo, n), n, x)
    decreases p - lo
  {
    hide Listed;
    if n > 0 {
      if Listed(data, base, ins, m, h, p - 1) {
        if x < p - 1 {
          BelowSees(data, base, ins, m, h, p - 1, lo, n - 1, x);
        }
      } else {
        BelowSees(data, base, ins, m, h, p - 1, lo, n, x);
      }
    }
  }

  /** The places that a search looks at are strings of the table with the same hash, the nearest first, all within MAX_DIST, and
      only the first may be exactly as far away as that; none is left out, but for those further away than chain others. */
  lemma PlacesAre(p: Setting, s: Sight, chain: nat)
    requires s.Ahead() >= MIN_MATCH && chain >= 1
    ensures var ps, h := Places(p, s, chain), HashAt(s.data, s.At(), p.m);
            && |ps| <= chain && Descends(s.data, s.base, s.ins, p.m, h, s.str, Limit(s.str, p.w), ps)
            && (forall i :: 1 <= i < |ps| ==> ps[i] > Nearest(s.str, p.w))
            && (forall x :: Nearest(s.str, p.w) < x < s.str && Listed(s.data, s.base, s.ins, p.m, h, x) ==> Seen(ps, chain, x))
            && (forall x :: Limit(s.str, p.w) < x < s.str && Listed(s.data, s.base, s.ins, p.m, h, x) ==> ps != [])
  {
    hide HashAt, Listed, Below;
    var h, lo, near := HashAt(s.data, s.At(), p.m), Limit(s.str, p.w), Nearest(s.str, p.w);
    var first := Below(s.data, s.base, s.ins, p.m, h, s.str, lo, 1);
    BelowDescends(s.data, s.base, s.ins, p.m, h, s.str, lo, 1);
    forall x | lo < x < s.str && Listed(s.data, s.base, s.ins, p.m, h, x) ensures Seen(first, 1, x) {
      BelowSees(s.data, s.base, s.ins, p.m, h, s.str, lo, 1, x);
    }
    BelowFew(s.data, s.base, s.ins, p.m, h, s.str, lo, 1);
    if first != [] {
      var rest := Below(s.data, s.base, s.ins, p.m, h, first[0], near, chain - 1);
      BelowDescends(s.data, s.base, s.ins, p.m, h, first[0], near, chain - 1);
      BelowFew(s.data, s.base, s.ins, p.m, h, first[0], near, chain - 1);
      assert InTurn(s.data, s.base, s.ins, p.m, h, s.str, lo, first, 0);
      forall i | 1 <= i < |first + rest| ensures (first + rest)[i] > near {
        assert InTurn(s.data, s.base, s.ins, p.m, h, first[0], near, rest, i - 1);
      }
      DescendsFrom(s.data, s.base, s.ins, p.m, h, s.str, lo, first[0], near, rest);
      assert first == [first[0]];
      forall x | near < x < s.str && Listed(s.data, s.base, s.ins, p.m, h, x) ensures Seen(first + rest, chain, x) {
        assert Seen(first, 1, x);
        if x < first[0] { BelowSees(s.data, s.base, s.ins, p.m, h, first[0], near, chain - 1, x); }
      }
    }
  }

  lemma {:induction false} BelowFew(data: seq<bv8>, base: nat, ins: set<int>, m: nat, h: int, p: int, lo: int, n: nat)
    ensures |Below(data, base, ins, m, h, p, lo, n)| <= n
    decreases if p > lo then p - lo else 0
  {
    hide Listed;
    if n > 0 && p - 1 > lo {
      BelowFew(data, base, ins, m, h, p - 1, lo, n);
      BelowFew(data, base, ins, m, h, p - 1, lo, n - 1);
    }
  }

  /** r is found at place i, and nothing as good before it. */
  ghost predicate FoundAt(data: seq<bv8>, a: int, base: int, places: seq<int>, most: nat, r: Found, i: int)
  {
    && 0 <= i < |places| && places[i] == r.at && Common(data, a, base + places[i], most) == r.len
    && forall j :: 0 <= j < i ==> Common(data, a, base + places[j], most) < r.len
  }

  ghost predicate NoneBetter(data: seq<bv8>, a: int, base: int, places: seq<int>, most: nat, n: nat)
  {
    forall j :: 0 <= j < |places| ==> Common(data, a, base + places[j], most) <= n
  }

  /** What a scan comes to, if it is better than best, is at one of the places, and none before it has as many bytes in common; and
      unless it is good enough, none at all has more. */
  lemma {:induction false} ScanFinds(data: seq<bv8>, a: int, base: int, places: seq<int>, most: nat, nice: nat, best: Found)
    ensures var r := Scan(data, a, base, places, most, nice, best);
            && (r.len > best.len ==> exists i :: FoundAt(data, a, base, places, most, r, i))
            && ((r.len >= nice && r.len > best.len) || NoneBetter(data, a, base, places, most, r.len))
    decreases |places|
  {
    hide Common, FoundAt, NoneBetter;
    if places == [] {
      NoPlaces(data, a, base, most, best.len);
    } else {
      var n := Common(data, a, base + places[0], most);
      var next := if n <= best.len then best else Found(n, places[0]);
      if n <= best.len || n < nice {
        ScanFinds(data, a, base, places[1..], most, nice, next);
        var r := Scan(data, a, base, places[1..], most, nice, next);
        if r.len > next.len {
          var i :| FoundAt(data, a, base, places[1..], most, r, i);
          FoundLater(data, a, base, places, most, r, i);
        } else if n > best.len {
          FoundFirst(data, a, base, places, most);
        }
        if NoneBetter(data, a, base, places[1..], most, r.len) { NoneOfAll(data, a, base, places, most, r.len); }
      } else {
        FoundFirst(data, a, base, places, most);
      }
    }
  }

  lemma NoPlaces(data: seq<bv8>, a: int, base: int, most: nat, n: nat)
    ensures NoneBetter(data, a, base, [], most, n)
  {
  }

  lemma FoundFirst(data: seq<bv8>, a: int, base: int, places: seq<int>, most: nat)
    requires places != []
    ensures FoundAt(data, a, base, places, most, Found(Common(data, a, base + places[0], most), places[0]), 0)
  {
  }

  lemma FoundLater(data: seq<bv8>, a: int, base: int, places: seq<int>, most: nat, r: Found, i: int)
    requires places != [] && FoundAt(data, a, base, places[1..], most, r, i) && r.len > Common(data, a, base + places[0], most)
    ensures FoundAt(data, a, base, places, most, r, i + 1)
  {
    hide Common;
    forall j | 0 <= j < i + 1 ensures Common(data, a, base + places[j], most) < r.len {
      if j > 0 { assert places[j] == places[1..][j - 1]; }
    }
  }

  lemma NoneOfAll(data: seq<bv8>, a: int, base: int, places: seq<int>, most: nat, n: nat)
    requires places != [] && NoneBetter(data, a, base, places[1..], most, n) && Common(data, a, base + places[0], most) <= n
    ensures NoneBetter(data, a, base, places, most, n)
  {
    hide Common;
    forall j | 0 <= j < |places| ensures Common(data, a, base + places[j], most) <= n {
      if j > 0 { assert places[j] == places[1..][j - 1]; }
    }
  }

  /** n bytes of the string repeat at distance s.str - x: so many are in common with the string at x, and no less is. */
  lemma RepeatsAt(s: Sight, x: int, n: nat)
    requires 0 <= x < s.str && s.At() <= |s.data| && n <= Most(s.Ahead())
    ensures Repeats(s.data, s.At(), s.str - x, n) <==> n <= Common(s.data, s.At(), s.base + x, Most(s.Ahead()))
  {
    hide Common;
    var most := Most(s.Ahead());
    CommonRepeats(s.data, s.At(), s.base + x, most);
    if Repeats(s.data, s.At(), s.str - x, n) { CommonMost(s.data, s.At(), s.base + x, most, n); }
  }

  /** A search finds something if and only if one of its places repeats more than held bytes of the string: then the first place
      of those that repeat the most, or the first that is good enough. */
  lemma BestIs(p: Setting, s: Sight, held: nat)
    requires s.Ahead() > 0 && MIN_MATCH - 1 <= held
    ensures var ps, r := Places(p, s, Patience(p.level, held)), BestMatch(p, s, held);
            && (r.len == held <==> NoneRepeats(p, s, ps, held + 1))
            && (r.len > held ==> TakesBest(p, s, ps, Token(Gap(s.str, r.at), r.len - MIN_MATCH)))
  {
    hide Common, Places, Scan, Configuration, Patience, TakesBest;
    var ps := Places(p, s, Patience(p.level, held));
    var most, nice := Most(s.Ahead()), Nice(p.level, s.Ahead());
    var r := BestMatch(p, s, held);
    ScanFinds(s.data, s.At(), s.base, ps, most, nice, Found(held, 0));
    if ps != [] { SeenAt(p, s, Patience(p.level, held)); }
    if r.len > held {
      var i :| FoundAt(s.data, s.At(), s.base, ps, most, r, i);
      RepeatsAt(s, ps[i], r.len);
      BestTaken(p, s, ps, r, i);
      RepeatsAt(s, ps[i], held + 1);
    } else if held < most {
      forall j | 0 <= j < |ps| ensures !Repeats(s.data, s.At(), s.str - ps[j], held + 1) { RepeatsAt(s, ps[j], held + 1); }
    }
  }

  /** n bytes are not there, or are more than a match may have, or are repeated at none of the places. */
  ghost predicate NoneRepeats(p: Setting, s: Sight, ps: seq<int>, n: nat)
  {
    n > Most(s.Ahead()) || forall i :: 0 <= i < |ps| ==> !Repeats(s.data, s.At(), s.str - ps[i], n)
  }

  /** deflate_fast puts out a literal if and only if no place that it looks at repeats three bytes of the string. Otherwise it puts
      out a match at one of the places, which repeats there, the nearest of its length; and unless it is good enough, no place
      repeats more. */
  lemma GreedyTakes(p: Setting, s: Sight)
    requires s.Ahead() > 0
    ensures var ps, t := Places(p, s, Patience(p.level, MIN_MATCH - 1)), Greedy(p, s).tokens;
            && |t| == 1
            && (t == [Literal(s.data, s.At())] <==> NoneRepeats(p, s, ps, MIN_MATCH))
            && (t != [Literal(s.data, s.At())] ==> TakesBest(p, s, ps, t[0]))
  {
    hide Places, Scan, Configuration, Patience, TakesBest, NoneRepeats, BestMatch, Strings, ByteAt;
    BestIs(p, s, MIN_MATCH - 1);
    if BestMatch(p, s, MIN_MATCH - 1).len > MIN_MATCH - 1 { TakenBack(p, s); }
  }

  /** A match is at a place before the string, so its token is not a literal. */
  lemma TakenBack(p: Setting, s: Sight)
    requires s.Ahead() > 0 && BestMatch(p, s, MIN_MATCH - 1).len > MIN_MATCH - 1
    ensures Gap(s.str, BestMatch(p, s, MIN_MATCH - 1).at) > 0
  {
    hide Common, Configuration, Patience, Repeats, Places;
    var ps := Places(p, s, Patience(p.level, MIN_MATCH - 1));
    BestIs(p, s, MIN_MATCH - 1);
    if ps != [] { SeenAt(p, s, Patience(p.level, MIN_MATCH - 1)); }
  }

  /** deflate_slow puts out the match held back if and only if it has one and the string has no match that is longer and not poor,
      or is not to be searched for one; and what it holds back next is the best match of this string, when it is longer and not
      poor, and otherwise no match. Either way a byte that waits goes out unless it is part of the match put out. */
  lemma LazilyTakes(p: Setting, s: Sight)
    requires s.Ahead() > 0 && MIN_MATCH - 1 <= s.held
    ensures var ps, r := Places(p, s, Patience(p.level, s.held)), Lazily(p, s);
            var none := s.held >= Configuration(p.level).lazy || NoneRepeats(p, s, ps, s.held + 1)
                        || Poor(p, s, BestMatch(p, s, s.held));
            && (s.held >= MIN_MATCH && none <==> !r.after.waiting)
            && (s.held >= MIN_MATCH && none ==> r.tokens == [Token(s.dist, s.held - MIN_MATCH)])
            && (!none ==> r.after.held > s.held && TakesBest(p, s, ps, Token(r.after.dist, r.after.held - MIN_MATCH)))
            && (none ==> r.after.held == MIN_MATCH - 1 && r.after.dist == 0)
            && (s.held < MIN_MATCH || !none ==> r.tokens == if s.waiting then [Literal(s.data, s.At() - 1)] else [])
  {
    hide Places, Configuration, Patience, TakesBest, NoneRepeats, BestMatch, Poor, Strings, ByteAt;
    BestIs(p, s, s.held);
  }

  /** The token is a match at the first place of those that repeat as much. */
  ghost predicate TakesBest(p: Setting, s: Sight, ps: seq<int>, t: Token)
  {
    var n := t.lc + MIN_MATCH;
    && MIN_MATCH <= n <= Most(s.Ahead())
    && (exists i :: 0 <= i < |ps| && t.dist == s.str - ps[i] && Repeats(s.data, s.At(), s.str - ps[i], n)
                    && forall j :: 0 <= j < i ==> !Repeats(s.data, s.At(), s.str - ps[j], n))
    && (n >= Nice(p.level, s.Ahead()) || n == Most(s.Ahead())
        || forall j :: 0 <= j < |ps| ==> !Repeats(s.data, s.At(), s.str - ps[j], n + 1))
  }

  /** There are places only for a string that is complete, and they lie before it. */
  lemma SeenAt(p: Setting, s: Sight, chain: nat)
    requires Places(p, s, chain) != []
    ensures s.Ahead() >= MIN_MATCH && forall i :: 0 <= i < |Places(p, s, chain)| ==> 0 <= Places(p, s, chain)[i] < s.str
  {
    hide HashAt, Listed, Below;
    var ps := Places(p, s, chain);
    PlacesAre(p, s, chain);
    InOrder(s.data, s.base, s.ins, p.m, HashAt(s.data, s.At(), p.m), s.str, Limit(s.str, p.w), ps);
  }

  lemma {:induction false} InOrder(data: seq<bv8>, base: nat, ins: set<int>, m: nat, h: int, p: int, lo: int, qs: seq<int>)
    requires Descends(data, base, ins, m, h, p, lo, qs)
    ensures forall i :: 0 <= i < |qs| ==> lo < qs[i] < p
    decreases |qs|
  {
    hide Listed;
    if qs != [] {
      var k := |qs| - 1;
      forall i | 0 <= i < k ensures InTurn(data, base, ins, m, h, p, lo, qs[..k], i) {
        assert InTurn(data, base, ins, m, h, p, lo, qs, i);
      }
      InOrder(data, base, ins, m, h, p, lo, qs[..k]);
      assert InTurn(data, base, ins, m, h, p, lo, qs, k);
      if k > 0 { assert qs[..k][k - 1] == qs[k - 1]; }
      forall i | 0 <= i < |qs| ensures lo < qs[i] < p { if i < k { assert qs[..k][i] == qs[i]; } }
    }
  }

  lemma BestTaken(p: Setting, s: Sight, ps: seq<int>, r: Found, i: int)
    requires s.Ahead() >= MIN_MATCH && (forall j :: 0 <= j < |ps| ==> 0 <= ps[j] < s.str)
    requires FoundAt(s.data, s.At(), s.base, ps, Most(s.Ahead()), r, i) && r.len >= MIN_MATCH
    requires r.len >= Nice(p.level, s.Ahead()) || NoneBetter(s.data, s.At(), s.base, ps, Most(s.Ahead()), r.len)
    ensures TakesBest(p, s, ps, Token(Gap(s.str, r.at), r.len - MIN_MATCH))
  {
    hide Common, Configuration, Repeats;
    RepeatsAt(s, ps[i], r.len);
    forall j | 0 <= j < i ensures !Repeats(s.data, s.At(), s.str - ps[j], r.len) { RepeatsAt(s, ps[j], r.len); }
    if NoneBetter(s.data, s.At(), s.base, ps, Most(s.Ahead()), r.len) && r.len < Most(s.Ahead()) {
      forall j | 0 <= j < |ps| ensures !Repeats(s.data, s.At(), s.str - ps[j], r.len + 1) { RepeatsAt(s, ps[j], r.len + 1); }
    }
  }
}
