/** The hash chains of deflate: what head and prev say about the strings that are still within reach. */
module HashChains {
  import opened DeflateHash

  const MIN_LOOKAHEAD := 262

  function MaxDist(w: nat): int { w - MIN_LOOKAHEAD }

  /** No position at or below the limit is within reach of the string at str: the distance would be too great, or the
      position is 0, which stands for none. */
  function Limit(str: int, w: nat): int
  {
    if str > MaxDist(w) then str - MaxDist(w) - 1 else 0
  }

  /** The hash of the three bytes at position a of all the data. */
  function HashAt(data: seq<bv8>, a: int, m: nat): int
  {
    if 0 <= a && a + 3 <= |data| then Hash3(m, data[a], data[a + 1], data[a + 2]) as int else 0
  }

  /** Window position v is out of reach, or an inserted string with hash h, before position below. */
  ghost predicate Fine(data: seq<bv8>, base: nat, ins: set<int>, v: int, h: int, str: int, below: int, w: nat, m: nat)
  {
    v >= 0 && (v <= Limit(str, w) || (v < below && base + v in ins && HashAt(data, base + v, m) == h))
  }

  /** No inserted string with hash h that is within reach lies after window position v, below the given one. */
  ghost predicate Latest(data: seq<bv8>, base: nat, ins: set<int>, v: int, h: int, str: int, below: int, w: nat, m: nat)
  {
    forall b :: b in ins ==> NotAfter(data, base, b, v, h, str, below, w, m)
  }

  ghost predicate NotAfter(data: seq<bv8>, base: nat, b: int, v: int, h: int, str: int, below: int, w: nat, m: nat)
  {
    HashAt(data, b, m) == h && Limit(str, w) < b - base < below ==> b - base <= v
  }

  /** The heads: for each hash, the last string inserted with it. */
  ghost predicate HeadsOk(data: seq<bv8>, base: nat, ins: set<int>, head: seq<int>, str: int, w: nat, m: nat)
  {
    |head| == HashSize(m) && forall h :: 0 <= h < |head| ==> HeadOk(data, base, ins, head, h, str, w, m)
  }

  ghost predicate HeadOk(data: seq<bv8>, base: nat, ins: set<int>, head: seq<int>, h: int, str: int, w: nat, m: nat)
  {
    && 0 <= h < |head| && Fine(data, base, ins, head[h], h, str, 2 * w, w, m)
    && Latest(data, base, ins, head[h], h, str, 2 * w + 1, w, m)
  }

  /** The links: from each inserted string within reach, to the one before it with the same hash, or out of reach. */
  ghost predicate LinksOk(data: seq<bv8>, base: nat, ins: set<int>, prev: seq<int>, str: int, w: nat, m: nat)
  {
    |prev| == w && forall a :: a in ins ==> LinkOk(data, base, ins, prev, a, str, w, m)
  }

  ghost predicate LinkOk(data: seq<bv8>, base: nat, ins: set<int>, prev: seq<int>, a: int, str: int, w: nat, m: nat)
  {
    |prev| == w > 0
    && (a - base > Limit(str, w) ==>
          var v := prev[(a - base) % w];
          && Fine(data, base, ins, v, HashAt(data, a, m), str, a - base, w, m)
          && Latest(data, base, ins, v, HashAt(data, a, m), str, a - base, w, m))
  }

  /** Inserted strings are three bytes of the data, and lie below top. */
  ghost predicate InsertedOk(data: seq<bv8>, base: nat, ins: set<int>, top: int)
  {
    forall a :: a in ins ==> 0 <= a < top && a + 3 <= |data|
  }

  ghost predicate Chains(data: seq<bv8>, base: nat, ins: set<int>, head: seq<int>, prev: seq<int>, top: int, str: int,
                         w: nat, m: nat)
  {
    && w > MIN_LOOKAHEAD && 1 <= m <= 9 && 0 <= top <= base + str + 1 && 0 <= str <= 2 * w
    && HeadsOk(data, base, ins, head, str, w, m) && LinksOk(data, base, ins, prev, str, w, m)
    && InsertedOk(data, base, ins, top)
  }

  lemma HashRange(data: seq<bv8>, a: int, m: nat)
    ensures 0 <= HashAt(data, a, m) < HashSize(m) <= 0x1_0000
  {
    hide Hash2, Update;
    if 0 <= a && a + 3 <= |data| { InTable(m, Hash2(m, data[a], data[a + 1]), data[a + 2]); }
  }

  lemma HashGrows(data: seq<bv8>, more: seq<bv8>, a: int, m: nat)
    requires a + 3 <= |data|
    ensures HashAt(data + more, a, m) == HashAt(data, a, m)
  {
    hide Hash3;
    if 0 <= a {
      assert (data + more)[a] == data[a] && (data + more)[a + 1] == data[a + 1] && (data + more)[a + 2] == data[a + 2];
    }
  }

  /** Nothing inserted: heads all cleared. */
  lemma ChainsEmpty(data: seq<bv8>, base: nat, head: seq<int>, prev: seq<int>, top: int, str: int, w: nat, m: nat)
    requires w > MIN_LOOKAHEAD && 1 <= m <= 9 && 0 <= top <= base + str && 0 <= str <= 2 * w && |head| == HashSize(m)
    requires |prev| == w && forall h :: 0 <= h < |head| ==> head[h] == 0
    ensures Chains(data, base, {}, head, prev, top, str, w, m)
  {
  }

  lemma FineGrows(data: seq<bv8>, more: seq<bv8>, base: nat, ins: set<int>, v: int, h: int, str: int, below: int, w: nat,
                  m: nat, top: int)
    requires Fine(data, base, ins, v, h, str, below, w, m) && InsertedOk(data, base, ins, top)
    ensures Fine(data + more, base, ins, v, h, str, below, w, m)
  {
    hide HashAt, Limit;
    if base + v in ins { HashGrows(data, more, base + v, m); }
  }

  lemma LatestGrows(data: seq<bv8>, more: seq<bv8>, base: nat, ins: set<int>, v: int, h: int, str: int, below: int, w: nat,
                    m: nat, top: int)
    requires Latest(data, base, ins, v, h, str, below, w, m) && InsertedOk(data, base, ins, top)
    ensures Latest(data + more, base, ins, v, h, str, below, w, m)
  {
    hide HashAt, Limit;
    forall b | b in ins ensures NotAfter(data + more, base, b, v, h, str, below, w, m) {
      assert NotAfter(data, base, b, v, h, str, below, w, m);
      HashGrows(data, more, b, m);
    }
  }

  lemma LatestMoves(data: seq<bv8>, base: nat, ins: set<int>, v: int, h: int, str: int, str': int, below: int, w: nat, m: nat)
    requires Latest(data, base, ins, v, h, str, below, w, m) && str <= str'
    ensures Latest(data, base, ins, v, h, str', below, w, m)
  {
    hide HashAt;
    forall b | b in ins ensures NotAfter(data, base, b, v, h, str', below, w, m) {
      assert NotAfter(data, base, b, v, h, str, below, w, m);
    }
  }

  /** One more string, not in the way: with another hash, or no later than v, or not below. */
  lemma LatestMore(data: seq<bv8>, base: nat, ins: set<int>, a: int, v: int, h: int, str: int, below: int, w: nat, m: nat)
    requires Latest(data, base, ins, v, h, str, below, w, m) && NotAfter(data, base, a, v, h, str, below, w, m)
    ensures Latest(data, base, ins + {a}, v, h, str, below, w, m)
  {
    hide NotAfter;
  }

  /** More data changes nothing about the strings there are. */
  lemma ChainsGrow(data: seq<bv8>, more: seq<bv8>, base: nat, ins: set<int>, head: seq<int>, prev: seq<int>, top: int,
                   str: int, w: nat, m: nat)
    requires Chains(data, base, ins, head, prev, top, str, w, m)
    ensures Chains(data + more, base, ins, head, prev, top, str, w, m)
  {
    hide HashAt, Fine, Limit, Latest;
    var d := data + more;
    forall h | 0 <= h < |head| ensures HeadOk(d, base, ins, head, h, str, w, m) {
      assert HeadOk(data, base, ins, head, h, str, w, m);
      FineGrows(data, more, base, ins, head[h], h, str, 2 * w, w, m, top);
      LatestGrows(data, more, base, ins, head[h], h, str, 2 * w + 1, w, m, top);
    }
    forall a | a in ins ensures LinkOk(d, base, ins, prev, a, str, w, m) {
      assert LinkOk(data, base, ins, prev, a, str, w, m);
      HashGrows(data, more, a, m);
      if a - base > Limit(str, w) {
        FineGrows(data, more, base, ins, prev[(a - base) % w], HashAt(data, a, m), str, a - base, w, m, top);
        LatestGrows(data, more, base, ins, prev[(a - base) % w], HashAt(data, a, m), str, a - base, w, m, top);
      }
    }
  }

  /** Moving on only puts strings out of reach. */
  lemma ChainsMove(data: seq<bv8>, base: nat, ins: set<int>, head: seq<int>, prev: seq<int>, top: int, str: int, top': int,
                   str': int, w: nat, m: nat)
    requires Chains(data, base, ins, head, prev, top, str, w, m)
    requires str <= str' <= 2 * w && top <= top' <= base + str' + 1
    ensures Chains(data, base, ins, head, prev, top', str', w, m)
  {
    hide HashAt, Latest;
    forall h | 0 <= h < |head| ensures HeadOk(data, base, ins, head, h, str', w, m) {
      assert HeadOk(data, base, ins, head, h, str, w, m);
      LatestMoves(data, base, ins, head[h], h, str, str', 2 * w + 1, w, m);
    }
    forall a | a in ins ensures LinkOk(data, base, ins, prev, a, str', w, m) {
      assert LinkOk(data, base, ins, prev, a, str, w, m);
      if a - base > Limit(str', w) {
        LatestMoves(data, base, ins, prev[(a - base) % w], HashAt(data, a, m), str, str', a - base, w, m);
      }
    }
  }

  // ----- inserting a string

  /** Different multiples of w lie at least w apart. */
  lemma {:induction false} Multiple(w: nat, i: int, j: int)
    requires i < j
    ensures w * j - w * i >= w
    decreases j - i
  {
    OneMoreTime(w, j - 1);
    if i < j - 1 { Multiple(w, i, j - 1); }
  }

  lemma OneMoreTime(w: nat, k: int)
    ensures w * (k + 1) == w * k + w
  {
  }

  lemma ModUnique(x: int, w: nat, q: int, r: int)
    requires w > 0 && x == w * q + r && 0 <= r < w
    ensures x % w == r
  {
    var p := x / w;
    assert x == w * p + x % w;
    if p < q { Multiple(w, p, q); } else if q < p { Multiple(w, q, p); }
  }

  /** Slots of positions less than a window apart differ. */
  lemma SlotsDiffer(p: nat, q: nat, w: nat)
    requires q < p < q + w
    ensures p % w != q % w
  {
    var i, j := p / w, q / w;
    assert p == w * i + p % w && q == w * j + q % w;
    if j < i { Multiple(w, j, i); } else if i < j { Multiple(w, i, j); }
  }

  /** INSERT_STRING at window position at, no later than the string being worked on. */
  lemma InsertString(data: seq<bv8>, base: nat, ins: set<int>, head: seq<int>, prev: seq<int>, top: int, str: int, at: nat,
                     w: nat, m: nat, h: int)
    requires Chains(data, base, ins, head, prev, top, str, w, m)
    requires top <= base + at && at <= str && at < 2 * w && base + at + 3 <= |data|
    requires h == HashAt(data, base + at, m)
    ensures 0 <= h < |head| && at % w < |prev|
    ensures Chains(data, base, ins + {base + at}, head[h := at], prev[at % w := head[h]], base + at + 1, str, w, m)
  {
    hide HashAt;
    HashRange(data, base + at, m);
    InsertedHeads(data, base, ins, head, prev, top, str, at, w, m, h);
    InsertedLinks(data, base, ins, head, prev, top, str, at, w, m, h);
  }

  lemma InsertedHeads(data: seq<bv8>, base: nat, ins: set<int>, head: seq<int>, prev: seq<int>, top: int, str: int, at: nat,
                      w: nat, m: nat, h: int)
    requires Chains(data, base, ins, head, prev, top, str, w, m)
    requires top <= base + at && at <= str && h == HashAt(data, base + at, m) && 0 <= h < |head|
    requires at < 2 * w
    ensures HeadsOk(data, base, ins + {base + at}, head[h := at], str, w, m)
  {
    hide HashAt, Latest;
    var ins', head' := ins + {base + at}, head[h := at];
    forall g | 0 <= g < |head| ensures HeadOk(data, base, ins', head', g, str, w, m) {
      assert HeadOk(data, base, ins, head, g, str, w, m);
      if g == h {
        LatestIs(data, base, ins, top, at, h, str, w, m);
      } else {
        LatestMore(data, base, ins, base + at, head[g], g, str, 2 * w + 1, w, m);
      }
    }
  }

  /** The string inserted last is the latest. */
  lemma LatestIs(data: seq<bv8>, base: nat, ins: set<int>, top: int, at: nat, h: int, str: int, w: nat, m: nat)
    requires InsertedOk(data, base, ins, top) && top <= base + at
    ensures Latest(data, base, ins + {base + at}, at, h, str, 2 * w + 1, w, m)
  {
    hide HashAt, Limit;
  }

  lemma InsertedLinks(data: seq<bv8>, base: nat, ins: set<int>, head: seq<int>, prev: seq<int>, top: int, str: int, at: nat,
                      w: nat, m: nat, h: int)
    requires Chains(data, base, ins, head, prev, top, str, w, m)
    requires top <= base + at && at <= str && h == HashAt(data, base + at, m) && 0 <= h < |head|
    ensures LinksOk(data, base, ins + {base + at}, prev[at % w := head[h]], str, w, m)
  {
    hide HashAt, HeadsOk, Latest;
    var ins', prev' := ins + {base + at}, prev[at % w := head[h]];
    HeadFine(data, base, ins, head, prev, top, str, w, m, h);
    LatestAt(data, base, ins, base + at, head[h], h, str, at, w, m);
    forall a | a in ins' ensures LinkOk(data, base, ins', prev', a, str, w, m) {
      if a != base + at { InsertedLink(data, base, ins, prev, top, str, at, w, m, head[h], a); }
    }
  }

  /** The head is the latest before the string itself. */
  lemma LatestAt(data: seq<bv8>, base: nat, ins: set<int>, a: int, v: int, h: int, str: int, at: int, w: nat, m: nat)
    requires Latest(data, base, ins, v, h, str, 2 * w + 1, w, m) && a == base + at && at <= 2 * w
    ensures Latest(data, base, ins + {a}, v, h, str, at, w, m)
  {
    hide HashAt, Limit;
    forall b | b in ins + {a} ensures NotAfter(data, base, b, v, h, str, at, w, m) {
      if b in ins { assert NotAfter(data, base, b, v, h, str, 2 * w + 1, w, m); }
    }
  }

  lemma InsertedLink(data: seq<bv8>, base: nat, ins: set<int>, prev: seq<int>, top: int, str: int, at: nat, w: nat, m: nat,
                     v: int, a: int)
    requires LinksOk(data, base, ins, prev, str, w, m) && InsertedOk(data, base, ins, top) && a in ins && w > MIN_LOOKAHEAD
    requires top <= base + at && at <= str && at % w < |prev|
    ensures LinkOk(data, base, ins + {base + at}, prev[at % w := v], a, str, w, m)
  {
    hide HashAt, Latest;
    assert LinkOk(data, base, ins, prev, a, str, w, m);
    if a - base > Limit(str, w) {
      SlotsDiffer(at, a - base, w);
      LatestMore(data, base, ins, base + at, prev[(a - base) % w], HashAt(data, a, m), str, a - base, w, m);
    }
  }

  /** What a head says: nothing in reach, or a string with that hash. */
  lemma HeadFine(data: seq<bv8>, base: nat, ins: set<int>, head: seq<int>, prev: seq<int>, top: int, str: int, w: nat,
                 m: nat, h: int)
    requires Chains(data, base, ins, head, prev, top, str, w, m) && 0 <= h < |head|
    ensures Fine(data, base, ins, head[h], h, str, top - base, w, m)
    ensures Latest(data, base, ins, head[h], h, str, 2 * w + 1, w, m)
  {
    hide HashAt, Latest;
    assert HeadOk(data, base, ins, head, h, str, w, m);
  }

  /** And what a link says. */
  lemma LinkFine(data: seq<bv8>, base: nat, ins: set<int>, head: seq<int>, prev: seq<int>, top: int, str: int, w: nat,
                 m: nat, v: int)
    requires Chains(data, base, ins, head, prev, top, str, w, m) && base + v in ins && v > Limit(str, w)
    ensures |prev| == w && Fine(data, base, ins, prev[v % w], HashAt(data, base + v, m), str, v, w, m)
    ensures Latest(data, base, ins, prev[v % w], HashAt(data, base + v, m), str, v, w, m)
  {
    hide HashAt, Fine, Latest;
    assert LinkOk(data, base, ins, prev, base + v, str, w, m);
  }

  // ----- sliding the window

  function Slide(v: int, w: nat): int { if v >= w then v - w else 0 }

  function SlideAll(s: seq<int>, w: nat): (r: seq<int>)
    ensures |r| == |s|
  {
    seq(|s|, i requires 0 <= i < |s| => Slide(s[i], w))
  }

  lemma SlideFine(data: seq<bv8>, base: nat, ins: set<int>, v: int, h: int, str: int, below: int, w: nat, m: nat)
    requires Fine(data, base, ins, v, h, str, below, w, m) && str >= w + MaxDist(w) && w > MIN_LOOKAHEAD
    ensures Fine(data, base + w, ins, Slide(v, w), h, str - w, below - w, w, m)
  {
    hide HashAt;
  }

  /** What slides below 0 was out of reach, or is about to be. */
  lemma SlideLatest(data: seq<bv8>, base: nat, ins: set<int>, v: int, h: int, str: int, below: int, below': int, w: nat, m: nat,
                    top: int)
    requires Latest(data, base, ins, v, h, str, below, w, m) && str >= w + MaxDist(w) && w > MIN_LOOKAHEAD
    requires InsertedOk(data, base, ins, top) && (below' <= below - w || top - base <= below)
    ensures Latest(data, base + w, ins, Slide(v, w), h, str - w, below', w, m)
  {
    hide HashAt;
    forall b | b in ins ensures NotAfter(data, base + w, b, Slide(v, w), h, str - w, below', w, m) {
      assert NotAfter(data, base, b, v, h, str, below, w, m);
    }
  }

  lemma SlideSlot(v: int, w: nat)
    requires v >= w > 0
    ensures (v - w) % w == v % w
  {
    var q := v / w;
    assert v == w * q + v % w && w * (q - 1) == w * q - w;
    ModUnique(v - w, w, q - 1, v % w);
  }

  /** slide_hash, as the window's upper half moves down. */
  lemma ChainsSlide(data: seq<bv8>, base: nat, ins: set<int>, head: seq<int>, prev: seq<int>, top: int, str: int, w: nat,
                    m: nat)
    requires Chains(data, base, ins, head, prev, top, str, w, m) && str >= w + MaxDist(w)
    ensures Chains(data, base + w, ins, SlideAll(head, w), SlideAll(prev, w), top, str - w, w, m)
  {
    hide HashAt, Fine, Latest;
    var head', prev' := SlideAll(head, w), SlideAll(prev, w);
    var base', str' := base + w, str - w;
    forall h | 0 <= h < |head| ensures HeadOk(data, base', ins, head', h, str', w, m) {
      assert HeadOk(data, base, ins, head, h, str, w, m);
      SlideFine(data, base, ins, head[h], h, str, 2 * w, w, m);
      FineBelow(data, base + w, ins, head'[h], h, str - w, 2 * w - w, 2 * w, w, m);
      SlideLatest(data, base, ins, head[h], h, str, 2 * w + 1, 2 * w + 1, w, m, top);
    }
    forall a | a in ins ensures LinkOk(data, base', ins, prev', a, str', w, m) {
      assert LinkOk(data, base, ins, prev, a, str, w, m);
      if a - (base + w) > Limit(str - w, w) {
        SlideSlot(a - base, w);
        SlideFine(data, base, ins, prev[(a - base) % w], HashAt(data, a, m), str, a - base, w, m);
        SlideLatest(data, base, ins, prev[(a - base) % w], HashAt(data, a, m), str, a - base, a - base - w, w, m, top);
      }
    }
  }

  lemma FineBelow(data: seq<bv8>, base: nat, ins: set<int>, v: int, h: int, str: int, below: int, below': int, w: nat, m: nat)
    requires Fine(data, base, ins, v, h, str, below, w, m) && below <= below'
    ensures Fine(data, base, ins, v, h, str, below', w, m)
  {
  }
}
