/** deflate's matchers: the sliding window, the hash chains, and the tokens they put out. */
module Deflate {
  import opened Lz77
  import Bits
  import opened DeflateHash
  import opened HashChains
  import opened MatcherSteps
  import opened ChainSearch

  const WIN_INIT := MAX_MATCH
  const WORD := 0x1_0000_0000

  /** Unsigned 32-bit arithmetic. */
  function U32(x: int): (r: nat)
    ensures r < WORD
  {
    x % WORD
  }

  lemma SlideWord(p: int, m: nat, w: nat)
    ensures U32(p - w - U32(m - w)) == U32(p - m)
  {
    var q := (m - w) / WORD;
    assert U32(m - w) == m - w - WORD * q;
    Whole(p - m, q);
  }

  lemma Whole(x: int, q: int)
    ensures U32(x + WORD * q) == U32(x)
  {
  }

  /** The window holds data from base on, n bytes of it. */
  ghost predicate Shows(win: seq<bv8>, data: seq<bv8>, base: nat, n: nat)
  {
    n <= |win| && base + n <= |data| && forall i :: 0 <= i < n ==> win[i] == data[base + i]
  }

  lemma ShowsAt(win: seq<bv8>, data: seq<bv8>, base: nat, n: nat, i: nat)
    requires Shows(win, data, base, n) && i < n
    ensures n <= |win| && base + i < |data| && win[i] == data[base + i]
  {
  }

  lemma ShowsSlid(win: seq<bv8>, win': seq<bv8>, data: seq<bv8>, base: nat, n: nat, w: nat)
    requires Shows(win, data, base, n) && w <= n && |win'| == |win| && win'[..n - w] == win[w..n]
    ensures Shows(win', data, base + w, n - w)
  {
    forall i | 0 <= i < n - w ensures win'[i] == data[base + w + i] {
      assert win'[..n - w][i] == win[w..n][i];
    }
  }

  lemma ShowsMore(win: seq<bv8>, win': seq<bv8>, data: seq<bv8>, more: seq<bv8>, base: nat, n: nat)
    requires Shows(win, data, base, n) && base + n == |data| && n + |more| <= |win| == |win'|
    requires win'[..n] == win[..n] && win'[n..n + |more|] == more
    ensures Shows(win', data + more, base, n + |more|)
  {
    forall i | 0 <= i < n + |more| ensures win'[i] == (data + more)[base + i] {
      if i < n { assert win'[..n][i] == win[..n][i]; } else { assert win'[n..n + |more|][i - n] == more[i - n]; }
    }
  }

  lemma ShowsSame(win: seq<bv8>, win': seq<bv8>, data: seq<bv8>, base: nat, n: nat)
    requires Shows(win, data, base, n) && |win'| == |win| && win'[..n] == win[..n]
    ensures Shows(win', data, base, n)
  {
    forall i | 0 <= i < n ensures win'[i] == data[base + i] { assert win'[..n][i] == win[..n][i]; }
  }

  /** The hash h has taken in the two bytes from position p of the window on. */
  ghost predicate Rolled(win: seq<bv8>, h: word, p: int, m: nat)
  {
    0 <= p && p + 1 < |win| && Kept(m, h) == Kept(m, Hash2(m, win[p], win[p + 1]))
  }

  /** Taking in the third makes it the hash of the string at p, and ready for the next. */
  lemma TakeThird(win: seq<bv8>, data: seq<bv8>, base: nat, n: nat, h: word, p: nat, m: nat)
    requires Rolled(win, h, p, m) && Shows(win, data, base, n) && p + 3 <= n && 1 <= m <= 9
    ensures var g := Update(m, h, win[p + 2]);
            0 <= g as int < HashSize(m) && g as int == HashAt(data, base + p, m) && Rolled(win, g, p + 1, m)
  {
    hide Kept, Update, Hash2, Hash3;
    var a, b, c := win[p], win[p + 1], win[p + 2];
    SameKept(m, h, Hash2(m, a, b), c);
    InTable(m, h, c);
    Roll(m, a, b, c);
    ThirdUpdate(m, a, b, c);
  }

  /** All about inserting the string at a position. */
  lemma Inserting(win: seq<bv8>, data: seq<bv8>, base: nat, ins: set<int>, head: seq<int>, prev: seq<int>, top: int, str: int,
                  at: nat, e: nat, w: nat, m: nat, h: word)
    requires Shows(win, data, base, e) && Chains(data, base, ins, head, prev, top, str, w, m) && Rolled(win, h, at, m)
    requires top <= base + at && at <= str && at + 3 <= e <= 2 * w
    ensures at + 2 < |win| && |prev| == w > 0 && 0 <= at % w < w
    ensures var g := Update(m, h, win[at + 2]); var i := g as int;
            && 0 <= i < |head| && Rolled(win, g, at + 1, m)
            && Chains(data, base, ins + {base + at}, head[i := at], prev[at % w := head[i]], base + at + 1, str, w, m)
            && Fine(data, base, ins, head[i], HashAt(data, base + at, m), str, at, w, m)
            && Latest(data, base, ins, head[i], HashAt(data, base + at, m), str, 2 * w + 1, w, m)
  {
    hide HashAt, Update, Rolled, Fine, HeadsOk, LinksOk, InsertedOk, HashSize, Latest;
    var i := HashAt(data, base + at, m);
    TakeThird(win, data, base, e, h, at, m);
    TableSizes(data, base, ins, head, prev, str, w, m);
    HashChains.InsertString(data, base, ins, head, prev, top, str, at, w, m, i);
    HeadFine(data, base, ins, head, prev, top, str, w, m, i);
    FineBelow(data, base, ins, head[i], i, str, top - base, at, w, m);
  }

  lemma TableSizes(data: seq<bv8>, base: nat, ins: set<int>, head: seq<int>, prev: seq<int>, str: int, w: nat, m: nat)
    requires HeadsOk(data, base, ins, head, str, w, m) && LinksOk(data, base, ins, prev, str, w, m)
    ensures |head| == HashSize(m) && |prev| == w
  {
    hide HashSize;
  }

  lemma ThirdUpdate(m: nat, a: bv8, b: bv8, c: bv8)
    ensures Update(m, Hash2(m, a, b), c) == Hash3(m, a, b, c)
  {
  }

  lemma Restarted(win: seq<bv8>, p: nat, m: nat)
    requires p + 1 < |win|
    ensures Rolled(win, Update(m, win[p] as word, win[p + 1]), p, m)
  {
  }

  lemma RolledSame(win: seq<bv8>, win': seq<bv8>, h: word, p: nat, p': nat, m: nat)
    requires Rolled(win, h, p, m) && p' + 1 < |win'| && win'[p'] == win[p] && win'[p' + 1] == win[p + 1]
    ensures Rolled(win', h, p', m)
  {
  }

  /** n bytes of the window at p are those at q. */
  ghost predicate SameBytes(win: seq<bv8>, p: int, q: int, n: int)
  {
    0 <= q <= p && p + n <= |win| && forall k :: p <= k < p + n ==> win[k] == win[k - (p - q)]
  }

  /** Two strings that part after m bytes have no more than m in common. */
  ghost predicate NoLonger(win: seq<bv8>, p: int, q: int, m: int)
  {
    forall n :: m < n <= MAX_MATCH ==> !SameBytes(win, p, q, n)
  }

  ghost predicate NoneLonger(win: seq<bv8>, p: int, qs: seq<int>, m: int)
  {
    forall i :: 0 <= i < |qs| ==> NoLonger(win, p, qs[i], m)
  }

  lemma NoneLongerMore(win: seq<bv8>, p: int, qs: seq<int>, q: int, m: int, n: int)
    requires NoneLonger(win, p, qs, m) && m <= n && NoLonger(win, p, q, n)
    ensures NoneLonger(win, p, qs + [q], n)
  {
    forall i | 0 <= i < |qs + [q]| ensures NoLonger(win, p, (qs + [q])[i], n) {
      if i < |qs| { assert NoLonger(win, p, qs[i], m); }
    }
  }

  lemma PartAt(win: seq<bv8>, p: nat, q: nat, m: nat)
    requires q <= p && p + m < |win| && win[p + m] != win[q + m]
    ensures NoLonger(win, p, q, m)
  {
    var k := p + m;
    assert win[k] != win[k - (p - q)];
  }

  lemma LongerYet(win: seq<bv8>, p: int, q: int, m: int, n: int)
    requires NoLonger(win, p, q, m) && m <= n
    ensures NoLonger(win, p, q, n)
  {
  }

  /** In the data: no n bytes there, no more than are looked ahead, that are those at one of the places. */
  ghost predicate Longest(data: seq<bv8>, a: int, ahead: int, places: seq<int>, str: int, m: int)
  {
    forall i :: 0 <= i < |places| ==> Shorter(data, a, ahead, str - places[i], m)
  }

  ghost predicate Shorter(data: seq<bv8>, a: int, ahead: int, dist: int, m: int)
  {
    forall n :: m < n <= MAX_MATCH && n <= ahead ==> !Repeats(data, a, dist, n)
  }

  lemma LongestShown(win: seq<bv8>, data: seq<bv8>, base: nat, e: nat, p: nat, qs: seq<int>, m: nat)
    requires Shows(win, data, base, e) && p <= e && NoneLonger(win, p, qs, m)
    requires forall i :: 0 <= i < |qs| ==> 0 <= qs[i] < p
    ensures Longest(data, base + p, e - p, qs, p, m)
  {
    forall i | 0 <= i < |qs| ensures Shorter(data, base + p, e - p, p - qs[i], m) {
      var q := qs[i];
      assert 0 <= q < p && NoLonger(win, p, q, m);
      ShorterShown(win, data, base, e, p, q, m);
    }
  }

  lemma ShorterShown(win: seq<bv8>, data: seq<bv8>, base: nat, e: nat, p: nat, q: nat, m: nat)
    requires Shows(win, data, base, e) && q < p <= e && NoLonger(win, p, q, m)
    ensures Shorter(data, base + p, e - p, p - q, m)
  {
    var a, dist := base + p, p - q;
    forall n | m < n <= MAX_MATCH && n <= e - p ensures !Repeats(data, a, dist, n) {
      if Repeats(data, a, dist, n) { RepeatsShown(win, data, base, e, p, q, n); }
    }
  }

  lemma RepeatsShown(win: seq<bv8>, data: seq<bv8>, base: nat, e: nat, p: nat, q: nat, n: nat)
    requires Shows(win, data, base, e) && q < p && p + n <= e && Repeats(data, base + p, p - q, n)
    ensures SameBytes(win, p, q, n)
  {
    forall k | p <= k < p + n ensures win[k] == win[k - (p - q)] {
      ShowsAt(win, data, base, e, k);
      ShowsAt(win, data, base, e, k - (p - q));
      assert data[base + k] == data[base + k - (p - q)];
    }
  }

  /** What two strings have in common in the window they have in common in the data, as far as that goes. */
  lemma CommonShown(win: seq<bv8>, data: seq<bv8>, base: nat, e: nat, p: nat, q: nat, n: nat)
    requires Shows(win, data, base, e) && base + e == |data| && q < p <= e
    requires SameBytes(win, p, q, n) && NoLonger(win, p, q, n)
    ensures Common(data, base + p, base + q, Most(e - p)) == if n < Most(e - p) then n else Most(e - p)
  {
    hide Shows, SameBytes, Repeats, Common, NoLonger;
    var most := Most(e - p);
    CommonLess(win, data, base, e, p, q, n);
    var k := if n < most then n else most;
    FoundRepeats(win, data, base, e, p, q, n, k);
    CommonMost(data, base + p, base + q, most, k);
  }

  lemma CommonLess(win: seq<bv8>, data: seq<bv8>, base: nat, e: nat, p: nat, q: nat, n: nat)
    requires Shows(win, data, base, e) && base + e == |data| && q < p <= e && NoLonger(win, p, q, n)
    ensures Common(data, base + p, base + q, Most(e - p)) <= n
  {
    hide Shows, SameBytes, Repeats;
    CommonRepeats(data, base + p, base + q, Most(e - p));
    RepeatsShown(win, data, base, e, p, q, Common(data, base + p, base + q, Most(e - p)));
  }

  lemma StringHere(data: seq<bv8>, a: nat)
    ensures Strings(data, a, 1) == if a + MIN_MATCH <= |data| then {a} else {}
  {
    NoStrings(data, a);
    StringsNext(data, a, 0);
  }

  lemma NothingLate(data: seq<bv8>, a: nat, insert: nat)
    requires insert <= a <= |data| < a + MIN_MATCH - insert
    ensures MatcherSteps.Late(data, a, insert) == {} && StillLate(data, a, insert) == insert
  {
    hide Strings;
    Incomplete(data, a - insert, insert);
  }

  lemma ThreeSame(win: seq<bv8>, p: nat, q: nat)
    requires q <= p && p + 3 <= |win| && win[p] == win[q] && win[p + 1] == win[q + 1] && win[p + 2] == win[q + 2]
    ensures SameBytes(win, p, q, 3)
  {
  }

  lemma OneMoreSame(win: seq<bv8>, p: nat, q: nat, n: nat)
    requires SameBytes(win, p, q, n) && p + n < |win| && win[p + n] == win[q + n]
    ensures SameBytes(win, p, q, n + 1)
  {
  }

  lemma ThreeShown(win: seq<bv8>, data: seq<bv8>, base: nat, n: nat, p: nat)
    requires Shows(win, data, base, n) && p + 3 <= n
    ensures win[p] == data[base + p] && win[p + 1] == data[base + p + 1] && win[p + 2] == data[base + p + 2]
  {
  }

  lemma SameHash(m: nat, a: bv8, b: bv8, c: bv8, d: bv8)
    requires Hash3(m, a, b, c) as int == Hash3(m, a, b, d) as int
    ensures c == d
  {
    hide Hash3;
    SameWord(Hash3(m, a, b, c), Hash3(m, a, b, d));
    ThirdByte(m, a, b, c, d);
  }

  lemma SameWord(v: word, w: word)
    requires v as int == w as int
    ensures v == w
  {
    assert (v as int) as word == v;
  }

  /** A match in the window is one in the data, as far as the window shows the data. */
  lemma FoundRepeats(win: seq<bv8>, data: seq<bv8>, base: nat, e: nat, p: nat, q: nat, n: nat, len: nat)
    requires Shows(win, data, base, e) && SameBytes(win, p, q, n) && q < p && len <= n && p + len <= e
    ensures Repeats(data, base + p, p - q, len)
  {
    forall j | base + p <= j < base + p + len ensures data[j] == data[j - (p - q)] {
      ShowsAt(win, data, base, e, j - base);
      ShowsAt(win, data, base, e, j - base - (p - q));
    }
  }

  lemma RepeatsGrow(data: seq<bv8>, more: seq<bv8>, a: int, dist: int, n: int)
    requires data <= more
    ensures Repeats(data, a, dist, n) ==> Repeats(more, a, dist, n)
  {
  }

  /** The first n entries of d_buf and l_buf. */
  ghost function Buffered(d: seq<nat>, l: seq<nat>, n: nat): (r: seq<Token>)
    ensures |r| == n
  {
    seq(n, i requires 0 <= i < n => if i < |d| && i < |l| then Token(d[i], l[i]) else Token(0, 0))
  }

  lemma BufferedMore(d: seq<nat>, l: seq<nat>, n: nat, d': seq<nat>, l': seq<nat>)
    requires n < |d| == |d'| && n < |l| == |l'|
    requires (forall i :: 0 <= i < n ==> d'[i] == d[i]) && forall i :: 0 <= i < n ==> l'[i] == l[i]
    ensures Buffered(d', l', n + 1) == Buffered(d, l, n) + [Token(d'[n], l'[n])]
  {
  }

  lemma ByteBack(c: bv8)
    ensures c as nat < 256 && Byte(c as nat) == c
  {
  }

  datatype Flush = NoFlush | SyncFlush | FullFlush | Finish

  datatype BlockState = NeedMore | BlockDone | FinishStarted | FinishDone

  /** w_size; the smallest size asked for is raised. */
  function WindowSize(bits: nat): (r: nat)
    ensures r in {512, 1024, 2048, 4096, 8192, 16384, 32768}
    ensures bits <= 15 ==> r == Bits.Pow2(if bits < 9 then 9 else bits)
  {
    assert Bits.Pow2(9) == 512 by { Bits.Pow2Values(); }
    if bits <= 9 then 512
    else if bits == 10 then 1024
    else if bits == 11 then 2048
    else if bits == 12 then 4096
    else if bits == 13 then 8192
    else if bits == 14 then 16384
    else 32768
  }

  /** From before to after, answers have been taken from the list, and refused says whether one of them was no. */
  ghost predicate Answered(before: seq<bool>, after: seq<bool>, refused: bool)
  {
    && |after| <= |before| && after == before[|before| - |after|..]
    && (refused <==> false in before[..|before| - |after|])
  }

  lemma AnsweredNone(a: seq<bool>)
    ensures Answered(a, a, false)
  {
  }

  lemma AnsweredMore(a: seq<bool>, b: seq<bool>, c: seq<bool>, refused: bool)
    requires Answered(a, b, false) && Answered(b, c, refused)
    ensures Answered(a, c, refused)
  {
    var n, m := |a| - |b|, |b| - |c|;
    assert a[..n + m] == a[..n] + b[..m];
  }

  lemma OneAnswer(a: seq<bool>, b: seq<bool>)
    ensures !(Answered(a, b, true) && Answered(a, b, false))
  {
  }

  class DeflateState {
    const wSize: nat
    const memLevel: nat
    const level: nat
    const strategy: Strategy
    const window: array<bv8>
    const head: array<int>
    const prev: array<int>
    const dBuf: array<nat>
    const lBuf: array<nat>
    const litBufsize: nat
    var insH: word
    var strstart: nat
    var matchStart: nat
    var lookahead: nat
    var insert: nat
    var matchLength: nat
    var prevMatch: nat
    var prevLength: nat
    var matchAvailable: bool
    var blockStart: int
    var lastLit: nat
    var highWater: nat
    /** The input not read yet: next_in, avail_in bytes of it. */
    var nextIn: seq<bv8>
    /** status == FINISH_STATE. */
    var finished: bool
    /** Whether there is room for output after each flush to come. */
    var room: seq<bool>
    /** All bytes read, how many of them lie before the window, and the strings inserted, all below top. */
    ghost var data: seq<bv8>
    ghost var base: nat
    ghost var ins: set<int>
    ghost var top: int
    /** The tokens of the blocks that are flushed. */
    ghost var sent: seq<Token>
    /** What the matcher saw before each of its steps so far. */
    ghost var trace: seq<Sight>

    /** deflateInit2_ and lm_init. */
    constructor (level: nat, windowBits: nat, memLevel: nat, strategy: Strategy, room: seq<bool>)
      requires 1 <= level <= 9 && 8 <= windowBits <= 15 && 1 <= memLevel <= 9
      ensures Valid() && Stream() == [] && Tokens() == [] && fresh(this) && this.room == room
      ensures this.level == level && this.strategy == strategy && wSize == WindowSize(windowBits)
    {
      hide Valid, Expand, Configuration;
      this.level, this.memLevel, this.strategy, this.room := level, memLevel, strategy, room;
      wSize := WindowSize(windowBits);
      litBufsize := HashSize(memLevel) / 2;
      window := new bv8[2 * WindowSize(windowBits)];
      head := new int[HashSize(memLevel)](_ => 0);
      prev := new int[WindowSize(windowBits)];
      dBuf := new nat[HashSize(memLevel) / 2];
      lBuf := new nat[HashSize(memLevel) / 2];
      insH, strstart, matchStart, lookahead, insert := 0, 0, 0, 0, 0;
      matchLength, prevMatch, prevLength, matchAvailable := MIN_MATCH - 1, 0, MIN_MATCH - 1, false;
      blockStart, lastLit, highWater, nextIn, finished := 0, 0, 0, [], false;
      data, base, ins, top, sent, trace := [], 0, {}, 0, [], [];
      new;
      NoTokens();
      Begun();
    }

    /** A stream with nothing read and nothing put out. */
    lemma Begun()
      requires Shape() && (forall h :: 0 <= h < head.Length ==> head[h] == 0)
      requires insH == 0 && strstart == matchStart == lookahead == insert == 0 && matchLength == prevLength == MIN_MATCH - 1
      requires !matchAvailable && blockStart == 0 && lastLit == 0 && highWater == 0
      requires data == [] && base == 0 && ins == {} && top == 0 && sent == [] && trace == []
      ensures Valid()
    {
      hide Shows, Expand, Configuration, Chains, AllProper, Run, Puts;
      RunBegins(P());
      ChainsEmpty(data, base, head[..], prev[..], top, 0, wSize, memLevel);
      ShowsNone(window[..], data, base);
      NoTokens();
    }

    lemma NoTokens()
      requires sent == [] && lastLit == 0
      ensures Tokens() == [] && Expand(Tokens()) == [] && AllProper(Tokens(), MaxDist(wSize)) && Expand(sent) == []
    {
    }

    // ----- what every step keeps

    ghost predicate Shape()
    {
      && wSize in {512, 1024, 2048, 4096, 8192, 16384, 32768} && 1 <= memLevel <= 9 && 1 <= level <= 9
      && window.Length == 2 * wSize && head.Length == HashSize(memLevel) && prev.Length == wSize && head != prev
      && 128 <= litBufsize == dBuf.Length == lBuf.Length && dBuf != lBuf
      && window as object != head && window as object != prev && window as object != dBuf && window as object != lBuf
      && head as object != dBuf && head as object != lBuf && prev as object != dBuf && prev as object != lBuf
    }

    /** The window shows the data up to position e. */
    ghost predicate Shown(e: nat)
      reads this`data, this`base, window
    {
      window.Length == 2 * wSize && Shows(window[..], data, base, e)
    }

    /** The window shows the data, up to the end of what has been read. */
    ghost predicate Win()
      reads this`strstart, this`lookahead, this`data, this`base, window
    {
      base + strstart + lookahead == |data| && Shown(strstart + lookahead)
    }

    /** The chains are right as of strstart. */
    ghost predicate Linked()
      reads this`strstart, this`data, this`base, this`ins, this`top, head, prev
    {
      Chains(data, base, ins, head[..], prev[..], top, strstart, wSize, memLevel)
    }

    /** Strings still to be inserted late lie beyond those that are. */
    ghost predicate Late()
      reads this`strstart, this`insert, this`base, this`top
    {
      insert <= 2 && insert <= strstart && top <= base + strstart - insert
    }

    /** The rolling hash has taken in the two bytes at strstart, whenever there are enough for a string. */
    ghost predicate Rolling()
      reads this`insH, this`strstart, this`lookahead, this`insert, window
    {
      lookahead >= MIN_MATCH ==> insert == 0 && Rolled(window[..], insH, strstart, memLevel)
    }

    /** The bytes that a search may look at, read or zeroed. */
    ghost predicate Wet()
      reads this`strstart, this`lookahead, this`highWater
    {
      lookahead > 0 ==> highWater >= 2 * wSize || highWater >= strstart + lookahead + WIN_INIT
    }

    /** What the matcher can see. */
    ghost function Now(): Sight
      reads this`data, this`base, this`strstart, this`ins, this`insert, this`matchLength, this`matchStart, this`matchAvailable
    {
      Sight(data, base, strstart, ins, insert, if matchLength < MIN_MATCH then 2 else matchLength,
            if matchLength < MIN_MATCH then 0 else U32(strstart - 1 - matchStart), matchAvailable)
    }

    function P(): Setting { Setting(level, strategy, wSize, memLevel) }

    // ----- filling the window

    /** slide_hash. */
    method SlideHash()
      requires Shape()
      modifies head, prev
      ensures head[..] == SlideAll(old(head[..]), wSize) && prev[..] == SlideAll(old(prev[..]), wSize)
    {
      SlideTable(head);
      SlideTable(prev);
    }

    method SlideTable(t: array<int>)
      modifies t
      ensures t[..] == SlideAll(old(t[..]), wSize)
    {
      ghost var s := t[..];
      var n := t.Length;
      while n > 0
        invariant 0 <= n <= t.Length && forall i :: 0 <= i < n ==> t[i] == s[i]
        invariant forall i :: n <= i < t.Length ==> t[i] == Slide(s[i], wSize)
      {
        n := n - 1;
        var m := t[n];
        t[n] := if m >= wSize then m - wSize else 0;
      }
    }

    /** zmemcpy of n bytes from the upper half to the start of the window. */
    method MoveDown(n: nat)
      requires window.Length == 2 * wSize && n <= wSize
      modifies window
      ensures window[..n] == old(window[wSize..wSize + n])
    {
      ghost var win := window[..];
      for i := 0 to n
        invariant forall k :: 0 <= k < i ==> window[k] == win[wSize + k]
        invariant forall k :: i <= k < window.Length ==> window[k] == win[k]
      {
        window[i] := window[wSize + i];
      }
    }

    /** The window's upper half moves down. */
    method SlideWindow(more: nat)
      requires Shape() && Win() && Linked() && Late() && matchStart < WORD && strstart + lookahead <= 2 * wSize
      requires more == 2 * wSize - lookahead - strstart && strstart >= wSize + MaxDist(wSize)
      modifies this`strstart, this`matchStart, this`blockStart, this`base, window, head, prev
      ensures Win() && Linked() && Late() && matchStart < WORD
      ensures base == old(base) + wSize && strstart == old(strstart) - wSize
      ensures base + blockStart == old(base + blockStart)
      ensures U32(strstart - 1 - matchStart) == old(U32(strstart - 1 - matchStart))
      ensures old(Rolling()) ==> Rolling()
    {
      hide HashAt, Chains, Kept, Hash2, SlideAll, Shows, Rolled;
      ghost var win, n, rolling, hd, pv := window[..], strstart + lookahead, Rolling(), head[..], prev[..];
      ChainsSlide(data, base, ins, hd, pv, top, strstart, wSize, memLevel);
      MoveDown(wSize - more);
      assert window[..][..n - wSize] == win[wSize..n];
      ShowsSlid(win, window[..], data, base, n, wSize);
      assert head[..] == hd && prev[..] == pv;
      if rolling && lookahead >= MIN_MATCH {
        SlidRolled(win, window[..], insH, strstart, memLevel, n, wSize);
      }
      SlideWord(strstart - 1, matchStart, wSize);
      matchStart := U32(matchStart - wSize);
      strstart := strstart - wSize;
      blockStart := blockStart - wSize;
      base := base + wSize;
      SlideHash();
    }

    /** read_buf, at the end of what the window shows. */
    method ReadBuf(more: nat) returns (n: nat)
      requires Shape() && Win() && Linked() && strstart + lookahead + more <= 2 * wSize
      modifies this`nextIn, this`data, this`lookahead, window
      ensures n == (if |old(nextIn)| < more then |old(nextIn)| else more)
      ensures data == old(data) + old(nextIn)[..n] && nextIn == old(nextIn)[n..] && lookahead == old(lookahead) + n
      ensures Win() && Linked()
    {
      hide Shows, Chains;
      n := if |nextIn| < more then |nextIn| else more;
      ghost var win, hd, pv := window[..], head[..], prev[..];
      var e, bytes := strstart + lookahead, nextIn[..n];
      Deposit(e, bytes);
      assert window[..][..e] == win[..e] && window[..][e..e + n] == bytes;
      ShowsMore(win, window[..], data, bytes, base, e);
      assert head[..] == hd && prev[..] == pv;
      ChainsGrow(data, bytes, base, ins, hd, pv, top, strstart, wSize, memLevel);
      data := data + bytes;
      nextIn := nextIn[n..];
      lookahead := lookahead + n;
    }

    /** zmemcpy of bytes to position e of the window. */
    method Deposit(e: nat, bytes: seq<bv8>)
      requires e + |bytes| <= window.Length
      modifies window
      ensures window[..e] == old(window[..e]) && window[e..e + |bytes|] == bytes
    {
      ghost var win := window[..];
      for i := 0 to |bytes|
        invariant forall k :: 0 <= k < e ==> window[k] == win[k]
        invariant forall k :: 0 <= k < i ==> window[e + k] == bytes[k]
      {
        window[e + i] := bytes[i];
      }
    }

    /** UPDATE_HASH and the two links of INSERT_STRING. */
    method InsertString(at: nat, ghost e: nat) returns (matchHead: int)
      requires Shape() && Shown(e) && Linked() && top <= base + at && at <= strstart && at + 3 <= e
      requires Rolled(window[..], insH, at, memLevel)
      modifies this`insH, this`ins, this`top, head, prev
      ensures Linked() && Shown(e) && top == base + at + 1 && ins == old(ins) + {base + at}
      ensures Rolled(window[..], insH, at + 1, memLevel)
      ensures Fine(data, base, old(ins), matchHead, HashAt(data, base + at, memLevel), strstart, at, wSize, memLevel)
      ensures Latest(data, base, old(ins), matchHead, HashAt(data, base + at, memLevel), strstart, 2 * wSize + 1, wSize, memLevel)
    {
      hide Latest, Shows, Chains, HashAt, Update, Rolled, Fine, HashSize, MaxDist, Shown, Linked;
      ghost var hd, pv := head[..], prev[..];
      ShownEnd(e);
      Chained();
      Inserting(window[..], data, base, ins, hd, pv, top, strstart, at, e, wSize, memLevel, insH);
      insH := Update(memLevel, insH, window[at + 2]);
      matchHead := head[insH as int];
      prev[at % wSize] := matchHead;
      head[insH as int] := at;
      assert head[..] == hd[insH as int := at] && prev[..] == pv[at % wSize := matchHead];
      ins := ins + {base + at};
      top := base + at + 1;
      Chained();
    }

    lemma Chained()
      ensures Linked() <==> Chains(data, base, ins, head[..], prev[..], top, strstart, wSize, memLevel)
    {
      hide Chains;
    }

    /** The hash restarts at the strings not inserted yet, and they are inserted as far as they are complete. */
    method HashInput()
      requires Shape() && Win() && Linked() && Late()
      modifies this`insH, this`insert, this`ins, this`top, head, prev
      ensures Linked() && Win() && Late() && Rolling()
      ensures ins == old(ins) + MatcherSteps.Late(data, base + strstart, old(insert))
      ensures insert == StillLate(data, base + strstart, old(insert))
    {
      hide Shows, Chains, HashAt, Update, Rolled, Fine, Strings, Latest, StillLate;
      ghost var a, k := base + strstart, insert;
      if lookahead + insert >= MIN_MATCH {
        var str := strstart - insert;
        WindowEnd();
        insH := window[str] as word;
        insH := Update(memLevel, insH, window[str + 1]);
        Restarted(window[..], str, memLevel);
        InsertLate(str);
        AllLate(old(ins), k);
      } else {
        NothingLate(data, a, insert);
      }
    }

    /** The strings not inserted yet, as far as they are complete. */
    method InsertLate(start: nat)
      requires Shape() && Win() && Linked() && Late() && Rolled(window[..], insH, start, memLevel)
      requires start + insert == strstart && lookahead + insert >= MIN_MATCH
      modifies this`insH, this`insert, this`ins, this`top, head, prev
      ensures Linked() && Win() && Late() && Rolling()
      ensures insert <= old(insert) && (insert > 0 ==> lookahead + insert < MIN_MATCH) && lookahead + insert >= MIN_MATCH - 1
      ensures ins == old(ins) + Strings(data, base + start, old(insert) - insert)
    {
      hide Shows, Chains, HashAt, Update, Rolled, Fine, Strings, Latest;
      ghost var k := insert;
      var str := start;
      NoStrings(data, base + start);
      while insert > 0
        invariant str + insert == strstart && insert <= k && str + 2 <= strstart + lookahead
        invariant Win() && Linked() && Late() && Rolled(window[..], insH, str, memLevel)
        invariant insert > 0 ==> lookahead + insert >= MIN_MATCH
        invariant ins == old(ins) + Strings(data, base + start, k - insert)
      {
        var _ := InsertString(str, strstart + lookahead);
        StringsNext(data, base + start, k - insert);
        str := str + 1;
        insert := insert - 1;
        if lookahead + insert < MIN_MATCH { break; }
      }
    }

    lemma AllLate(before: set<int>, k: nat)
      requires Win() && insert <= k <= strstart && (insert > 0 ==> lookahead + insert < MIN_MATCH)
      requires lookahead + insert >= MIN_MATCH - 1
      requires ins == before + Strings(data, base + strstart - k, k - insert)
      ensures ins == before + MatcherSteps.Late(data, base + strstart, k) && insert == StillLate(data, base + strstart, k)
    {
      hide Strings;
      var a := base + strstart;
      StringsSplit(data, a - k, k - insert, insert);
      if insert > 0 { Incomplete(data, a - insert, insert); } else { NoStrings(data, a); }
    }

    lemma Sizes()
      requires Shape()
      ensures window.Length == 2 * wSize && prev.Length == wSize && 512 <= wSize <= 32768
      ensures window as object != head && window as object != prev
      ensures dBuf.Length == lBuf.Length == litBufsize >= 128
      ensures dBuf as object != window && dBuf as object != head && dBuf as object != prev
      ensures lBuf as object != window && lBuf as object != head && lBuf as object != prev
    {
    }

    lemma ShownEnd(e: nat)
      requires Shown(e)
      ensures e <= window.Length == 2 * wSize && Shows(window[..], data, base, e)
    {
    }

    lemma WindowEnd()
      requires Win()
      ensures strstart + lookahead <= window.Length == 2 * wSize
    {
    }

    /** WIN_INIT bytes after the data are zeroed the first time that a search can reach them. */
    method ZeroAhead()
      requires Shape() && Win()
      modifies this`highWater, window
      ensures Win() && Wet() && (old(Rolling()) ==> Rolling()) && (old(Linked()) ==> Linked())
    {
      hide Shows, Rolled, Chains;
      WindowEnd();
      ghost var win, hd, pv := window[..], head[..], prev[..];
      if highWater < 2 * wSize {
        var curr := strstart + lookahead;
        if highWater < curr {
          var init := 2 * wSize - curr;
          if init > WIN_INIT { init := WIN_INIT; }
          Deposit(curr, seq(init, _ => 0));
          highWater := curr + init;
        } else if highWater < curr + WIN_INIT {
          var init := curr + WIN_INIT - highWater;
          if init > 2 * wSize - highWater { init := 2 * wSize - highWater; }
          Deposit(highWater, seq(init, _ => 0));
          assert window[..curr] == window[..highWater][..curr];
          highWater := highWater + init;
        }
        assert window[..][..curr] == win[..curr];
        ShowsSame(win, window[..], data, base, curr);
        assert head[..] == hd && prev[..] == pv;
        if old(Rolling()) && lookahead >= MIN_MATCH {
          assert win[..curr][strstart] == win[strstart] && win[..curr][strstart + 1] == win[strstart + 1];
          RolledSame(win, window[..], insH, strstart, strstart, memLevel);
        }
      }
    }

    /** One turn of fill_window: slide if the window is nearly full, and read what there is room for. */
    method FillStep() returns (more: nat)
      requires Shape() && Win() && Linked() && Late() && matchStart < WORD && lookahead < MIN_LOOKAHEAD
      modifies this`strstart, this`lookahead, this`base, this`data, this`nextIn, this`matchStart, this`blockStart, this`insH,
        this`insert, this`ins, this`top, window, head, prev
      ensures Win() && Linked() && Late() && matchStart < WORD && (old(Rolling()) ==> Rolling())
      ensures old(nextIn) != [] ==> |nextIn| < |old(nextIn)|
      ensures old(data) <= data && data + nextIn == old(data + nextIn) && lookahead >= old(lookahead)
      ensures base + strstart == old(base + strstart) && base + blockStart == old(base + blockStart)
      ensures U32(strstart - 1 - matchStart) == old(U32(strstart - 1 - matchStart))
      ensures strstart <= 2 * wSize - MIN_LOOKAHEAD && (old(strstart) > 0 ==> strstart > 0)
      ensures Filled(wSize, old(Now()), Now())
    {
      hide Shows, Chains, Rolled, Slide, Win, Linked, Rolling, U32, MatcherSteps.Late, StillLate;
      WindowEnd();
      more := 2 * wSize - lookahead - strstart;
      if strstart >= wSize + MaxDist(wSize) {
        SlideWindow(more);
        more := more + wSize;
      }
      if nextIn == [] { return; }
      assert more >= 2;
      ghost var d, x := data, nextIn;
      var n := ReadBuf(more);
      assert d + x == (d + x[..n]) + x[n..];
      HashInput();
    }

    /** fill_window: at least MIN_LOOKAHEAD bytes ahead, if there is that much input. */
    method FillWindow()
      requires Shape() && Win() && Linked() && Late() && matchStart < WORD && lookahead < MIN_LOOKAHEAD
      modifies this`strstart, this`lookahead, this`base, this`data, this`nextIn, this`matchStart, this`blockStart, this`insH,
        this`insert, this`highWater, this`ins, this`top, window, head, prev
      ensures Win() && Linked() && Late() && Wet() && matchStart < WORD && (old(Rolling()) ==> Rolling())
      ensures old(data) <= data && data + nextIn == old(data + nextIn) && lookahead >= old(lookahead)
      ensures lookahead >= MIN_LOOKAHEAD || nextIn == []
      ensures base + strstart == old(base + strstart) && base + blockStart == old(base + blockStart)
      ensures U32(strstart - 1 - matchStart) == old(U32(strstart - 1 - matchStart))
      ensures strstart <= 2 * wSize - MIN_LOOKAHEAD && (old(strstart) > 0 ==> strstart > 0)
      ensures Filled(wSize, old(Now()), Now())
    {
      hide Shows, Chains, Rolled, Slide, Win, Linked, Rolling, U32, Wet, Late, Shape, Filled;
      var _ := FillStep();
      while lookahead < MIN_LOOKAHEAD && nextIn != []
        invariant Win() && Linked() && Late() && matchStart < WORD && (old(Rolling()) ==> Rolling())
        invariant old(data) <= data && data + nextIn == old(data + nextIn) && old(lookahead) <= lookahead
        invariant base + strstart == old(base + strstart) && base + blockStart == old(base + blockStart)
        invariant U32(strstart - 1 - matchStart) == old(U32(strstart - 1 - matchStart))
        invariant strstart <= 2 * wSize - MIN_LOOKAHEAD && (old(strstart) > 0 ==> strstart > 0)
        invariant Filled(wSize, old(Now()), Now())
        decreases |nextIn|
      {
        ghost var s := Now();
        var _ := FillStep();
        FilledTwice(wSize, old(Now()), s, Now());
      }
      ghost var s := Now();
      ZeroAhead();
      assert Now() == s;
    }

    // ----- searching

    /** In reach, and with the hash of the string at strstart. */
    ghost predicate Candidate(cur: int)
      reads this`strstart, this`data, this`base, this`ins
    {
      && Limit(strstart, wSize) < cur < strstart && base + cur in ins
      && HashAt(data, base + cur, memLevel) == HashAt(data, base + strstart, memLevel)
    }

    /** The next link of a candidate is a candidate, or out of reach. */
    lemma NextCandidate(cur: nat)
      requires Shape() && Linked() && Candidate(cur)
      ensures var v := prev[cur % wSize]; v >= 0 && (v > Limit(strstart, wSize) ==> Candidate(v))
    {
      hide HashAt, Chains;
      LinkFine(data, base, ins, head[..], prev[..], top, strstart, wSize, memLevel, cur);
    }

    /** Two bytes and the hash agree, so the third byte does. */
    lemma ThirdAgrees(cur: nat)
      requires Shape() && Win() && Linked() && Candidate(cur) && lookahead >= MIN_MATCH
      requires window[cur] == window[strstart] && window[cur + 1] == window[strstart + 1]
      ensures window[cur + 2] == window[strstart + 2]
    {
      hide Hash3;
      var p, q := base + cur, base + strstart;
      assert InsertedOk(data, base, ins, top);
      assert p + 3 <= |data| && q + 3 <= |data|;
      ThreeShown(window[..], data, base, strstart + lookahead, cur);
      ThreeShown(window[..], data, base, strstart + lookahead, strstart);
      SameHash(memLevel, data[p], data[p + 1], data[p + 2], data[q + 2]);
    }

    /** One candidate: whether it can be a longer match, and how long it is. */
    method TryMatch(cur: nat, scanEnd1: bv8, scanEnd: bv8, bestLen: nat) returns (len: nat)
      requires Shape() && Win() && Linked() && Candidate(cur) && lookahead >= MIN_MATCH && 1 <= bestLen <= MAX_MATCH
      requires strstart + MAX_MATCH < 2 * wSize
      requires scanEnd1 == window[strstart + bestLen - 1] && scanEnd == window[strstart + bestLen]
      ensures len == 0 || (MIN_MATCH <= len <= MAX_MATCH && SameBytes(window[..], strstart, cur, len))
      ensures NoLonger(window[..], strstart, cur, if len > bestLen then len else bestLen)
    {
      hide Shows, Chains, HashAt, NoLonger, SameBytes;
      if window[cur + bestLen] != scanEnd || window[cur + bestLen - 1] != scanEnd1
         || window[cur] != window[strstart] || window[cur + 1] != window[strstart + 1] {
        Skipped(cur, bestLen);
        return 0;
      }
      ThirdAgrees(cur);
      len := 3;
      ThreeSame(window[..], strstart, cur);
      while window[strstart + len] == window[cur + len] && len < MAX_MATCH
        invariant 3 <= len <= MAX_MATCH && SameBytes(window[..], strstart, cur, len)
        decreases MAX_MATCH - len
      {
        OneMoreSame(window[..], strstart, cur, len);
        len := len + 1;
      }
      Parted(cur, len, bestLen);
    }

    /** What is skipped is no longer than the best so far. */
    lemma Skipped(cur: nat, bestLen: nat)
      requires Shape() && cur < strstart && strstart + MAX_MATCH < 2 * wSize && 1 <= bestLen <= MAX_MATCH
      requires window[cur + bestLen] != window[strstart + bestLen] || window[cur + bestLen - 1] != window[strstart + bestLen - 1]
               || window[cur] != window[strstart] || window[cur + 1] != window[strstart + 1]
      ensures NoLonger(window[..], strstart, cur, bestLen)
    {
      hide NoLonger;
      var k := if window[cur] != window[strstart] then 0 else if window[cur + 1] != window[strstart + 1] then 1
               else if window[cur + bestLen - 1] != window[strstart + bestLen - 1] then bestLen - 1 else bestLen;
      PartAt(window[..], strstart, cur, k);
      LongerYet(window[..], strstart, cur, k, bestLen);
    }

    lemma Parted(cur: nat, len: nat, bestLen: nat)
      requires Shape() && cur < strstart && strstart + MAX_MATCH < 2 * wSize && len <= MAX_MATCH
      requires len < MAX_MATCH ==> window[strstart + len] != window[cur + len]
      ensures NoLonger(window[..], strstart, cur, if len > bestLen then len else bestLen)
    {
      hide SameBytes;
      if len < MAX_MATCH { PartAt(window[..], strstart, cur, len); }
    }

    /** The best match so far: none better than prev_length, or one at match_start. */
    ghost predicate Best(n: nat)
      reads this`prevLength, this`matchStart, this`strstart, this`data, this`base, this`ins, window
    {
      && prevLength <= n <= MAX_MATCH && matchStart < WORD
      && (n > prevLength ==> Candidate(matchStart) && SameBytes(window[..], strstart, matchStart, n))
    }

    lemma BestRange(n: nat)
      requires Best(n)
      ensures prevLength <= n <= MAX_MATCH && matchStart < WORD
      ensures n > prevLength ==> Candidate(matchStart) && SameBytes(window[..], strstart, matchStart, n)
    {
    }

    /** How many bytes the string has in common with that at a place in the window. */
    ghost function InCommon(cur: int): nat
      reads this`strstart, this`lookahead, this`data, this`base
    {
      Common(data, base + strstart, base + cur, Most(lookahead))
    }

    /** What TryMatch finds is what they have in common, as far as it is more than the best so far. */
    lemma TriedCommon(cur: nat, bestLen: nat, n: nat)
      requires Win() && cur < strstart && (n == 0 || SameBytes(window[..], strstart, cur, n))
      requires NoLonger(window[..], strstart, cur, if n > bestLen then n else bestLen)
      ensures if n > bestLen then InCommon(cur) == (if n < Most(lookahead) then n else Most(lookahead)) else InCommon(cur) <= bestLen
    {
      hide Shows, NoLonger, SameBytes, Common;
      if n > bestLen {
        CommonShown(window[..], data, base, strstart + lookahead, strstart, cur, n);
      } else {
        CommonLess(window[..], data, base, strstart + lookahead, strstart, cur, bestLen);
      }
    }

    /** A candidate that is longer than the best so far becomes the best. */
    method Improve(cur: nat, bestLen: nat, scanEnd1: bv8, scanEnd: bv8) returns (n: nat)
      requires Shape() && Win() && Linked() && Candidate(cur) && Best(bestLen) && lookahead >= MIN_MATCH
      requires 2 <= prevLength && strstart + MAX_MATCH < 2 * wSize && bestLen <= MAX_MATCH
      requires Sized() && scanEnd1 == window[strstart + bestLen - 1] && scanEnd == window[strstart + bestLen]
      modifies this`matchStart
      ensures (n > bestLen && Best(n) && matchStart == cur) || (n <= bestLen && Best(bestLen) && matchStart == old(matchStart))
      ensures NoLonger(window[..], strstart, cur, if n > bestLen then n else bestLen) && n <= MAX_MATCH
      ensures if n > bestLen then InCommon(cur) == (if n < Most(lookahead) then n else Most(lookahead)) else InCommon(cur) <= bestLen
    {
      hide Shows, Chains, HashAt, Candidate, SameBytes, Shape, Win, Linked, MaxDist, NoLonger, Common;
      Sizes();
      CandidateRange(cur);
      n := TryMatch(cur, scanEnd1, scanEnd, bestLen);
      TriedCommon(cur, bestLen, n);
      if n > bestLen { matchStart := cur; }
    }

    /** One place of the scan that is no better. */
    lemma ScanOn(cur: nat, rest: seq<int>, nice: nat, best: Found)
      requires InCommon(cur) <= best.len
      ensures ScanFrom([cur] + rest, nice, best) == ScanFrom(rest, nice, best)
    {
      hide Common;
      assert ([cur] + rest)[1..] == rest;
    }

    /** One that is better: the scan goes on with it, unless it is good enough. */
    lemma ScanBetter(cur: nat, rest: seq<int>, nice: nat, best: Found)
      requires InCommon(cur) > best.len
      ensures ScanFrom([cur] + rest, nice, best)
              == if InCommon(cur) >= nice then Found(InCommon(cur), cur) else ScanFrom(rest, nice, Found(InCommon(cur), cur))
    {
      hide Common;
      assert ([cur] + rest)[1..] == rest;
    }

    lemma ScanNone(nice: nat, best: Found)
      ensures ScanFrom([], nice, best) == best
    {
    }

    /** The search stops at a match that is good enough: the scan too, unless all that is ahead was matched before. */
    lemma ScanStops(cur: nat, rest: seq<int>, nice: nat, best: Found, n: nat, r: Found)
      requires r == ScanFrom([cur] + rest, nice, best) && n > best.len && nice <= lookahead && nice <= n <= MAX_MATCH
      requires InCommon(cur) == (if n < Most(lookahead) then n else Most(lookahead)) && matchStart == cur
      requires best.len >= prevLength && (best.len > prevLength ==> best.len < nice)
      ensures Finds(n, r)
    {
      hide Common;
      if InCommon(cur) > best.len { ScanBetter(cur, rest, nice, best); } else { ScanOn(cur, rest, nice, best); }
    }

    ghost predicate Sized() { window.Length == 2 * wSize && prev.Length == wSize && wSize > 0 }

    /** Down the chain, as long as it is in reach and the patience lasts. */
    method Chase(cur0: nat, chain: nat, niceMatch: nat, limit: nat) returns (bestLen: nat)
      requires Shape() && Win() && Linked() && Candidate(cur0) && lookahead >= MIN_MATCH && matchStart < WORD && chain >= 1
      requires 2 <= prevLength <= MAX_MATCH && strstart + MAX_MATCH < 2 * wSize && limit >= Limit(strstart, wSize)
      requires niceMatch <= lookahead && niceMatch <= MAX_MATCH
      modifies this`matchStart
      ensures Best(bestLen) && Finds(bestLen, ScanFrom(Visited(prev[..], cur0, chain, limit), niceMatch, Found(prevLength, 0)))
      ensures bestLen >= niceMatch || NoneLonger(window[..], strstart, Visited(prev[..], cur0, chain, limit), bestLen)
    {
      hide Shows, Chains, HashAt, Candidate, SameBytes, Shape, Win, Linked, MaxDist, Best, Limit, NoLonger, NoneLonger, Visited,
        ScanFrom, InCommon, Most, Finds;
      Sizes();
      SizesHold();
      ghost var r := ScanFrom(Visited(prev[..], cur0, chain, limit), niceMatch, Found(prevLength, 0));
      bestLen := prevLength;
      NoneYet();
      var cur, chainLength := cur0, chain;
      var scanEnd1, scanEnd := window[strstart + bestLen - 1], window[strstart + bestLen];
      ghost var seen, all := [], Visited(prev[..], cur0, chain, limit);
      assert seen + Visited(prev[..], cur, chainLength, limit) == all;
      NoneSeen();
      while true
        invariant cur >= 0 && Candidate(cur) && chainLength >= 1 && Best(bestLen) && prevLength <= bestLen <= MAX_MATCH
        invariant scanEnd1 == window[strstart + bestLen - 1] && scanEnd == window[strstart + bestLen]
        invariant seen + Visited(prev[..], cur, chainLength, limit) == all && NoneLonger(window[..], strstart, seen, bestLen)
        invariant r == ScanFrom(Visited(prev[..], cur, chainLength, limit), niceMatch, Lead(bestLen))
        invariant bestLen > prevLength ==> bestLen < niceMatch
        decreases chainLength
      {
        ghost var before := Lead(bestLen);
        var n := Improve(cur, bestLen, scanEnd1, scanEnd);
        NoneLongerMore(window[..], strstart, seen, cur, bestLen, if n > bestLen then n else bestLen);
        ghost var rest := VisitedFirst(prev[..], cur, chainLength, limit, seen);
        seen := seen + [cur];
        if n > bestLen {
          if n >= niceMatch { ScanStops(cur, rest, niceMatch, before, n, r); } else { ScanGoesOn(cur, rest, niceMatch, before, n); }
          bestLen := n;
          if n >= niceMatch { break; }
          BestRange(n);
          scanEnd1, scanEnd := window[strstart + bestLen - 1], window[strstart + bestLen];
        } else {
          ScanOn(cur, rest, niceMatch, before);
        }
        NextCandidate(cur);
        cur := prev[cur % wSize];
        if cur <= limit { ScanEnds(seen, niceMatch, bestLen, r); break; }
        chainLength := chainLength - 1;
        if chainLength == 0 { ScanEnds(seen, niceMatch, bestLen, r); break; }
      }
    }

    /** What is better but not good enough is all ahead. */
    lemma ScanGoesOn(cur: nat, rest: seq<int>, nice: nat, best: Found, n: nat)
      requires n > best.len && n < nice <= lookahead && nice <= MAX_MATCH
      requires InCommon(cur) == (if n < Most(lookahead) then n else Most(lookahead))
      ensures ScanFrom([cur] + rest, nice, best) == ScanFrom(rest, nice, Found(n, cur))
    {
      hide InCommon;
      ScanBetter(cur, rest, nice, best);
    }

    lemma ScanEnds(seen: seq<int>, nice: nat, n: nat, r: Found)
      requires r == ScanFrom([], nice, Lead(n)) && n >= prevLength && (n > prevLength ==> n < nice) && nice <= lookahead
      ensures seen + [] == seen && Finds(n, r)
    {
      ScanNone(nice, Lead(n));
    }

    lemma SizesHold()
      requires Shape()
      ensures Sized()
    {
    }

    lemma NoneSeen()
      ensures NoneLonger(window[..], strstart, [], prevLength)
    {
    }

    /** What is visited lies in reach. */
    lemma {:induction false} VisitedInReach(cur: int, chain: nat, limit: nat)
      requires Shape() && Linked() && Candidate(cur) && limit >= Limit(strstart, wSize)
      ensures forall i :: 0 <= i < |Visited(prev[..], cur, chain, limit)| ==> 0 <= Visited(prev[..], cur, chain, limit)[i] < strstart
      decreases chain
    {
      hide Chains, HashAt, Limit, Candidate;
      CandidateRange(cur);
      if chain > 0 {
        NextCandidate(cur);
        var next := prev[cur % wSize];
        if next > limit { VisitedInReach(next, chain - 1, limit); }
      }
    }

    lemma NoneYet()
      requires matchStart < WORD && prevLength <= MAX_MATCH
      ensures Best(prevLength)
    {
    }

    /** How many links are followed, and how long a match is good enough. */
    function Patience(): nat
      reads this`prevLength
    {
      MatcherSteps.Patience(level, prevLength)
    }

    function Nice(): nat
      reads this`lookahead
    {
      MatcherSteps.Nice(level, lookahead)
    }

    function Nearest(): nat
      reads this`strstart
    {
      MatcherSteps.Nearest(strstart, wSize)
    }

    /** What a search from cur on comes to. */
    ghost function Sought(cur: nat): Found
      reads this`strstart, this`lookahead, this`data, this`base, this`prevLength, prev
    {
      ScanFrom(Visited(prev[..], cur, Patience(), Nearest()), Nice(), Found(prevLength, 0))
    }

    /** And what it comes to from some of the places on. */
    ghost function ScanFrom(places: seq<int>, nice: nat, best: Found): Found
      reads this`strstart, this`lookahead, this`data, this`base
    {
      Scan(data, base + strstart, base, places, Most(lookahead), nice, best)
    }

    /** The best so far, as the scan counts it. */
    ghost function Lead(n: nat): Found
      reads this`prevLength, this`matchStart
    {
      Found(n, if n > prevLength then matchStart else 0)
    }

    /** A search has come to a match of n bytes, of which those ahead count: it is what the scan finds. */
    ghost predicate Finds(n: nat, r: Found)
      reads this`prevLength, this`matchStart, this`lookahead
    {
      var len := if n < lookahead then n else lookahead;
      len == (if r.len < lookahead then r.len else lookahead) && (len > prevLength ==> r == Found(len, matchStart))
    }

    /** longest_match: a length that is more than prev_length only for a match of that length at match_start; and unless that is
        good enough, no place visited has a longer one. */
    method LongestMatch(cur: nat) returns (len: nat)
      requires Shape() && Win() && Linked() && Wet() && Candidate(cur) && lookahead >= MIN_MATCH
      requires 2 <= prevLength <= MAX_MATCH && strstart + MAX_MATCH < 2 * wSize && matchStart < WORD
      modifies this`matchStart
      ensures 2 <= len <= lookahead && len <= MAX_MATCH && matchStart < WORD
      ensures len > prevLength ==> 1 <= strstart - matchStart <= MaxDist(wSize)
      ensures len > prevLength ==> Repeats(data, base + strstart, strstart - matchStart, len)
      ensures Finds(len, Sought(cur))
      ensures len >= Nice()
              || Longest(data, base + strstart, lookahead, Visited(prev[..], cur, Patience(), Nearest()), strstart, len)
    {
      hide Shows, Chains, HashAt, Candidate, SameBytes, Linked, Win, Repeats, Best, NoneLonger, Longest, Visited, ScanFrom;
      // what is looked at has been written
      assert strstart + MAX_MATCH < highWater;
      var chainLength := Configuration(level).chain;
      var niceMatch := Configuration(level).nice;
      var limit := if strstart > MaxDist(wSize) then strstart - MaxDist(wSize) else 0;
      if prevLength >= Configuration(level).good { chainLength := chainLength / 4; }
      if niceMatch > lookahead { niceMatch := lookahead; }
      var bestLen := Chase(cur, chainLength, niceMatch, limit);
      BestRange(bestLen);
      len := if bestLen <= lookahead then bestLen else lookahead;
      if bestLen < niceMatch { NothingLonger(cur, bestLen); }
      if bestLen > prevLength {
        CandidateRange(matchStart);
        FoundMatch(bestLen, len);
      }
    }

    lemma NothingLonger(cur: nat, bestLen: nat)
      requires Shape() && Win() && Linked() && Candidate(cur)
      requires NoneLonger(window[..], strstart, Visited(prev[..], cur, Patience(), Nearest()), bestLen)
      ensures Longest(data, base + strstart, lookahead, Visited(prev[..], cur, Patience(), Nearest()), strstart, bestLen)
    {
      hide Shows, Linked, Candidate, NoneLonger, Longest, Visited, Configuration;
      VisitedInReach(cur, Patience(), Nearest());
      LongestShown(window[..], data, base, strstart + lookahead, strstart, Visited(prev[..], cur, Patience(), Nearest()), bestLen);
    }

    lemma FoundMatch(n: nat, len: nat)
      requires Win() && SameBytes(window[..], strstart, matchStart, n) && len <= n && len <= lookahead && matchStart < strstart
      ensures Repeats(data, base + strstart, strstart - matchStart, len)
    {
      hide SameBytes, Repeats, Shows;
      FoundRepeats(window[..], data, base, strstart + lookahead, strstart, matchStart, n, len);
    }

    lemma CandidateRange(cur: int)
      requires Candidate(cur)
      ensures 0 <= cur < strstart && strstart - cur <= MaxDist(wSize)
    {
      hide HashAt;
    }

    // ----- the tokens

    /** The tokens put out: those of finished blocks, and those in d_buf and l_buf. */
    ghost function Tokens(): seq<Token>
      reads this`sent, this`lastLit, dBuf, lBuf
    {
      sent + Buffered(dBuf[..], lBuf[..], lastLit)
    }

    /** The tokens stand for the data up to position e of the window, and the finished blocks up to block_start. */
    ghost predicate Out(e: int)
      reads this`sent, this`lastLit, dBuf, lBuf, this`base, this`data, this`blockStart
    {
      && 0 <= base + e <= |data| && Expand(Tokens()) == data[..base + e] && AllProper(Tokens(), MaxDist(wSize))
      && |Expand(sent)| == base + blockStart && blockStart <= e
    }

    method TallyLit(c: bv8, ghost e: nat) returns (bflush: bool)
      requires Shape() && Out(e) && lastLit < litBufsize - 1 && base + e < |data| && data[base + e] == c
      modifies this`lastLit, dBuf, lBuf
      ensures Out(e + 1) && lastLit == old(lastLit) + 1 && bflush == (lastLit == litBufsize - 1)
      ensures Tokens() == old(Tokens()) + [Literal(data, base + e)]
    {
      hide Expand;
      ghost var ts, d, l := Tokens(), dBuf[..], lBuf[..];
      dBuf[lastLit] := 0;
      lBuf[lastLit] := c as nat;
      BufferedMore(d, l, lastLit, dBuf[..], lBuf[..]);
      assert sent + (Buffered(d, l, lastLit) + [Token(0, c as nat)]) == ts + [Token(0, c as nat)];
      lastLit := lastLit + 1;
      ByteBack(c);
      ProperMore(ts, Token(0, c as nat), MaxDist(wSize));
      LiteralToken(ts, data, base + e, c as nat);
      bflush := lastLit == litBufsize - 1;
    }

    /** The distance and length - 3 go into 16 and 8 bits, which they fit. */
    method TallyDist(distance: nat, length: nat, ghost e: nat) returns (bflush: bool)
      requires Shape() && Out(e) && lastLit < litBufsize - 1 && distance <= MaxDist(wSize) && length + MIN_MATCH <= MAX_MATCH
      requires Repeats(data, base + e, distance, length + MIN_MATCH)
      modifies this`lastLit, dBuf, lBuf
      ensures Out(e + length + MIN_MATCH) && lastLit == old(lastLit) + 1 && bflush == (lastLit == litBufsize - 1)
      ensures Tokens() == old(Tokens()) + [Token(distance, length)]
    {
      hide Expand;
      ghost var ts, d, l := Tokens(), dBuf[..], lBuf[..];
      dBuf[lastLit] := distance % 65536;
      lBuf[lastLit] := length % 256;
      BufferedMore(d, l, lastLit, dBuf[..], lBuf[..]);
      ghost var t := Token(distance, length);
      assert sent + (Buffered(d, l, lastLit) + [t]) == ts + [t];
      lastLit := lastLit + 1;
      MatchToken(ts, data, base + e, distance, length + MIN_MATCH);
      ProperMore(ts, t, MaxDist(wSize));
      bflush := lastLit == litBufsize - 1;
    }

    /** FLUSH_BLOCK_ONLY: the block's tokens go to _tr_flush_block, with the bytes they stand for when the window still
        has them all. */
    method FlushBlockOnly()
      requires Shape() && Shown(strstart) && Out(strstart)
      modifies this`sent, this`lastLit, this`blockStart
      ensures Out(strstart) && lastLit == 0 && sent == old(Tokens()) == Tokens() && blockStart == strstart
      ensures |sent| == |old(sent)| + old(lastLit)
      ensures old(blockStart) >= 0 ==> |Expand(old(sent))| <= |Expand(sent)| && old(blockStart) <= strstart
      ensures old(blockStart) >= 0 ==> window[old(blockStart)..strstart] == Expand(sent)[|Expand(old(sent))|..]
    {
      hide Expand;
      ghost var before := blockStart;
      sent := Tokens();
      if before >= 0 { BlockBytes(before, old(sent)); }
      lastLit := 0;
      blockStart := strstart;
      assert Buffered(dBuf[..], lBuf[..], 0) == [] && sent + [] == sent;
    }

    lemma BlockBytes(start: nat, before: seq<Token>)
      requires Shown(strstart) && Expand(sent) == data[..base + strstart] && |Expand(before)| == base + start
      requires |Expand(before)| <= |Expand(sent)|
      ensures start <= strstart && window[start..strstart] == Expand(sent)[|Expand(before)|..]
    {
      hide Expand;
      var s, t := window[start..strstart], Expand(sent)[|Expand(before)|..];
      forall i | 0 <= i < |s| ensures s[i] == t[i] { ShowsAt(window[..], data, base, strstart, start + i); }
    }

    /** Whether there is room for more output: a different answer each time. */
    method HasRoom() returns (r: bool)
      modifies this`room
      ensures Answered(old(room), room, !r)
    {
      r := true;
      if room != [] {
        r := room[0];
        room := room[1..];
      }
    }

    // ----- deflate_fast

    /** Between two steps of any matcher. */
    ghost predicate Plain()
      reads this`strstart, this`lookahead, this`data, this`base, this`ins, this`top, this`insert, this`highWater, window, head,
        prev
    {
      Shape() && Win() && Linked() && Late() && Wet()
    }

    /** Between two steps of a matcher that keeps the hash. */
    ghost predicate Ready()
      reads this`strstart, this`lookahead, this`data, this`base, this`ins, this`top, this`insert, this`insH, this`highWater,
        window, head, prev
    {
      Plain() && Rolling()
    }

    /** After the string at strstart has been inserted, if it is complete. */
    ghost predicate Inserted()
      reads this`strstart, this`lookahead, this`insert, this`base, this`top, this`insH, window
    {
      && insert <= 2 && insert <= strstart
      && (lookahead >= MIN_MATCH ==>
            insert == 0 && top == base + strstart + 1 && Rolled(window[..], insH, strstart + 1, memLevel))
      && (lookahead < MIN_MATCH ==> top <= base + strstart - insert)
    }

    /** The string at strstart goes into the table when it is complete; the head before it is a candidate. */
    method InsertHere() returns (hashHead: nat)
      requires Ready() && strstart + MAX_MATCH < 2 * wSize
      modifies this`insH, this`ins, this`top, head, prev
      ensures Win() && Linked() && (hashHead != 0 ==> lookahead >= MIN_MATCH)
      ensures hashHead != 0 && strstart - hashHead <= MaxDist(wSize) ==> Candidate(hashHead)
      ensures Inserted()
      ensures hashHead < strstart || hashHead == 0
      ensures Sees(old(Now()), hashHead) && ins == old(ins) + Strings(data, base + strstart, 1)
    {
      hide Shows, Chains, HashAt, Rolled, Linked, Shown, Latest, Places;
      hashHead := 0;
      ghost var before := Now();
      StringHere(data, base + strstart);
      if lookahead >= MIN_MATCH {
        ghost var old_ins := ins;
        var h := InsertString(strstart, strstart + lookahead);
        HeadCandidate(old_ins, h);
        hashHead := h;
        SeesChain(before, h);
      } else {
        SeesNothing(before);
      }
    }

    /** What was seen before the string at strstart went into the table: the places to search are those that the links lead to. */
    ghost predicate Sees(s: Sight, hashHead: nat)
      reads this`strstart, this`lookahead, this`data, this`base, prev
    {
      && s.data == data && s.base == base && s.str == strstart && s.Ahead() == lookahead && base + strstart + lookahead == |data|
      && forall chain: nat :: Places(P(), s, chain) == Reached(hashHead, chain)
    }

    ghost function Reached(hashHead: nat, chain: nat): seq<int>
      reads this`strstart, prev
    {
      if hashHead != 0 && strstart - hashHead <= MaxDist(wSize) then Visited(prev[..], hashHead, chain, Nearest()) else []
    }

    lemma SeesChain(s: Sight, h: int)
      requires Shape() && Win() && Linked() && lookahead >= MIN_MATCH
      requires s.data == data && s.base == base && s.str == strstart && ins == s.ins + {base + strstart} && h >= 0
      requires Fine(data, base, s.ins, h, HashAt(data, base + strstart, memLevel), strstart, strstart, wSize, memLevel)
      requires Latest(data, base, s.ins, h, HashAt(data, base + strstart, memLevel), strstart, 2 * wSize + 1, wSize, memLevel)
      ensures Sees(s, h)
    {
      hide Shows, Chains, HashAt, Latest, Fine, Places, Visited;
      WindowEnd();
      forall chain: nat ensures Places(P(), s, chain) == Reached(h, chain) {
        PlacesVisited(P(), s, head[..], prev[..], top, h, chain);
      }
    }

    lemma SeesNothing(s: Sight)
      requires Win() && lookahead < MIN_MATCH && s.data == data && s.base == base && s.str == strstart
      ensures Sees(s, 0)
    {
      hide Shows;
    }

    /** Then a search finds what the step is to find. */
    lemma SeesBest(s: Sight, cur: nat)
      requires Sees(s, cur) && cur != 0 && strstart - cur <= MaxDist(wSize)
      ensures BestMatch(P(), s, prevLength) == Sought(cur)
    {
      hide Places, Visited, Scan;
      assert Places(P(), s, Patience()) == Reached(cur, Patience());
    }

    lemma SeesNone(s: Sight, cur: nat, held: nat)
      requires Sees(s, cur) && !(cur != 0 && strstart - cur <= MaxDist(wSize))
      ensures BestMatch(P(), s, held) == Found(held, 0)
    {
      hide Places, Visited;
      assert Places(P(), s, MatcherSteps.Patience(level, held)) == Reached(cur, MatcherSteps.Patience(level, held));
    }

    lemma HeadCandidate(before: set<int>, h: int)
      requires Shape() && ins == before + {base + strstart}
      requires Fine(data, base, before, h, HashAt(data, base + strstart, memLevel), strstart, strstart, wSize, memLevel)
      ensures 0 <= h && (h < strstart || h == 0) && (h != 0 && strstart - h <= MaxDist(wSize) ==> Candidate(h))
    {
      hide HashAt;
    }

    /** Moving on by n bytes that are not inserted. */
    lemma MovedOn(str: nat)
      requires Chains(data, base, ins, head[..], prev[..], top, str, wSize, memLevel) && str <= strstart <= 2 * wSize
      ensures Linked()
    {
      hide HeadsOk, LinksOk;
      ChainsMove(data, base, ins, head[..], prev[..], top, str, top, strstart, wSize, memLevel);
    }

    /** A literal at strstart. */
    method PutLiteral() returns (bflush: bool)
      requires Shape() && Win() && Linked() && Out(strstart) && lastLit < litBufsize - 1 && lookahead > 0 && Wet()
      modifies this`strstart, this`lookahead, this`lastLit, dBuf, lBuf
      ensures Win() && Linked() && Out(strstart) && Wet() && strstart == old(strstart) + 1 && lookahead == old(lookahead) - 1
      ensures lastLit == old(lastLit) + 1 && bflush == (lastLit == litBufsize - 1)
      ensures Tokens() == old(Tokens()) + [Literal(data, base + old(strstart))]
    {
      hide Shows, Chains, Out, Literal;
      WindowEnd();
      ShowsAt(window[..], data, base, strstart + lookahead, strstart);
      ghost var hd, pv, win := head[..], prev[..], window[..];
      bflush := TallyLit(window[strstart], strstart);
      assert head[..] == hd && prev[..] == pv && window[..] == win;
      lookahead := lookahead - 1;
      strstart := strstart + 1;
      MovedOn(strstart - 1);
    }

    /** The strings within a match are inserted, one after the other. */
    method InsertMatch(n: nat, ghost e: nat)
      requires Shape() && Shown(e) && Linked() && top == base + strstart + 1 && 1 <= n
      requires strstart + n + MIN_MATCH <= e && Rolled(window[..], insH, strstart + 1, memLevel)
      modifies this`insH, this`ins, this`top, this`strstart, this`matchLength, head, prev
      ensures strstart == old(strstart) + n && Linked() && top == base + strstart && matchLength == 0
      ensures Shown(e) && Rolled(window[..], insH, strstart, memLevel)
      ensures ins == old(ins) + Strings(data, base + old(strstart) + 1, n - 1)
    {
      hide Shows, Chains, Rolled, Strings, Latest;
      ghost var start := strstart;
      ShownEnd(e);
      NoStrings(data, base + start + 1);
      matchLength := n;
      matchLength := matchLength - 1;
      while matchLength != 0
        invariant 0 <= matchLength < n && strstart + matchLength + 1 == start + n
        invariant Shown(e) && Linked() && top == base + strstart + 1 && Rolled(window[..], insH, strstart + 1, memLevel)
        invariant ins == old(ins) + Strings(data, base + start + 1, n - 1 - matchLength)
        decreases matchLength
      {
        strstart := strstart + 1;
        MovedOn(strstart - 1);
        var _ := InsertString(strstart, e);
        StringsNext(data, base + start + 1, n - 1 - matchLength);
        matchLength := matchLength - 1;
      }
      strstart := strstart + 1;
      MovedOn(strstart - 1);
    }

    /** A match of the string at strstart: its token, and its strings into the table, unless it is too long. */
    method PutMatch() returns (bflush: bool)
      requires Shape() && Win() && Linked() && Wet() && Out(strstart) && lastLit < litBufsize - 1
      requires strstart + MAX_MATCH < 2 * wSize - 1
      requires insert == 0 && top == base + strstart + 1 && Rolled(window[..], insH, strstart + 1, memLevel)
      requires MIN_MATCH <= matchLength <= lookahead && matchLength <= MAX_MATCH
      requires 1 <= strstart - matchStart <= MaxDist(wSize) && Repeats(data, base + strstart, strstart - matchStart, matchLength)
      modifies this`insH, this`ins, this`top, this`strstart, this`lookahead, this`matchLength, this`lastLit, head, prev, dBuf, lBuf
      ensures Ready() && Out(strstart) && base + strstart + lookahead == old(base + strstart + lookahead)
      ensures strstart == old(strstart + matchLength) && matchLength == 0
      ensures lastLit == old(lastLit) + 1 && bflush == (lastLit == litBufsize - 1)
      ensures Tokens() == old(Tokens()) + [Token(old(strstart - matchStart), old(matchLength) - MIN_MATCH)]
      ensures ins == old(ins) + Strings(data, base + old(strstart) + 1, old(InTable()) - 1)
    {
      hide Chains, Out, Rolled, Ready, Repeats, Configuration, Shown, Strings;
      WindowEnd();
      NoStrings(data, base + strstart + 1);
      ghost var hd, pv, win, e := head[..], prev[..], window[..], strstart + lookahead;
      bflush := TallyDist(strstart - matchStart, matchLength - MIN_MATCH, strstart);
      assert head[..] == hd && prev[..] == pv && window[..] == win;
      lookahead := lookahead - matchLength;
      if matchLength <= Configuration(level).lazy && lookahead >= MIN_MATCH {
        InsertMatch(matchLength, e);
      } else {
        SkipMatch(e);
      }
      PastMatch(e);
    }

    /** How many strings of a match go into the table: all of them, or the first, which is there already. */
    ghost function InTable(): nat
      reads this`matchLength, this`lookahead
    {
      if matchLength <= Configuration(level).lazy && lookahead >= matchLength + MIN_MATCH then matchLength else 1
    }

    /** Past the match, with the hash started again. */
    method SkipMatch(ghost e: nat)
      requires Shape() && Shown(e) && Linked() && strstart + matchLength + 1 < 2 * wSize
      modifies this`insH, this`strstart, this`matchLength
      ensures strstart == old(strstart + matchLength) && matchLength == 0 && Linked()
      ensures Rolled(window[..], insH, strstart, memLevel)
    {
      hide Shows, Chains, Rolled, Update, Shown;
      strstart := strstart + matchLength;
      MovedOn(strstart - matchLength);
      matchLength := 0;
      insH := window[strstart] as word;
      insH := Update(memLevel, insH, window[strstart + 1]);
      Restarted(window[..], strstart, memLevel);
    }

    /** After a match everything is ready for the next string. */
    lemma PastMatch(e: nat)
      requires Shape() && Linked() && Shown(e) && e == strstart + lookahead && base + e == |data| && insert == 0
      requires top <= base + strstart && Rolled(window[..], insH, strstart, memLevel)
      requires highWater >= 2 * wSize || highWater >= e + WIN_INIT
      ensures Ready()
    {
      hide Shows, Chains, Rolled, Shown;
    }

    /** One step of deflate_fast: a match or a literal. */
    method FastStep() returns (bflush: bool)
      requires Ready() && Out(strstart) && lastLit < litBufsize - 1 && lookahead > 0 && matchLength < MIN_MATCH
      requires prevLength == MIN_MATCH - 1 && matchStart < WORD && strstart + MAX_MATCH < 2 * wSize - 1
      modifies this`insH, this`ins, this`top, this`strstart, this`lookahead, this`matchLength, this`matchStart, this`lastLit,
        head, prev, dBuf, lBuf
      ensures Ready() && Out(strstart) && base + strstart + lookahead == old(base + strstart + lookahead)
      ensures strstart > old(strstart) && matchLength < MIN_MATCH && matchStart < WORD
      ensures lastLit == old(lastLit) + 1 && bflush == (lastLit == litBufsize - 1)
      ensures Tokens() == old(Tokens()) + Greedy(P(), old(Now())).tokens && Now() == Greedy(P(), old(Now())).after
    {
      hide Plain, Rolling, Inserted, Win, Linked, Wet, Out, Repeats, Strings, Literal, BestMatch, Configuration, Shape, Greedy, Now;
      ghost var s := Now();
      FindMatch();
      if matchLength >= MIN_MATCH {
        bflush := TakeMatch(s);
      } else {
        bflush := TakeByte(s);
      }
    }

    /** What the search has come to is what the step is to find. */
    ghost predicate FoundFor(s: Sight)
      reads this`strstart, this`lookahead, this`data, this`base, this`ins, this`insert, this`matchLength, this`matchStart,
        this`matchAvailable
    {
      && s.data == data && s.base == base && s.str == strstart && s.Ahead() == lookahead && base + strstart + lookahead == |data|
      && ins == s.ins + Strings(data, base + strstart, 1) && s.insert == insert && s.held == 2 && s.dist == 0
      && s.waiting == matchAvailable
      && var f := BestMatch(P(), s, MIN_MATCH - 1);
         if f.len < MIN_MATCH then matchLength < MIN_MATCH else matchLength == f.len <= MAX_MATCH && matchStart == f.at
    }

    method TakeMatch(ghost s: Sight) returns (bflush: bool)
      requires Shape() && Win() && Linked() && Wet() && Inserted() && Out(strstart) && lastLit < litBufsize - 1
      requires strstart + MAX_MATCH < 2 * wSize - 1 && FoundFor(s) && MIN_MATCH <= matchLength <= lookahead
      requires 1 <= strstart - matchStart <= MaxDist(wSize) && Repeats(data, base + strstart, strstart - matchStart, matchLength)
      modifies this`insH, this`ins, this`top, this`strstart, this`lookahead, this`matchLength, this`lastLit, head, prev, dBuf, lBuf
      ensures Ready() && Out(strstart) && base + strstart + lookahead == old(base + strstart + lookahead)
      ensures strstart > old(strstart) && matchLength == 0
      ensures lastLit == old(lastLit) + 1 && bflush == (lastLit == litBufsize - 1)
      ensures Tokens() == old(Tokens()) + Greedy(P(), s).tokens && Now() == Greedy(P(), s).after
    {
      hide Plain, Rolling, Inserted, Win, Linked, Wet, Out, Repeats, Strings, BestMatch, Configuration, Shape, Tokens;
      ghost var n := InTable();
      MatchReady();
      bflush := PutMatch();
      StringsSplit(data, s.At(), 1, n - 1);
      assert (s.ins + Strings(data, s.At(), 1)) + Strings(data, s.At() + 1, n - 1) == s.ins + Strings(data, s.At(), n);
    }

    method TakeByte(ghost s: Sight) returns (bflush: bool)
      requires Shape() && Win() && Linked() && Wet() && Inserted() && Out(strstart) && lastLit < litBufsize - 1
      requires FoundFor(s) && matchLength < MIN_MATCH && lookahead > 0
      modifies this`strstart, this`lookahead, this`lastLit, dBuf, lBuf
      ensures Ready() && Out(strstart) && strstart == old(strstart) + 1 && lookahead == old(lookahead) - 1
      ensures lastLit == old(lastLit) + 1 && bflush == (lastLit == litBufsize - 1)
      ensures Tokens() == old(Tokens()) + Greedy(P(), s).tokens && Now() == Greedy(P(), s).after
    {
      hide Plain, Rolling, Win, Linked, Wet, Out, Strings, BestMatch, Configuration, Shape, Tokens, Literal, Rolled;
      Sizes();
      ghost var win := window[..];
      bflush := PutLiteral();
      assert window[..] == win;
      NextReady(s.str);
    }

    /** The search of deflate_fast. */
    method FindMatch()
      requires Ready() && lookahead > 0 && matchLength < MIN_MATCH
      requires prevLength == MIN_MATCH - 1 && matchStart < WORD && strstart + MAX_MATCH < 2 * wSize - 1
      modifies this`insH, this`ins, this`top, this`matchLength, this`matchStart, head, prev
      ensures Shape() && Win() && Linked() && Wet() && Inserted() && matchStart < WORD && FoundFor(old(Now()))
      ensures matchLength >= MIN_MATCH ==>
                matchLength <= lookahead && 1 <= strstart - matchStart <= MaxDist(wSize)
                && Repeats(data, base + strstart, strstart - matchStart, matchLength)
    {
      hide Plain, Rolling, Win, Inserted, Wet, Candidate, Repeats, Strings, BestMatch, Sees, Sought, Configuration, Shape, Linked,
        Visited, Longest, Finds;
      ghost var s := Now();
      ReadyParts();
      var hashHead := InsertHere();
      SeesAhead(s, hashHead);
      if hashHead != 0 && strstart - hashHead <= MaxDist(wSize) {
        matchLength := LongestMatch(hashHead);
        SeesBest(s, hashHead);
        SoughtIs(s, hashHead);
      } else {
        SeesNone(s, hashHead, prevLength);
      }
    }

    lemma SoughtIs(s: Sight, cur: nat)
      requires Finds(matchLength, Sought(cur)) && Sought(cur) == BestMatch(P(), s, prevLength) && s.Ahead() == lookahead
      requires 2 == prevLength <= matchLength <= lookahead
      ensures var f := BestMatch(P(), s, MIN_MATCH - 1);
              if f.len < MIN_MATCH then matchLength < MIN_MATCH else matchLength == f.len <= MAX_MATCH && matchStart == f.at
    {
      hide BestMatch, Sought;
    }

    lemma MatchReady()
      requires Inserted() && lookahead >= MIN_MATCH
      ensures insert == 0 && top == base + strstart + 1 && Rolled(window[..], insH, strstart + 1, memLevel)
    {
      hide Rolled;
    }

    /** After a literal everything is ready for the next string. */
    lemma NextReady(p: nat)
      requires Shape() && Win() && Linked() && Wet() && strstart == p + 1 && insert <= 2 && insert <= p
      requires lookahead + 1 >= MIN_MATCH ==>
                 insert == 0 && top == base + p + 1 && Rolled(window[..], insH, p + 1, memLevel)
      requires lookahead + 1 < MIN_MATCH ==> top <= base + p - insert
      ensures Ready()
    {
      hide Rolled, Chains, Shows;
    }

    lemma SeesAhead(s: Sight, cur: nat)
      requires Sees(s, cur)
      ensures s.data == data && s.base == base && s.str == strstart && s.Ahead() == lookahead
    {
    }

    /** FLUSH_BLOCK: the rest has to wait when there is no room. */
    method FlushBlock() returns (more: bool)
      requires Shape() && Shown(strstart) && Out(strstart)
      modifies this`sent, this`lastLit, this`blockStart, this`room
      ensures Out(strstart) && lastLit == 0 && Answered(old(room), room, !more) && Tokens() == old(Tokens()) == sent
      ensures |sent| == |old(sent)| + old(lastLit)
    {
      hide Out, Shown, Answered;
      FlushBlockOnly();
      more := HasRoom();
    }

    /** All data consumed: the last two bytes, if there are two, begin strings that are still to be inserted. */
    method EndOfData()
      requires Plain() && lookahead == 0
      modifies this`insert, this`top
      ensures Ready() && insert == Rest(strstart)
    {
      hide Shows, HeadsOk, LinksOk, Wet, Rolled;
      insert := if strstart < MIN_MATCH - 1 then strstart else MIN_MATCH - 1;
      top := base + strstart - insert;
      WindowEnd();
      TopLowered(old(top));
    }

    lemma TopLowered(t: int)
      requires Win() && lookahead == 0 && insert <= 2 && insert <= strstart && top == base + strstart - insert
      requires Chains(data, base, ins, head[..], prev[..], t, strstart, wSize, memLevel)
      ensures Linked()
    {
      hide HeadsOk, LinksOk, Shown;
    }

    /** The tokens are those of the steps taken, one after the other, each from what the matcher saw before it. */
    ghost predicate Told()
      reads this`trace, this`sent, this`lastLit, dBuf, lBuf, this`data, this`base, this`strstart, this`ins, this`insert,
        this`matchLength, this`matchStart, this`matchAvailable
    {
      Tokens() == Puts(P(), trace) && Run(P(), trace, Now())
    }

    lemma ToldOn(s: Sight)
      requires Tokens() == Puts(P(), trace) + Step(P(), s).tokens && Now() == Step(P(), s).after && Run(P(), trace, s)
      ensures Tokens() == Puts(P(), trace + [s]) && Run(P(), trace + [s], Now()) && Before(P(), trace + [s]) == Now()
    {
      hide Step, Now, Tokens, Puts, Run;
      RunOn(P(), trace, s);
    }

    lemma ToldParts()
      requires Told()
      ensures Tokens() == Puts(P(), trace) && Run(P(), trace, Now())
    {
    }

    /** One step more is told. */
    method Tell(ghost s: Sight, ghost before: seq<Token>)
      requires before == Puts(P(), trace) && Tokens() == before + Step(P(), s).tokens && Now() == Step(P(), s).after
      requires Run(P(), trace, s)
      modifies this`trace
      ensures Told() && trace == old(trace) + [s] && Before(P(), trace) == Now()
    {
      hide Step, Now, Tokens, Puts, Run, Before;
      ToldOn(s);
      trace := trace + [s];
    }

    predicate IsGreedy() { Hashes() && !Configuration(level).slow }

    lemma GreedyStep(s: Sight)
      requires IsGreedy()
      ensures Step(P(), s) == Greedy(P(), s)
    {
      hide Greedy;
    }

    lemma GreedyEnd(s: Sight)
      requires s.Ahead() == 0
      ensures Greedy(P(), s) == Taken([], s.(insert := Rest(s.str)))
    {
    }

    /** A block ends where its buffer is full. */
    ghost predicate WholeBlocks(before: seq<Token>)
      reads this`sent
    {
      sent == before || |sent| == |before| + litBufsize - 1
    }

    /** What a matcher leaves for the next call. */
    ghost predicate Idle(pending: nat)
      reads this`sent, this`lastLit, dBuf, lBuf, this`base, this`data, this`blockStart, this`strstart, this`matchStart
    {
      Out(strstart - pending) && lastLit < litBufsize - 1 && matchStart < WORD
    }

    /** The end of a matcher: the last block, or the current one. */
    method Close(flush: Flush) returns (state: BlockState)
      requires Shape() && Shown(strstart) && Out(strstart) && litBufsize >= 128 && lastLit < litBufsize
      modifies this`sent, this`lastLit, this`blockStart, this`room
      ensures Out(strstart) && lastLit == 0 && Tokens() == old(Tokens())
      ensures state.FinishDone? || state.FinishStarted? <==> flush.Finish?
      ensures Answered(old(room), room, state.FinishStarted? || state.NeedMore?)
    {
      hide Out, Shown, Answered;
      AnsweredNone(room);
      if flush.Finish? {
        var more := FlushBlock();
        return if more then FinishDone else FinishStarted;
      }
      if lastLit > 0 {
        var more := FlushBlock();
        if !more { return NeedMore; }
      }
      state := BlockDone;
    }

    /** What a matcher checks before a step is that the step sees enough. */
    lemma AmpleOn(flush: Flush, from: nat)
      requires Plain() && (lookahead >= Enough(P()) || (!flush.NoFlush? && nextIn == []))
      requires Ample(P(), trace, from, Stream(), !flush.NoFlush?)
      ensures Ample(P(), trace + [Now()], from, Stream(), !flush.NoFlush?)
    {
      hide Enough, Ample;
      ReadyCounted();
      assert data + [] == data;
      AmpleMore(P(), trace, Now(), from, Stream(), !flush.NoFlush?);
    }

    /** One round of deflate_fast. */
    method FastRound() returns (more: bool)
      requires Ready() && Idle(0) && matchLength < MIN_MATCH && prevLength == MIN_MATCH - 1 && lookahead > 0
      requires lookahead >= MIN_LOOKAHEAD || strstart <= 2 * wSize - MIN_LOOKAHEAD
      requires Told() && IsGreedy()
      modifies this`insH, this`ins, this`top, this`strstart, this`lookahead, this`matchLength, this`matchStart, this`lastLit,
        this`sent, this`blockStart, this`room, this`trace, head, prev, dBuf, lBuf
      ensures Ready() && Idle(0) && matchLength < MIN_MATCH && Answered(old(room), room, !more)
      ensures base + strstart + lookahead == old(base + strstart + lookahead) && strstart > old(strstart)
      ensures Told() && trace == old(trace + [Now()]) && WholeBlocks(old(sent))
    {
      hide Plain, Rolling, Out, Shape, Answered, Greedy, Step, Now, Puts, Run, IsGreedy, Before;
      AnsweredNone(room);
      RoomAhead();
      ReadyShown();
      ghost var s, ts := Now(), Tokens();
      var bflush := FastStep();
      GreedyStep(s);
      Tell(s, ts);
      more := true;
      if bflush {
        ReadyShown();
        more := FlushBlock();
      }
    }

    /** The same, as it looks to the matcher. */
    method FastTurn(flush: Flush, ghost was: seq<bool>, ghost from: nat) returns (more: bool)
      requires Ready() && Idle(0) && matchLength < MIN_MATCH && prevLength == MIN_MATCH - 1 && lookahead > 0
      requires lookahead >= MIN_LOOKAHEAD || strstart <= 2 * wSize - MIN_LOOKAHEAD
      requires Told() && IsGreedy()
      requires lookahead >= Enough(P()) || (!flush.NoFlush? && nextIn == [])
      requires Answered(was, room, false) && Ample(P(), trace, from, Stream(), !flush.NoFlush?)
      modifies this`insH, this`ins, this`top, this`strstart, this`lookahead, this`matchLength, this`matchStart, this`lastLit,
        this`sent, this`blockStart, this`room, this`trace, head, prev, dBuf, lBuf
      ensures Ready() && Idle(0) && matchLength < MIN_MATCH && Answered(was, room, !more)
      ensures base + strstart + lookahead == old(base + strstart + lookahead) && strstart > old(strstart)
      ensures Told() && old(trace) <= trace && Ample(P(), trace, from, Stream(), !flush.NoFlush?)
      ensures !more ==> !Answered(was, room, false)
    {
      hide Plain, Rolling, Idle, Answered, Told, IsGreedy, Now, Ample, Enough;
      ghost var before := room;
      AmpleOn(flush, from);
      more := FastRound();
      AnsweredMore(was, before, room, !more);
      OneAnswer(was, room);
    }

    /** All input so far: the bytes read, and those not read yet. */
    ghost function Stream(): seq<bv8>
      reads this`data, this`nextIn
    {
      data + nextIn
    }

    /** deflate_fast. */
    method Fast(flush: Flush) returns (state: BlockState)
      requires Ready() && Idle(0) && matchLength < MIN_MATCH && prevLength == MIN_MATCH - 1 && Told() && IsGreedy()
      modifies this`strstart, this`lookahead, this`base, this`data, this`nextIn, this`matchStart, this`blockStart, this`insH,
        this`insert, this`highWater, this`ins, this`top, this`matchLength, this`lastLit, this`sent, this`room, this`trace, window,
        head, prev, dBuf, lBuf
      ensures Told() && old(trace) <= trace && (!state.NeedMore? ==> Now() == Before(P(), trace))
      ensures old(strstart) > 0 ==> strstart > 0
      ensures Ready() && Idle(0) && matchLength < MIN_MATCH
      ensures Stream() == old(Stream())
      ensures Ample(P(), trace, |old(trace)|, Stream(), !flush.NoFlush?)
      ensures state.NeedMore? || (lookahead == 0 && nextIn == [])
      ensures !state.NeedMore? ==> lastLit == 0
      ensures state.FinishDone? || state.FinishStarted? ==> flush.Finish?
      ensures Returns(state, flush, old(room))
    {
      hide Plain, Rolling, Out, Shape, Idle, Stream, Win, Shown, Linked, Late, Wet, Chains, Shows, Rolled, Tokens, Expand, Answered,
        Told, Before, IsGreedy, Now, Ample, SeesEnough;
      ReadyCounted();
      AnsweredNone(room);
      AmpleNone(P(), trace, Stream(), !flush.NoFlush?);
      while true
        invariant Ready() && Idle(0) && matchLength < MIN_MATCH && base + strstart + lookahead == |data|
        invariant Stream() == old(Stream()) && Answered(old(room), room, false)
        invariant Told() && old(trace) <= trace && (old(strstart) > 0 ==> strstart > 0)
        invariant Ample(P(), trace, |old(trace)|, Stream(), !flush.NoFlush?)
        decreases |nextIn| + lookahead
      {
        if lookahead < MIN_LOOKAHEAD {
          Fill(0);
          if lookahead < MIN_LOOKAHEAD && flush.NoFlush? { return NeedMore; }
          if lookahead == 0 { break; }
        }
        var more := FastTurn(flush, old(room), |old(trace)|);
        if !more { return NeedMore; }
      }
      state := FastEnd(flush, old(room), |old(trace)|);
    }

    /** The last step, which only notes the strings that are not complete; and the last block. */
    method FastEnd(flush: Flush, ghost was: seq<bool>, ghost from: nat) returns (state: BlockState)
      requires Plain() && Idle(0) && lookahead == 0 && Told() && IsGreedy()
      requires nextIn == [] && !flush.NoFlush? && Answered(was, room, false) && Ample(P(), trace, from, Stream(), true)
      modifies this`insert, this`top, this`trace, this`sent, this`lastLit, this`blockStart, this`room
      ensures Ready() && Idle(0) && Told() && trace == old(trace + [Now()]) && Now() == Before(P(), trace)
      ensures lastLit == 0 && Returns(state, flush, was) && Ample(P(), trace, from, Stream(), true)
      ensures state.FinishDone? || state.FinishStarted? <==> flush.Finish?
    {
      hide Plain, Rolling, Greedy, Step, Puts, Run, IsGreedy, Before, Tokens, Answered, Idle;
      ghost var before := room;
      AmpleOn(flush, from);
      ghost var s, ts := Now(), Tokens();
      ReadyCounted();
      EndOfData();
      GreedyStep(s);
      GreedyEnd(s);
      assert ts + [] == ts;
      Tell(s, ts);
      state := Finished(flush);
      AnsweredMore(was, before, room, state.FinishStarted? || state.NeedMore?);
      OneAnswer(was, room);
    }

    /** How a matcher may leave off: for want of room, when an answer was no; or, if nothing is to be flushed, with all input read
        and too little of it for a match; or, with everything put out, done. */
    ghost predicate Returns(state: BlockState, flush: Flush, before: seq<bool>)
      reads this`room, this`nextIn, this`lookahead
    {
      var refused := !Answered(before, room, false);
      && (refused ==> Answered(before, room, true)) && (refused ==> state.NeedMore? || state.FinishStarted?)
      && (state.FinishStarted? ==> refused)
      && (state.NeedMore? && !refused ==> flush.NoFlush? && nextIn == [] && lookahead < MIN_LOOKAHEAD)
    }

    method Finished(flush: Flush) returns (state: BlockState)
      requires Plain() && Idle(0)
      modifies this`sent, this`lastLit, this`blockStart, this`room
      ensures old(Told()) ==> Told()
      ensures Answered(old(room), room, state.FinishStarted? || state.NeedMore?)
      ensures Idle(0) && (state.FinishDone? || state.FinishStarted? <==> flush.Finish?)
      ensures lastLit == 0
    {
      hide Plain, Out, Shape, Answered;
      ReadyShown();
      state := Close(flush);
    }

    /** FillWindow, as it looks to a matcher. */
    method Fill(ghost pending: nat)
      requires Plain() && Idle(pending) && lookahead < MIN_LOOKAHEAD
      modifies this`strstart, this`lookahead, this`base, this`data, this`nextIn, this`matchStart, this`blockStart, this`insH,
        this`insert, this`highWater, this`ins, this`top, window, head, prev
      ensures Plain() && Idle(pending) && base + strstart + lookahead == |data|
      ensures (old(Ready()) ==> Ready()) && (old(Held()) ==> Held())
      ensures Stream() == old(Stream()) && lookahead >= old(lookahead)
      ensures |nextIn| + lookahead == old(|nextIn| + lookahead)
      ensures lookahead >= MIN_LOOKAHEAD || nextIn == []
      ensures base + strstart == old(base + strstart)
      ensures U32(strstart - 1 - matchStart) == old(U32(strstart - 1 - matchStart))
      ensures strstart <= 2 * wSize - MIN_LOOKAHEAD && (old(strstart) > 0 ==> strstart > 0)
      ensures old(Told()) ==> Told()
    {
      hide Shows, Chains, Rolled, Shape, Win, Linked, Late, Wet, Rolling, U32, Expand, Repeats, Filled, Puts, Run, Now;
      ghost var sight := Now();
      Sizes();
      Counted();
      ghost var d, b, p, ts := data, base, strstart, Tokens();
      ghost var dv, lv := dBuf[..], lBuf[..];
      FillWindow();
      Counted();
      assert |Stream()| == |data| + |nextIn| == |d| + |old(nextIn)|;
      assert dBuf[..] == dv && lBuf[..] == lv;
      if Run(P(), trace, sight) { RunFilled(P(), trace, sight, Now()); }
      assert data[..b + p - pending] == d[..b + p - pending];
      RepeatsGrow(d, data, b + p - 1, U32(strstart - 1 - matchStart), matchLength);
    }

    lemma Counted()
      requires Win()
      ensures base + strstart + lookahead == |data|
    {
    }

    lemma ReadyCounted()
      requires Plain()
      ensures base + strstart + lookahead == |data|
    {
    }

    lemma RoomAhead()
      requires Plain() && (lookahead > MAX_MATCH || strstart <= 2 * wSize - MIN_LOOKAHEAD)
      ensures strstart + MAX_MATCH < 2 * wSize
      ensures lookahead >= MIN_LOOKAHEAD || strstart <= 2 * wSize - MIN_LOOKAHEAD ==> strstart + MAX_MATCH < 2 * wSize - 1
    {
      hide Shows, Chains, Rolled;
      WindowEnd();
    }

    lemma ReadyShown()
      requires Plain()
      ensures Shape() && Shown(strstart) && litBufsize >= 128
    {
      hide Chains, Rolled;
    }

    // ----- deflate_slow

    /** A match of n bytes at window position p, from the 32-bit position m. */
    ghost predicate MatchAt(p: int, m: nat, n: nat)
      reads this`data, this`base
    {
      1 <= U32(p - m) <= MaxDist(wSize) && 0 <= base + p && Repeats(data, base + p, U32(p - m), n)
    }

    /** The match that deflate_slow holds back, if there is one: that of the string before strstart. The window may have
        slid past its start, so that match_start has wrapped; the distance is right all the same. */
    ghost predicate Held()
      reads this`data, this`base, this`strstart, this`matchStart, this`matchLength, this`matchAvailable
    {
      && 2 <= matchLength <= MAX_MATCH && matchStart < WORD && (matchAvailable ==> strstart > 0)
      && (matchLength >= MIN_MATCH ==> matchAvailable && MatchAt(strstart - 1, matchStart, matchLength))
    }

    function Waiting(): nat
      reads this`matchAvailable
    {
      if matchAvailable then 1 else 0
    }

    /** The search at strstart, unless the match before is good enough. */
    method Search(hashHead: nat, ghost s: Sight)
      requires Shape() && Win() && Linked() && Wet() && strstart + MAX_MATCH < 2 * wSize && 2 <= matchLength <= MAX_MATCH
      requires matchStart < WORD && (hashHead != 0 ==> lookahead >= MIN_MATCH)
      requires hashHead != 0 && strstart - hashHead <= MaxDist(wSize) ==> Candidate(hashHead)
      requires Sees(s, hashHead) && s.held == matchLength
      modifies this`prevLength, this`prevMatch, this`matchLength, this`matchStart
      ensures Chosen(s)
      ensures prevLength == old(matchLength) && prevMatch == old(matchStart) && 2 <= matchLength <= MAX_MATCH && matchStart < WORD
      ensures matchLength >= MIN_MATCH && matchLength > prevLength ==> MatchAt(strstart, matchStart, matchLength)
    {
      hide Shape, Shown, Win, Linked, Wet, Candidate, Repeats, Configuration, Sees, Sought, BestMatch, Visited, Longest, Finds, Chosen,
        MatchAt, U32;
      Sizes();
      prevLength, prevMatch := matchLength, matchStart;
      matchLength := MIN_MATCH - 1;
      SeesAhead(s, hashHead);
      if hashHead != 0 && prevLength < Configuration(level).lazy && strstart - hashHead <= MaxDist(wSize) {
        matchLength := LongestMatch(hashHead);
        SeesBest(s, hashHead);
        MatchHere(matchLength);
        ghost var len := matchLength;
        if matchLength <= 5
           && (strategy.Filtered? || (matchLength == MIN_MATCH && U32(strstart - matchStart) > TOO_FAR)) {
          matchLength := MIN_MATCH - 1;
        }
        ChosenFrom(s, hashHead, len);
      } else {
        ChosenNone(s, hashHead);
      }
    }

    /** The match found, in 32-bit arithmetic. */
    lemma MatchHere(n: nat)
      ensures 1 <= strstart - matchStart <= MaxDist(wSize) < WORD ==> U32(strstart - matchStart) == strstart - matchStart
      ensures 1 <= strstart - matchStart <= MaxDist(wSize) < WORD && Repeats(data, base + strstart, strstart - matchStart, n) ==>
                MatchAt(strstart, matchStart, n)
    {
      hide Repeats;
      SmallWord(strstart, matchStart);
    }

    /** The search has come to a match that is better than the one held back, or to none. */
    ghost predicate Chosen(s: Sight)
      reads this`prevLength, this`matchLength, this`matchStart, this`strstart
    {
      if Better(P(), s) then
        BestMatch(P(), s, s.held) == Found(matchLength, matchStart) && matchLength > prevLength && matchStart < strstart
      else matchLength <= prevLength
    }

    lemma ChosenFrom(s: Sight, cur: nat, len: nat)
      requires 2 <= prevLength && prevLength < Configuration(level).lazy && s.held == prevLength && s.Ahead() == lookahead
      requires s.str == strstart && Finds(len, Sought(cur)) && Sought(cur) == BestMatch(P(), s, prevLength) && len <= lookahead
      requires len > prevLength ==> 1 <= strstart - matchStart && U32(strstart - matchStart) == strstart - matchStart
      requires matchLength == if len <= 5 && (strategy.Filtered? || (len == MIN_MATCH && U32(strstart - matchStart) > TOO_FAR))
                              then MIN_MATCH - 1 else len
      ensures Chosen(s)
    {
      hide BestMatch, Sought, Configuration, U32;
    }

    lemma ChosenNone(s: Sight, cur: nat)
      requires Sees(s, cur) && s.held == prevLength >= 2 && matchLength == 2
      requires !(cur != 0 && prevLength < Configuration(level).lazy && strstart - cur <= MaxDist(wSize))
      ensures Chosen(s)
    {
      hide BestMatch, Sees, Configuration;
      if !(cur != 0 && strstart - cur <= MaxDist(wSize)) { SeesNone(s, cur, s.held); }
    }

    lemma SmallWord(p: int, m: int)
      ensures 0 <= p - m < WORD ==> U32(p - m) == p - m
    {
    }

    /** The rest of a match that began a byte ago goes into the table, as far as its strings are complete. */
    method InsertRest(maxInsert: int, ghost e: nat)
      requires Shape() && Shown(e) && Linked() && e == maxInsert + MIN_MATCH && prevLength >= 1 && strstart + prevLength < e
      requires strstart <= maxInsert ==> top == base + strstart + 1 && Rolled(window[..], insH, strstart + 1, memLevel)
      requires base + e == |data|
      modifies this`insH, this`ins, this`top, this`strstart, this`prevLength, head, prev
      ensures strstart == old(strstart + prevLength) && Linked() && Shown(e)
      ensures ins == old(ins) + Strings(data, base + old(strstart) + 1, old(prevLength))
      ensures old(strstart) > maxInsert ==> top == old(top) && insH == old(insH)
      ensures old(strstart) <= maxInsert ==> top <= base + strstart + 1
      ensures strstart <= maxInsert ==> top == base + strstart + 1 && Rolled(window[..], insH, strstart + 1, memLevel)
    {
      hide Shows, Chains, Rolled, Shape, Shown, Strings, Latest;
      ghost var start, n := strstart, prevLength;
      ShownEnd(e);
      NoStrings(data, base + start + 1);
      while true
        invariant ins == old(ins) + Strings(data, base + start + 1, n - prevLength)
        invariant 1 <= prevLength <= n && strstart + prevLength == start + n && Shown(e) && Linked()
        invariant start > maxInsert ==> top == old(top) && insH == old(insH)
        invariant start <= maxInsert ==> top <= base + strstart + 1
        invariant strstart <= maxInsert ==> top == base + strstart + 1 && Rolled(window[..], insH, strstart + 1, memLevel)
        decreases prevLength
      {
        strstart := strstart + 1;
        MovedOn(strstart - 1);
        if strstart <= maxInsert {
          var _ := InsertString(strstart, e);
        }
        StringsNext(data, base + start + 1, n - prevLength);
        prevLength := prevLength - 1;
        if prevLength == 0 { break; }
      }
    }

    /** The match held back goes out, and its strings into the table. */
    method EmitPrevious() returns (bflush: bool)
      requires Shape() && Win() && Linked() && Inserted() && Wet() && Out(strstart - 1) && lastLit < litBufsize - 1
      requires strstart > 0 && MIN_MATCH <= prevLength <= MAX_MATCH && MatchAt(strstart - 1, prevMatch, prevLength)
      requires strstart + MAX_MATCH < 2 * wSize - 1 && lookahead > 0
      modifies this`insH, this`ins, this`top, this`strstart, this`lookahead, this`prevLength, this`matchLength,
        this`matchAvailable, this`lastLit, head, prev, dBuf, lBuf
      ensures Ready() && Out(strstart) && base + strstart + lookahead == old(base + strstart + lookahead)
      ensures strstart == old(strstart + prevLength) - 1 && matchLength == MIN_MATCH - 1 && !matchAvailable
      ensures lastLit == old(lastLit) + 1 && bflush == (lastLit == litBufsize - 1)
      ensures Tokens() == old(Tokens()) + [Token(U32(old(strstart) - 1 - prevMatch), old(prevLength) - MIN_MATCH)]
      ensures ins == old(ins) + Strings(data, base + old(strstart) + 1, old(prevLength) - 2)
    {
      hide Strings, Out, Rolled, Ready, Shown, Repeats, Win, Linked, Inserted, Wet, MatchAt, Shape;
      PreviousFits();
      bflush := TallyPrevious();
      InsertPrevious();
      matchAvailable := false;
      matchLength := MIN_MATCH - 1;
    }

    /** Past the match held back, with its strings in the table. */
    method InsertPrevious()
      requires Shape() && Win() && Linked() && Inserted() && Wet() && MIN_MATCH <= prevLength <= lookahead + 1 && lookahead > 0
      modifies this`insH, this`ins, this`top, this`strstart, this`lookahead, this`prevLength, head, prev
      ensures Ready() && strstart == old(strstart + prevLength - 1)
      ensures base + strstart + lookahead == old(base + strstart + lookahead)
      ensures ins == old(ins) + Strings(data, base + old(strstart) + 1, old(prevLength) - 2)
    {
      hide Rolled, Ready, Shown, Chains, Strings;
      ghost var e, start := strstart + lookahead, strstart;
      var maxInsert := strstart + lookahead - MIN_MATCH;
      lookahead := lookahead - (prevLength - 1);
      prevLength := prevLength - 2;
      InsertRest(maxInsert, e);
      strstart := strstart + 1;
      ShownEnd(e);
      MovedOn(strstart - 1);
      PastPrevious(e, start);
    }

    lemma PreviousFits()
      requires Shape() && Win() && MatchAt(strstart - 1, prevMatch, prevLength)
      ensures prevLength <= lookahead + 1
    {
    }

    method TallyPrevious() returns (bflush: bool)
      requires Shape() && Win() && Linked() && Out(strstart - 1) && lastLit < litBufsize - 1 && strstart > 0
      requires MIN_MATCH <= prevLength <= MAX_MATCH && MatchAt(strstart - 1, prevMatch, prevLength)
      modifies this`lastLit, dBuf, lBuf
      ensures Win() && Linked() && Out(strstart - 1 + prevLength) && (old(Inserted()) ==> Inserted())
      ensures lastLit == old(lastLit) + 1 && bflush == (lastLit == litBufsize - 1)
      ensures Tokens() == old(Tokens()) + [Token(U32(strstart - 1 - prevMatch), prevLength - MIN_MATCH)]
    {
      hide Out, Chains, Repeats, Shows, U32;
      Sizes();
      ghost var hd, pv, win := head[..], prev[..], window[..];
      bflush := TallyDist(U32(strstart - 1 - prevMatch), prevLength - MIN_MATCH, strstart - 1);
      assert head[..] == hd && prev[..] == pv && window[..] == win;
    }

    lemma PastPrevious(e: nat, start: nat)
      requires Shape() && Linked() && Shown(e) && e == strstart + lookahead && base + e == |data| && insert <= 2
      requires start < strstart && insert <= start && (start > e - MIN_MATCH ==> top <= base + start - insert || insert == 0)
      requires top <= base + strstart && (start <= e - MIN_MATCH ==> insert == 0)
      requires strstart <= e - MIN_MATCH ==> Rolled(window[..], insH, strstart, memLevel)
      requires highWater >= 2 * wSize || highWater >= e + WIN_INIT
      ensures Ready()
    {
      hide Shows, Chains, Rolled, Shown;
    }

    /** One byte on, with what the search has found there held back. */
    method StepOn()
      requires Shape() && Win() && Linked() && Inserted() && Wet() && lookahead > 0 && matchAvailable
      requires 2 <= matchLength <= MAX_MATCH && matchStart < WORD
      requires matchLength >= MIN_MATCH ==> MatchAt(strstart, matchStart, matchLength)
      modifies this`strstart, this`lookahead
      ensures Ready() && Held() && strstart == old(strstart) + 1 && lookahead == old(lookahead) - 1
    {
      hide Rolled, Chains, Repeats, Shows;
      WindowEnd();
      strstart := strstart + 1;
      lookahead := lookahead - 1;
      MovedOn(strstart - 1);
    }

    /** The byte before strstart as a literal: the match held back, if any, is worth less than the one found now. */
    method PutBefore() returns (more: bool)
      requires Shape() && Win() && Linked() && Inserted() && Wet() && lookahead > 0 && matchAvailable && strstart > 0
      requires 2 <= matchLength <= MAX_MATCH && matchStart < WORD && Out(strstart - 1) && lastLit < litBufsize - 1
      requires matchLength >= MIN_MATCH ==> MatchAt(strstart, matchStart, matchLength)
      modifies this`strstart, this`lookahead, this`lastLit, this`sent, this`blockStart, this`room, dBuf, lBuf
      ensures Ready() && Held() && strstart == old(strstart) + 1 && lookahead == old(lookahead) - 1
      ensures Out(strstart - 1) && lastLit < litBufsize - 1 && Answered(old(room), room, !more)
      ensures Tokens() == old(Tokens()) + [Literal(data, base + old(strstart) - 1)] && WholeBlocks(old(sent))
    {
      hide Out, Rolled, Chains, Repeats, Shows, MatchAt, Answered, Literal, Shape, Win, Linked, Inserted, Wet, Tokens;
      var bflush := TallyBefore();
      if bflush {
        LessShown();
        FlushBlockOnly();
      }
      StepOn();
      more := HasRoom();
    }

    method TallyBefore() returns (bflush: bool)
      requires Shape() && Win() && Linked() && Inserted() && Wet() && strstart > 0
      requires Out(strstart - 1) && lastLit < litBufsize - 1
      modifies this`lastLit, dBuf, lBuf
      ensures Win() && Linked() && Inserted() && Out(strstart)
      ensures lastLit == old(lastLit) + 1 && bflush == (lastLit == litBufsize - 1)
      ensures Tokens() == old(Tokens()) + [Literal(data, base + strstart - 1)]
      ensures bflush ==> |Tokens()| == |sent| + litBufsize - 1
    {
      hide Out, Rolled, Chains, Shows, Literal;
      Sizes();
      WindowEnd();
      ShowsAt(window[..], data, base, strstart + lookahead, strstart - 1);
      ghost var hd, pv, win := head[..], prev[..], window[..];
      bflush := TallyLit(window[strstart - 1], strstart - 1);
      assert head[..] == hd && prev[..] == pv && window[..] == win;
    }

    lemma LessShown()
      requires Win()
      ensures Shown(strstart)
    {
    }

    /** One step of deflate_slow: the match held back, or the byte before strstart, or nothing yet. */
    method SlowStep() returns (more: bool)
      requires Ready() && Held() && Out(strstart - Waiting()) && lastLit < litBufsize - 1 && lookahead > 0
      requires strstart + MAX_MATCH < 2 * wSize - 1
      modifies this`insH, this`ins, this`top, this`strstart, this`lookahead, this`matchLength, this`matchStart, this`prevLength,
        this`prevMatch, this`matchAvailable, this`lastLit, this`sent, this`blockStart, this`room, head, prev, dBuf, lBuf
      ensures Ready() && Held() && Out(strstart - Waiting()) && lastLit < litBufsize - 1 && Answered(old(room), room, !more)
      ensures base + strstart + lookahead == old(base + strstart + lookahead) && strstart > old(strstart)
      ensures Tokens() == old(Tokens()) + Lazily(P(), old(Now())).tokens && Now() == Lazily(P(), old(Now())).after
      ensures WholeBlocks(old(sent))
    {
      hide Out, MatchAt, Win, Linked, Inserted, Wet, Ready, Shown, Answered, Lazily, Midway, Tokens, WholeBlocks, Now, Shape;
      ghost var s := Now();
      FindBetter();
      if prevLength >= MIN_MATCH && matchLength <= prevLength {
        more := SendPrevious(s);
      } else {
        more := HoldOn(s);
      }
    }

    /** The search of deflate_slow. */
    method FindBetter()
      requires Ready() && Held() && lookahead > 0 && strstart + MAX_MATCH < 2 * wSize - 1
      modifies this`insH, this`ins, this`top, this`matchLength, this`matchStart, this`prevLength, this`prevMatch, head, prev
      ensures Shape() && Win() && Linked() && Inserted() && Wet() && Midway(old(Now()))
      ensures prevLength == old(matchLength) && 2 <= matchLength <= MAX_MATCH && matchStart < WORD
      ensures matchLength >= MIN_MATCH && matchLength > prevLength ==> MatchAt(strstart, matchStart, matchLength)
      ensures prevLength >= MIN_MATCH ==> MatchAt(strstart - 1, prevMatch, prevLength)
    {
      hide MatchAt, Win, Linked, Inserted, Wet, Ready, Shown, Chosen, Sees, Strings, Shape, Candidate, U32;
      ReadyParts();
      ghost var s := Now();
      var hashHead := InsertHere();
      SeesAhead(s, hashHead);
      Search(hashHead, s);
    }

    /** Nothing yet, or the byte before strstart; what was found is held back. */
    method HoldOn(ghost s: Sight) returns (more: bool)
      requires Shape() && Win() && Linked() && Inserted() && Wet() && Midway(s) && lookahead > 0 && (matchAvailable ==> strstart > 0)
      requires 2 <= matchLength <= MAX_MATCH && matchStart < WORD && !(prevLength >= MIN_MATCH && matchLength <= prevLength)
      requires matchLength >= MIN_MATCH ==> MatchAt(strstart, matchStart, matchLength)
      requires Out(strstart - Waiting()) && lastLit < litBufsize - 1 && 2 <= prevLength
      modifies this`strstart, this`lookahead, this`matchAvailable, this`lastLit, this`sent, this`blockStart, this`room, dBuf, lBuf
      ensures Ready() && Held() && strstart == old(strstart) + 1 && lookahead == old(lookahead) - 1
      ensures Out(strstart - Waiting()) && lastLit < litBufsize - 1 && Answered(old(room), room, !more)
      ensures Tokens() == old(Tokens()) + Lazily(P(), s).tokens && Now() == Lazily(P(), s).after && WholeBlocks(old(sent))
    {
      hide Out, MatchAt, Win, Linked, Inserted, Wet, Ready, Answered, Lazily, Tokens, Now, Shape, Strings, BestMatch, U32, Better,
        Literal, Held;
      WindowLimit();
      AnsweredNone(room);
      ghost var ts := Tokens();
      if matchAvailable {
        more := PutBefore();
      } else {
        more := true;
        matchAvailable := true;
        StepOn();
        assert ts == ts + [];
      }
      NowHeld(s);
    }

    lemma WindowLimit()
      requires Shape() && Win()
      ensures strstart <= 2 * wSize <= 65536
    {
      WindowEnd();
    }

    /** After the search of deflate_slow. */
    ghost predicate Midway(s: Sight)
      reads this`strstart, this`lookahead, this`data, this`base, this`ins, this`insert, this`matchLength, this`matchStart,
        this`prevLength, this`prevMatch, this`matchAvailable
    {
      && s.data == data && s.base == base && s.str == strstart && s.Ahead() == lookahead
      && ins == s.ins + Strings(data, base + strstart, 1) && s.insert == insert && s.waiting == matchAvailable
      && s.held == prevLength && s.dist == (if s.held < MIN_MATCH then 0 else U32(strstart - 1 - prevMatch)) && Chosen(s)
    }

    /** A byte on, with what was found held back. */
    lemma NowHeld(s: Sight)
      requires s.data == data && s.base == base && s.str + 1 == strstart <= 2 * wSize + 1 <= 65537 && s.Ahead() == lookahead + 1
      requires ins == s.ins + Strings(data, s.At(), 1) && s.insert == insert && matchAvailable && 2 <= matchLength
      requires if Better(P(), s) then
                 BestMatch(P(), s, s.held) == Found(matchLength, matchStart) && matchLength > s.held >= 2 && matchStart <= s.str
               else matchLength == 2 && s.held < MIN_MATCH
      ensures Now() == Lazily(P(), s).after
      ensures Lazily(P(), s).tokens == if s.waiting then [Literal(data, s.At() - 1)] else []
    {
      hide BestMatch, Strings, U32, Better, Literal;
      SmallWord(s.str, matchStart);
    }

    lemma ReadyParts()
      requires Ready()
      ensures Shape() && Win() && Linked() && Wet()
    {
    }

    /** The match held back is taken, as the one found now is not longer. */
    method SendPrevious(ghost s: Sight) returns (more: bool)
      requires Shape() && Win() && Linked() && Inserted() && Wet() && Out(strstart - 1) && lastLit < litBufsize - 1
      requires strstart > 0 && MIN_MATCH <= prevLength <= MAX_MATCH && MatchAt(strstart - 1, prevMatch, prevLength)
      requires strstart + MAX_MATCH < 2 * wSize - 1 && lookahead > 0 && matchStart < WORD && Midway(s) && matchLength <= prevLength
      modifies this`insH, this`ins, this`top, this`strstart, this`lookahead, this`prevLength, this`matchLength,
        this`matchAvailable, this`lastLit, this`sent, this`blockStart, this`room, head, prev, dBuf, lBuf
      ensures Ready() && Held() && Out(strstart - Waiting()) && lastLit < litBufsize - 1 && Answered(old(room), room, !more)
      ensures base + strstart + lookahead == old(base + strstart + lookahead) && strstart > old(strstart)
      ensures Tokens() == old(Tokens()) + Lazily(P(), s).tokens && Now() == Lazily(P(), s).after && WholeBlocks(old(sent))
    {
      hide Out, Candidate, MatchAt, Win, Linked, Inserted, Wet, Plain, Rolling, Shown, Answered, Strings, Better, BestMatch;
      AnsweredNone(room);
      ghost var n := prevLength;
      var bflush := EmitPrevious();
      StringsSplit(data, s.At(), 1, n - 2);
      assert (s.ins + Strings(data, s.At(), 1)) + Strings(data, s.At() + 1, n - 2) == s.ins + Strings(data, s.At(), n - 1);
      more := true;
      if bflush {
        ReadyShown();
        more := FlushBlock();
      }
    }

    /** One round of deflate_slow. */
    method SlowRound() returns (more: bool)
      requires Ready() && Held() && Idle(Waiting()) && lookahead > 0 && Told() && Lazy()
      requires lookahead >= MIN_LOOKAHEAD || strstart <= 2 * wSize - MIN_LOOKAHEAD
      modifies this`insH, this`ins, this`top, this`strstart, this`lookahead, this`matchLength, this`matchStart, this`prevLength,
        this`prevMatch, this`matchAvailable, this`lastLit, this`sent, this`blockStart, this`room, this`trace, head, prev, dBuf, lBuf
      ensures Ready() && Held() && Idle(Waiting()) && Answered(old(room), room, !more)
      ensures base + strstart + lookahead == old(base + strstart + lookahead) && strstart > old(strstart)
      ensures Told() && trace == old(trace + [Now()]) && WholeBlocks(old(sent))
    {
      hide Plain, Rolling, Out, Shape, Answered, Lazily, Step, Now, Puts, Run, Lazy, Before;
      RoomAhead();
      ghost var s, ts := Now(), Tokens();
      more := SlowStep();
      LazyStep(s);
      Tell(s, ts);
    }

    /** The same, as it looks to the matcher. */
    method SlowTurn(flush: Flush, ghost was: seq<bool>, ghost from: nat) returns (more: bool)
      requires Ready() && Held() && Idle(Waiting()) && lookahead > 0 && Told() && Lazy()
      requires lookahead >= MIN_LOOKAHEAD || strstart <= 2 * wSize - MIN_LOOKAHEAD
      requires lookahead >= Enough(P()) || (!flush.NoFlush? && nextIn == [])
      requires Answered(was, room, false) && Ample(P(), trace, from, Stream(), !flush.NoFlush?)
      modifies this`insH, this`ins, this`top, this`strstart, this`lookahead, this`matchLength, this`matchStart, this`prevLength,
        this`prevMatch, this`matchAvailable, this`lastLit, this`sent, this`blockStart, this`room, this`trace, head, prev, dBuf, lBuf
      ensures Ready() && Held() && Idle(Waiting()) && Answered(was, room, !more)
      ensures base + strstart + lookahead == old(base + strstart + lookahead) && strstart > old(strstart)
      ensures Told() && old(trace) <= trace && Ample(P(), trace, from, Stream(), !flush.NoFlush?)
      ensures !more ==> !Answered(was, room, false)
    {
      hide Plain, Rolling, Held, Idle, Answered, Told, Lazy, Now, Ample, Enough;
      ghost var before := room;
      AmpleOn(flush, from);
      more := SlowRound();
      AnsweredMore(was, before, room, !more);
      OneAnswer(was, room);
    }

    lemma LazyStep(s: Sight)
      requires Lazy()
      ensures Step(P(), s) == Lazily(P(), s)
    {
      hide Lazily;
    }

    /** The byte still held back at the end of the data. */
    method LastByte()
      requires Ready() && Held() && Idle(Waiting()) && lookahead == 0
      modifies this`matchAvailable, this`lastLit, dBuf, lBuf
      ensures Ready() && Held() && Out(strstart) && lastLit < litBufsize && matchStart < WORD && !matchAvailable
      ensures Tokens() == old(Tokens()) + if old(matchAvailable) then [Literal(data, base + strstart - 1)] else []
    {
      hide Chains, Rolled, Out, Shows, Repeats, Literal;
      assert Tokens() == Tokens() + [];
      NothingHeld();
      if matchAvailable {
        Sizes();
        WindowEnd();
        ShowsAt(window[..], data, base, strstart + lookahead, strstart - 1);
        ghost var hd, pv, win := head[..], prev[..], window[..];
        var bflush := TallyLit(window[strstart - 1], strstart - 1);
        assert head[..] == hd && prev[..] == pv && window[..] == win;
        matchAvailable := false;
      }
    }

    lemma NothingHeld()
      requires Plain() && Held() && lookahead == 0
      ensures matchLength < MIN_MATCH
    {
    }

    /** deflate_slow: with a match held back for one step, in case the next is better. */
    method Slow(flush: Flush) returns (state: BlockState)
      requires Ready() && Held() && Idle(Waiting()) && Told() && Lazy()
      modifies this`strstart, this`lookahead, this`base, this`data, this`nextIn, this`matchStart, this`blockStart, this`insH,
        this`insert, this`highWater, this`ins, this`top, this`matchLength, this`prevLength, this`prevMatch, this`matchAvailable,
        this`lastLit, this`sent, this`room, this`trace, window, head, prev, dBuf, lBuf
      ensures Told() && old(trace) <= trace && (!state.NeedMore? ==> Now() == Before(P(), trace))
      ensures old(strstart) > 0 ==> strstart > 0
      ensures Ready() && Held() && Stream() == old(Stream())
      ensures Ample(P(), trace, |old(trace)|, Stream(), !flush.NoFlush?)
      ensures state.NeedMore? || (lookahead == 0 && nextIn == [] && !matchAvailable)
      ensures !state.NeedMore? ==> lastLit == 0
      ensures state.FinishDone? || state.FinishStarted? ==> flush.Finish?
      ensures Idle(Waiting()) && Returns(state, flush, old(room))
    {
      hide Plain, Rolling, Out, Shape, Idle, Stream, Win, Shown, Linked, Late, Wet, Chains, Shows, Rolled, Tokens, Expand, Held,
        Answered, Told, Before, Lazy, Now, Ample, SeesEnough;
      ReadyCounted();
      AnsweredNone(room);
      AmpleNone(P(), trace, Stream(), !flush.NoFlush?);
      while true
        invariant Told() && old(trace) <= trace && (old(strstart) > 0 ==> strstart > 0)
        invariant Ample(P(), trace, |old(trace)|, Stream(), !flush.NoFlush?)
        invariant Ready() && Held() && Idle(Waiting()) && base + strstart + lookahead == |data| && Stream() == old(Stream())
        invariant Answered(old(room), room, false)
        decreases |nextIn| + lookahead
      {
        if lookahead < MIN_LOOKAHEAD {
          Fill(Waiting());
          if lookahead < MIN_LOOKAHEAD && flush.NoFlush? { return NeedMore; }
          if lookahead == 0 { break; }
        }
        var more := SlowTurn(flush, old(room), |old(trace)|);
        if !more { return NeedMore; }
      }
      state := SlowEnd(flush, old(room), |old(trace)|);
    }

    /** The last step, which puts out the byte still held back; and the last block. */
    method SlowEnd(flush: Flush, ghost was: seq<bool>, ghost from: nat) returns (state: BlockState)
      requires Ready() && Held() && Idle(Waiting()) && lookahead == 0 && Told() && Lazy()
      requires nextIn == [] && !flush.NoFlush? && Answered(was, room, false) && Ample(P(), trace, from, Stream(), true)
      modifies this`matchAvailable, this`insert, this`top, this`sent, this`lastLit, this`blockStart, this`room, this`trace, dBuf, lBuf
      ensures Ready() && Held() && Idle(0) && !matchAvailable
      ensures state.FinishDone? || state.FinishStarted? ==> flush.Finish?
      ensures lastLit == 0 && Returns(state, flush, was) && Ample(P(), trace, from, Stream(), true)
      ensures Told() && trace == old(trace + [Now()]) && Now() == Before(P(), trace)
    {
      hide Plain, Rolling, Out, Shape, Answered, Puts, Run, Lazy, Before, Tokens, Now;
      ghost var before := room;
      AmpleOn(flush, from);
      LastStep();
      ReadyShown();
      state := Close(flush);
      AnsweredMore(was, before, room, state.FinishStarted? || state.NeedMore?);
      OneAnswer(was, room);
    }

    method LastStep()
      requires Ready() && Held() && Idle(Waiting()) && lookahead == 0 && Told() && Lazy()
      modifies this`matchAvailable, this`insert, this`top, this`lastLit, this`trace, dBuf, lBuf
      ensures Ready() && Held() && Out(strstart) && lastLit < litBufsize && matchStart < WORD && !matchAvailable
      ensures Told() && trace == old(trace + [Now()]) && Now() == Before(P(), trace)
    {
      hide Plain, Rolling, Out, Shape, Step, Puts, Run, Lazy, Before, Tokens, Literal, Lazily;
      ghost var s, ts := Now(), Tokens();
      ReadyCounted();
      LastByte();
      EndOfData();
      LazyStep(s);
      LazyEnd(s);
      Tell(s, ts);
    }

    /** At the end of the data: what is seen after the last step, which has begun with s. */
    lemma LazyEnd(s: Sight)
      requires s.data == data && s.base == base && s.str == strstart && base + strstart == |data| && s.ins == ins
      requires insert == Rest(strstart) && !matchAvailable && s.held == Now().held && s.dist == Now().dist
      ensures Lazily(P(), s).tokens == if s.waiting then [Literal(data, base + strstart - 1)] else []
      ensures Lazily(P(), s).after == Now()
    {
      hide Literal, Better, BestMatch;
    }

    // ----- deflate_rle and deflate_huff

    /** How often the byte before strstart repeats from there on, if that is at least three times. */
    method RunLength() returns (n: nat)
      requires Plain() && strstart + MAX_MATCH < 2 * wSize
      ensures n == 0 || (MIN_MATCH <= n <= MAX_MATCH && n <= lookahead && strstart > 0 && Repeats(data, base + strstart, 1, n))
      ensures n == if RunHere(Now()) >= MIN_MATCH then RunHere(Now()) else 0
    {
      hide Shows, Chains, Repeats, SameBytes, NoLonger, Linked, Shape, Common;
      Sizes();
      Counted();
      n := 0;
      if lookahead >= MIN_MATCH && strstart > 0 {
        WindowEnd();
        // what is looked at has been written
        assert strstart + MAX_MATCH < highWater;
        var prevByte := window[strstart - 1];
        if prevByte == window[strstart] && prevByte == window[strstart + 1] && prevByte == window[strstart + 2] {
          ThreeSame(window[..], strstart, strstart - 1);
          n := 3;
          while prevByte == window[strstart + n] && n < MAX_MATCH
            invariant 3 <= n <= MAX_MATCH && SameBytes(window[..], strstart, strstart - 1, n)
            invariant window[strstart + n - 1] == prevByte
            decreases MAX_MATCH - n
          {
            OneMoreSame(window[..], strstart, strstart - 1, n);
            n := n + 1;
          }
          ghost var k := n;
          if n > lookahead { n := lookahead; }
          RunEnds(k);
          FoundRepeats(window[..], data, base, strstart + lookahead, strstart, strstart - 1, k, n);
        } else {
          NoRun();
        }
      }
    }

    /** What RunLength counts is what there is. */
    lemma RunEnds(k: nat)
      requires Win() && strstart > 0 && lookahead >= MIN_MATCH && strstart + MAX_MATCH < window.Length && 3 <= k <= MAX_MATCH
      requires SameBytes(window[..], strstart, strstart - 1, k) && (k < MAX_MATCH ==> window[strstart + k] != window[strstart + k - 1])
      ensures RunHere(Now()) == if k < lookahead then k else lookahead
    {
      hide Shows, SameBytes, NoLonger, Common;
      Counted();
      if k < MAX_MATCH { PartAt(window[..], strstart, strstart - 1, k); } else { NothingLonger258(); }
      CommonShown(window[..], data, base, strstart + lookahead, strstart, strstart - 1, k);
    }

    lemma NothingLonger258()
      ensures NoLonger(window[..], strstart, strstart - 1, MAX_MATCH)
    {
    }

    lemma NoRun()
      requires Win() && strstart > 0 && lookahead >= MIN_MATCH && strstart + MAX_MATCH < window.Length
      requires var c := window[strstart - 1]; c != window[strstart] || c != window[strstart + 1] || c != window[strstart + 2]
      ensures RunHere(Now()) < MIN_MATCH
    {
      hide Shows, SameBytes, NoLonger, Common;
      Counted();
      var k := if window[strstart - 1] != window[strstart] then 0 else if window[strstart] != window[strstart + 1] then 1 else 2;
      PartAt(window[..], strstart, strstart - 1, k);
      CommonLess(window[..], data, base, strstart + lookahead, strstart, strstart - 1, k);
    }

    /** n bytes on, none of them inserted. */
    lemma Passed(p: nat, a: nat)
      requires Shape() && Win() && Late() && Wet() && p <= strstart && p + a == strstart + lookahead
      requires Chains(data, base, ins, head[..], prev[..], top, p, wSize, memLevel)
      ensures Plain()
    {
      hide Shows, Chains;
      WindowEnd();
      MovedOn(p);
    }

    /** One step of deflate_rle. */
    method RleStep() returns (bflush: bool)
      requires Plain() && Out(strstart) && lastLit < litBufsize - 1 && lookahead > 0 && strstart + MAX_MATCH < 2 * wSize
      modifies this`strstart, this`lookahead, this`matchLength, this`lastLit, dBuf, lBuf
      ensures Plain() && Out(strstart) && matchLength == 0
      ensures base + strstart + lookahead == old(base + strstart + lookahead) && strstart > old(strstart)
      ensures lastLit == old(lastLit) + 1 && bflush == (lastLit == litBufsize - 1)
      ensures old(matchLength) < MIN_MATCH ==>
                Tokens() == old(Tokens()) + Repeating(old(Now())).tokens && Now() == Repeating(old(Now())).after
    {
      hide Shape, Win, Linked, Wet, Repeats, Out, RunHere, Literal, Tokens;
      Counted();
      matchLength := RunLength();
      RunSame(old(Now()));
      if matchLength >= MIN_MATCH {
        bflush := TakeRun();
      } else {
        bflush := PutLiteral();
        StillPlain();
      }
    }

    /** A run goes out as a match of distance 1. */
    method TakeRun() returns (bflush: bool)
      requires Plain() && Out(strstart) && lastLit < litBufsize - 1 && MIN_MATCH <= matchLength <= MAX_MATCH
      requires matchLength <= lookahead && Repeats(data, base + strstart, 1, matchLength)
      modifies this`strstart, this`lookahead, this`matchLength, this`lastLit, dBuf, lBuf
      ensures Plain() && Out(strstart) && matchLength == 0
      ensures strstart == old(strstart + matchLength) && lookahead == old(lookahead - matchLength)
      ensures lastLit == old(lastLit) + 1 && bflush == (lastLit == litBufsize - 1)
      ensures Tokens() == old(Tokens()) + [Token(1, old(matchLength) - MIN_MATCH)]
    {
      hide Shows, Chains, Repeats, Out;
      Sizes();
      ghost var hd, pv, win, p, a := head[..], prev[..], window[..], strstart, lookahead;
      bflush := TallyDist(1, matchLength - MIN_MATCH, strstart);
      assert head[..] == hd && prev[..] == pv && window[..] == win;
      lookahead := lookahead - matchLength;
      strstart := strstart + matchLength;
      matchLength := 0;
      Passed(p, a);
    }

    lemma StillPlain()
      requires Shape() && Win() && Linked() && Wet() && strstart > 0 && insert <= 2 && insert < strstart + 1
      requires top <= base + strstart - 1 - insert
      ensures Plain()
    {
      hide Shape, Win, Linked, Wet;
    }

    lemma RunSame(s: Sight)
      requires s.data == data && s.base == base && s.str == strstart
      ensures RunHere(s) == RunHere(Now())
    {
      hide Common;
    }

    /** One round of deflate_rle, or of deflate_huff. */
    method PlainRound(runs: bool) returns (more: bool)
      requires Plain() && Idle(0) && lookahead > 0 && Told() && Plainly(runs) && matchLength < MIN_MATCH
      requires runs ==> lookahead > MAX_MATCH || strstart <= 2 * wSize - MIN_LOOKAHEAD
      modifies this`strstart, this`lookahead, this`matchLength, this`lastLit, this`sent, this`blockStart, this`room, this`trace,
        dBuf, lBuf
      ensures Plain() && Idle(0) && matchLength == 0 && Answered(old(room), room, !more)
      ensures base + strstart + lookahead == old(base + strstart + lookahead) && strstart > old(strstart)
      ensures Told() && trace == old(trace + [Now()]) && WholeBlocks(old(sent))
    {
      hide Plain, Win, Linked, Wet, Out, Shape, Answered, Puts, Run, Before, Step, Tokens, Now;
      AnsweredNone(room);
      ghost var s, ts := Now(), Tokens();
      ReadyShown();
      var bflush;
      if runs {
        RoomAhead();
        bflush := RleStep();
      } else {
        bflush := HuffStep();
      }
      PlainStep(s, runs);
      Tell(s, ts);
      more := true;
      if bflush {
        ReadyShown();
        more := FlushBlock();
      }
    }

    /** The same, as it looks to the matcher. */
    method PlainTurn(flush: Flush, runs: bool, ghost was: seq<bool>, ghost from: nat) returns (more: bool)
      requires Plain() && Idle(0) && lookahead > 0 && Told() && Plainly(runs) && matchLength < MIN_MATCH
      requires runs ==> lookahead > MAX_MATCH || strstart <= 2 * wSize - MIN_LOOKAHEAD
      requires lookahead >= Enough(P()) || (!flush.NoFlush? && nextIn == [])
      requires Answered(was, room, false) && Ample(P(), trace, from, Stream(), !flush.NoFlush?)
      modifies this`strstart, this`lookahead, this`matchLength, this`lastLit, this`sent, this`blockStart, this`room, this`trace,
        dBuf, lBuf
      ensures Plain() && Idle(0) && matchLength == 0 && Answered(was, room, !more)
      ensures base + strstart + lookahead == old(base + strstart + lookahead) && strstart > old(strstart)
      ensures Told() && old(trace) <= trace && Ample(P(), trace, from, Stream(), !flush.NoFlush?)
      ensures !more ==> !Answered(was, room, false)
    {
      hide Plain, Idle, Answered, Told, Plainly, Now, Ample, Enough;
      ghost var before := room;
      AmpleOn(flush, from);
      more := PlainRound(runs);
      AnsweredMore(was, before, room, !more);
      OneAnswer(was, room);
    }

    /** This stream's matcher is deflate_rle, or deflate_huff. */
    predicate Plainly(runs: bool) { if runs then strategy.Rle? else strategy.HuffmanOnly? }

    lemma PlainStep(s: Sight, runs: bool)
      requires Plainly(runs)
      ensures Step(P(), s) == if runs then Repeating(s) else OneByOne(s)
    {
    }

    /** One step of deflate_huff. */
    method HuffStep() returns (bflush: bool)
      requires Plain() && Out(strstart) && lastLit < litBufsize - 1 && lookahead > 0
      modifies this`strstart, this`lookahead, this`matchLength, this`lastLit, dBuf, lBuf
      ensures Plain() && Out(strstart) && matchLength == 0
      ensures base + strstart + lookahead == old(base + strstart + lookahead) && strstart > old(strstart)
      ensures lastLit == old(lastLit) + 1 && bflush == (lastLit == litBufsize - 1)
      ensures old(matchLength) < MIN_MATCH ==>
                Tokens() == old(Tokens()) + OneByOne(old(Now())).tokens && Now() == OneByOne(old(Now())).after
    {
      hide Win, Linked, Wet, Out, Shape, Literal, Tokens;
      Counted();
      matchLength := 0;
      bflush := PutLiteral();
    }

    /** deflate_rle, which looks for runs of one byte only, and deflate_huff, which looks for nothing. */
    method Runs(flush: Flush, runs: bool) returns (state: BlockState)
      requires Plain() && Idle(0) && matchLength < MIN_MATCH && Told() && Plainly(runs)
      modifies this`strstart, this`lookahead, this`base, this`data, this`nextIn, this`matchStart, this`blockStart, this`insH,
        this`insert, this`highWater, this`ins, this`top, this`matchLength, this`lastLit, this`sent, this`room, this`trace, window,
        head, prev, dBuf, lBuf
      ensures Told() && old(trace) <= trace && (!state.NeedMore? ==> Now() == Before(P(), trace))
      ensures old(strstart) > 0 ==> strstart > 0
      ensures Plain() && Idle(0) && matchLength < MIN_MATCH && Stream() == old(Stream())
      ensures Ample(P(), trace, |old(trace)|, Stream(), !flush.NoFlush?)
      ensures state.NeedMore? || (lookahead == 0 && nextIn == [])
      ensures !state.NeedMore? ==> lastLit == 0
      ensures state.FinishDone? || state.FinishStarted? ==> flush.Finish?
      ensures Returns(state, flush, old(room))
    {
      hide Plain, Out, Shape, Idle, Stream, Win, Shown, Linked, Late, Wet, Chains, Shows, Rolled, Rolling, Tokens, Expand, Answered,
        Told, Before, Now, Ample, SeesEnough;
      ReadyCounted();
      AnsweredNone(room);
      AmpleNone(P(), trace, Stream(), !flush.NoFlush?);
      var enough := if runs then MAX_MATCH else 0;
      while true
        invariant Plain() && Idle(0) && matchLength < MIN_MATCH && base + strstart + lookahead == |data|
        invariant Stream() == old(Stream()) && Answered(old(room), room, false)
        invariant Told() && old(trace) <= trace && (old(strstart) > 0 ==> strstart > 0)
        invariant Ample(P(), trace, |old(trace)|, Stream(), !flush.NoFlush?)
        decreases |nextIn| + lookahead
      {
        if lookahead <= enough {
          Fill(0);
          if lookahead <= enough && flush.NoFlush? { return NeedMore; }
          if lookahead == 0 { break; }
        }
        var more := PlainTurn(flush, runs, old(room), |old(trace)|);
        if !more { return NeedMore; }
      }
      state := RunsEnd(flush, runs, old(room), |old(trace)|);
    }

    /** The last step, which forgets strings to be inserted; and the last block. */
    method RunsEnd(flush: Flush, runs: bool, ghost was: seq<bool>, ghost from: nat) returns (state: BlockState)
      requires Plain() && Idle(0) && lookahead == 0 && Told() && Plainly(runs)
      requires nextIn == [] && !flush.NoFlush? && Answered(was, room, false) && Ample(P(), trace, from, Stream(), true)
      modifies this`insert, this`trace, this`sent, this`lastLit, this`blockStart, this`room
      ensures Plain() && Idle(0) && Told() && trace == old(trace + [Now()]) && Now() == Before(P(), trace)
      ensures lastLit == 0 && Returns(state, flush, was) && Ample(P(), trace, from, Stream(), true)
      ensures state.FinishDone? || state.FinishStarted? <==> flush.Finish?
    {
      hide Win, Linked, Wet, Shape, Puts, Run, Before, Tokens, Answered, Idle, Step;
      ghost var before := room;
      AmpleOn(flush, from);
      ghost var s, ts := Now(), Tokens();
      Counted();
      insert := 0;
      PlainStep(s, runs);
      assert ts + [] == ts;
      Tell(s, ts);
      state := Finished(flush);
      AnsweredMore(was, before, room, state.FinishStarted? || state.NeedMore?);
      OneAnswer(was, room);
    }

    // ----- deflate

    /** Whether this stream's matcher keeps the hash. */
    predicate Hashes() { !strategy.HuffmanOnly? && !strategy.Rle? }

    predicate Lazy() { Hashes() && Configuration(level).slow }

    /** What holds between any two calls. */
    ghost predicate Valid()
      reads this`strstart, this`lookahead, this`data, this`base, this`ins, this`top, this`insert, this`insH, this`highWater,
        this`matchLength, this`prevLength, this`matchAvailable, this`matchStart, this`sent, this`lastLit, this`blockStart,
        this`trace, window, head, prev, dBuf, lBuf
    {
      && Plain() && (Hashes() ==> Rolling()) && Idle(Waiting()) && Told()
      && (if Lazy() then Held() else !matchAvailable && matchLength < MIN_MATCH && prevLength == MIN_MATCH - 1)
    }

    /** The matcher for this level and strategy. */
    method Matcher(flush: Flush) returns (state: BlockState)
      requires Valid()
      modifies this`strstart, this`lookahead, this`base, this`data, this`nextIn, this`matchStart, this`blockStart, this`insH,
        this`insert, this`highWater, this`ins, this`top, this`matchLength, this`prevLength, this`prevMatch, this`matchAvailable,
        this`lastLit, this`sent, this`room, this`trace, window, head, prev, dBuf, lBuf
      ensures Valid() && Stream() == old(Stream())
      ensures Ample(P(), trace, |old(trace)|, Stream(), !flush.NoFlush?)
      ensures old(trace) <= trace && (!state.NeedMore? ==> Now() == Before(P(), trace))
      ensures old(strstart) > 0 ==> strstart > 0
      ensures state.NeedMore? || (lookahead == 0 && nextIn == [] && !matchAvailable)
      ensures !state.NeedMore? ==> lastLit == 0
      ensures state.FinishDone? || state.FinishStarted? ==> flush.Finish?
      ensures Returns(state, flush, old(room))
    {
      hide Plain, Rolling, Idle, Held, Stream, Configuration, Returns, Told, Before, Now, Ample;
      if strategy.HuffmanOnly? {
        state := Runs(flush, false);
      } else if strategy.Rle? {
        state := Runs(flush, true);
      } else if Configuration(level).slow {
        state := Slow(flush);
      } else {
        state := Fast(flush);
      }
    }

    method ClearHash()
      requires Shape()
      modifies head
      ensures forall h :: 0 <= h < head.Length ==> head[h] == 0
    {
      for h := 0 to head.Length
        invariant forall g :: 0 <= g < h ==> head[g] == 0
      {
        head[h] := 0;
      }
    }

    /** After a full flush nothing before it is looked at again. */
    method Forget()
      requires Plain() && Idle(0) && lookahead == 0 && lastLit == 0 && matchLength < MIN_MATCH
      modifies this`strstart, this`blockStart, this`insert, this`base, this`ins, this`top, head
      ensures Plain() && Idle(0) && base + strstart == old(base + strstart)
      ensures Tokens() == old(Tokens()) && Now() == Flushed(old(Now())) && strstart == 0 && ins == {}
    {
      hide Shows, Expand, Shape, Chains, AllProper, Out, Linked;
      Sizes();
      ghost var win, dv, lv, at := window[..], dBuf[..], lBuf[..], strstart;
      ClearHash();
      assert window[..] == win && dBuf[..] == dv && lBuf[..] == lv;
      OutMeans(at);
      base := base + strstart;
      strstart, blockStart, insert := 0, 0, 0;
      ins, top := {}, base;
      NothingLinked();
      ShowsNone(win, data, base);
      NothingPending();
    }

    lemma OutMeans(e: int)
      requires Out(e) && lastLit == 0
      ensures 0 <= base + e <= |data| && Expand(sent) == data[..base + e] && AllProper(sent, MaxDist(wSize))
      ensures |Expand(sent)| == base + blockStart
    {
      hide Expand, AllProper;
      assert Buffered(dBuf[..], lBuf[..], 0) == [] && sent + [] == sent;
    }

    lemma NothingPending()
      requires lastLit == 0 && blockStart == 0 && base <= |data| && Expand(sent) == data[..base] && AllProper(sent, MaxDist(wSize))
      ensures Out(0)
    {
      hide Expand, AllProper;
      assert Buffered(dBuf[..], lBuf[..], 0) == [] && sent + [] == sent;
    }

    lemma NothingLinked()
      requires Shape() && ins == {} && strstart == 0 && top == base && forall h :: 0 <= h < head.Length ==> head[h] == 0
      ensures Linked()
    {
      hide Chains;
      ChainsEmpty(data, base, head[..], prev[..], top, 0, wSize, memLevel);
    }

    /** Whether a call is for anything. */
    predicate Anything(more: seq<bv8>, flush: Flush)
      reads this`nextIn, this`lookahead, this`finished
    {
      nextIn + more != [] || lookahead != 0 || (!flush.NoFlush? && !finished)
    }

    /** deflate, as far as tokens: more input, and a matcher's turn if there is anything to do. With room throughout, a flush puts
        out everything, and a call without one reads everything. */
    method Deflate(more: seq<bv8>, flush: Flush) returns (state: BlockState)
      requires Valid()
      modifies this`strstart, this`lookahead, this`base, this`data, this`nextIn, this`matchStart, this`blockStart, this`insH,
        this`insert, this`highWater, this`ins, this`top, this`matchLength, this`prevLength, this`prevMatch, this`matchAvailable,
        this`lastLit, this`sent, this`room, this`finished, this`trace, window, head, prev, dBuf, lBuf
      ensures Valid() && Stream() == old(Stream()) + more && Ample(P(), trace, |old(trace)|, Stream(), !flush.NoFlush?)
      ensures Tokens() == Puts(P(), trace) && Run(P(), trace, Now()) && old(trace) <= trace
      ensures old(Anything(more, flush)) && state.BlockDone? && flush.FullFlush? ==> strstart == 0 && ins == {}
      ensures !(state.BlockDone? && flush.FullFlush?) && old(strstart) > 0 ==> strstart > 0
      ensures Expand(Tokens()) == data[..base + strstart - Waiting()] && AllProper(Tokens(), MaxDist(wSize))
      ensures base + strstart + lookahead == |data| && data <= Stream()
      ensures !state.NeedMore? ==> Expand(Tokens()) == Stream()
      ensures old(Anything(more, flush)) ==> Returns(state, flush, old(room))
      ensures !old(Anything(more, flush)) ==> state.NeedMore? && nextIn == [] && lookahead == 0 && Tokens() == old(Tokens())
      ensures false !in old(room) ==> nextIn == [] && lookahead < MIN_LOOKAHEAD
      ensures false !in old(room) && !flush.NoFlush? && old(Anything(more, flush)) ==> Expand(Tokens()) == Stream()
    {
      hide Valid, Expand, AllProper, Answered, Returns, Tokens, Now, Puts, Run, Waiting, Configuration, Ample;
      nextIn := nextIn + more;
      AmpleNone(P(), trace, Stream(), !flush.NoFlush?);
      assert data + nextIn == old(data + nextIn) + more;
      StillValid();
      state := NeedMore;
      if nextIn != [] || lookahead != 0 || (!flush.NoFlush? && !finished) {
        state := Turn(flush);
        if false !in old(room) { WithRoom(state, flush, old(room)); }
      }
      AllOut();
      ToldParts();
      AllOfIt();
    }

    /** When nothing is left to do, the tokens stand for all of the input. */
    lemma AllOfIt()
      requires Valid()
      ensures lookahead == 0 && nextIn == [] && !matchAvailable ==> Expand(Tokens()) == Stream()
    {
      hide Expand, AllProper, Tokens, Valid;
      AllOut();
      assert data[..|data|] == data && data + [] == data;
    }

    lemma StillValid()
      requires Valid()
      ensures Valid() && base + strstart + lookahead == |data|
    {
      AllOut();
    }

    /** The matcher's turn, and what a full flush does after it. */
    method Turn(flush: Flush) returns (state: BlockState)
      requires Valid()
      modifies this`strstart, this`lookahead, this`base, this`data, this`nextIn, this`matchStart, this`blockStart, this`insH,
        this`insert, this`highWater, this`ins, this`top, this`matchLength, this`prevLength, this`prevMatch, this`matchAvailable,
        this`lastLit, this`sent, this`room, this`finished, this`trace, window, head, prev, dBuf, lBuf
      ensures Valid() && Stream() == old(Stream()) && Returns(state, flush, old(room)) && old(trace) <= trace
      ensures Ample(P(), trace, |old(trace)|, Stream(), !flush.NoFlush?)
      ensures state.BlockDone? && flush.FullFlush? ==> strstart == 0 && ins == {}
      ensures !(state.BlockDone? && flush.FullFlush?) && old(strstart) > 0 ==> strstart > 0
      ensures !state.NeedMore? ==> lookahead == 0 && nextIn == [] && !matchAvailable
    {
      hide Plain, Rolling, Idle, Held, Configuration, Returns, Stream, Told, Before, Now, Ample;
      state := Matcher(flush);
      if state.FinishStarted? || state.FinishDone? { finished := true; }
      if state.BlockDone? && flush.FullFlush? { Forgotten(); }
    }

    lemma WithRoom(state: BlockState, flush: Flush, before: seq<bool>)
      requires Returns(state, flush, before) && false !in before
      ensures state.NeedMore? ==> flush.NoFlush? && nextIn == [] && lookahead < MIN_LOOKAHEAD
    {
    }

    method Forgotten()
      requires Valid() && lookahead == 0 && lastLit == 0 && !matchAvailable && Now() == Before(P(), trace)
      modifies this`strstart, this`blockStart, this`insert, this`base, this`ins, this`top, head
      ensures Valid() && strstart == 0 && ins == {}
    {
      hide Configuration, Win, Linked, Late, Wet, Out, Shape, Repeats, Now, Before, Run, Puts, Flushed;
      HeldLittle();
      RunFlushed(P(), trace);
      Forget();
    }

    lemma HeldLittle()
      requires Valid() && !matchAvailable
      ensures matchLength < MIN_MATCH
    {
      hide Plain, Rolling, Idle, Repeats;
    }

    lemma AllOut()
      requires Valid()
      ensures Told()
      ensures Expand(Tokens()) == data[..base + strstart - Waiting()] && AllProper(Tokens(), MaxDist(wSize))
      ensures base + strstart + lookahead == |data|
    {
      hide Linked, Late, Wet, Shows, Expand, AllProper, Held, Rolling, Configuration, Told;
    }
  }

  lemma ShowsNone(win: seq<bv8>, data: seq<bv8>, base: nat)
    requires base <= |data|
    ensures Shows(win, data, base, 0)
  {
  }

  lemma SlidRolled(win: seq<bv8>, win': seq<bv8>, h: word, p: nat, m: nat, n: nat, w: nat)
    requires Rolled(win, h, p, m) && w <= p && p + 3 <= n <= |win| == |win'| && win'[..n - w] == win[w..n]
    ensures Rolled(win', h, p - w, m)
  {
    assert win'[..n - w][p - w] == win[w..n][p - w] && win'[..n - w][p - w + 1] == win[w..n][p - w + 1];
    RolledSame(win, win', h, p, p - w, m);
  }
}
