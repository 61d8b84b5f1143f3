/** What each of deflate's matchers puts out: one step as a function of what the matcher can see, and a run as steps with more
    input in between. */
module MatcherSteps {
  import opened Lz77
  import opened HashChains

  const TOO_FAR := 4096

  datatype Strategy = Default | Filtered | HuffmanOnly | Rle | Fixed

  datatype Config = Config(good: nat, lazy: nat, nice: nat, chain: nat, slow: bool)

  /** configuration_table. */
  function Configuration(level: nat): (r: Config)
    ensures r.chain >= 4 && 3 < r.lazy <= MAX_MATCH && MIN_MATCH < r.nice <= MAX_MATCH && r.good >= 4
  {
    match level
    case 1 => Config(4, 4, 8, 4, false)
    case 2 => Config(4, 5, 16, 8, false)
    case 3 => Config(4, 6, 32, 32, false)
    case 4 => Config(4, 4, 16, 16, true)
    case 5 => Config(8, 16, 32, 32, true)
    case 6 => Config(8, 16, 128, 128, true)
    case 7 => Config(8, 32, 128, 256, true)
    case 8 => Config(32, 128, 258, 1024, true)
    case _ => Config(32, 258, 258, 4096, true)
  }

  /** What a stream is begun with: w_size and memLevel besides level and strategy. */
  datatype Setting = Setting(level: nat, strategy: Strategy, w: nat, m: nat)

  /** What a matcher can see. data: all bytes read, base of them before the window. str: the window position of the string it is
      at. ins: the strings in the table. insert: how many strings before str go into it once they are complete. held: the length
      of the match of the string before, at distance dist, that is held back, or 2. waiting: whether the byte before str is still
      to be put out. */
  datatype Sight = Sight(data: seq<bv8>, base: nat, str: nat, ins: set<int>, insert: nat, held: nat, dist: nat, waiting: bool)
  {
    function At(): nat { base + str }

    function Ahead(): nat { if |data| >= base + str then |data| - base - str else 0 }
  }

  /** What a step puts out, and what the matcher sees after it. */
  datatype Taken = Taken(tokens: seq<Token>, after: Sight)

  // ----- searching

  function ByteAt(data: seq<bv8>, a: int): bv8
  {
    if 0 <= a < |data| then data[a] else 0
  }

  /** How many bytes from a on are those from b on, up to most. */
  function Common(data: seq<bv8>, a: int, b: int, most: nat): (n: nat)
    ensures n <= most
    decreases most
  {
    if most == 0 || ByteAt(data, a) != ByteAt(data, b) then 0 else 1 + Common(data, a + 1, b + 1, most - 1)
  }

  /** Window position x is that of an inserted string with hash h. */
  predicate Listed(data: seq<bv8>, base: nat, ins: set<int>, m: nat, h: int, x: int)
  {
    base + x in ins && HashAt(data, base + x, m) == h
  }

  /** The window positions of inserted strings with hash h, from the one nearest below p down to those above lo, n at most. */
  function Below(data: seq<bv8>, base: nat, ins: set<int>, m: nat, h: int, p: int, lo: int, n: nat): (r: seq<int>)
    decreases if p > lo then p - lo else 0
  {
    if n == 0 || p - 1 <= lo then []
    else if Listed(data, base, ins, m, h, p - 1) then [p - 1] + Below(data, base, ins, m, h, p - 1, lo, n - 1)
    else Below(data, base, ins, m, h, p - 1, lo, n)
  }

  /** Where a search stops going back; where it begins may be one further back. */
  function Nearest(str: nat, w: nat): nat
  {
    if str > MaxDist(w) then str - MaxDist(w) else 0
  }

  /** The places that a search for the string looks at, at most chain of them. */
  function Places(p: Setting, s: Sight, chain: nat): seq<int>
  {
    if s.Ahead() < MIN_MATCH || chain == 0 then []
    else
      var h := HashAt(s.data, s.At(), p.m);
      var first := Below(s.data, s.base, s.ins, p.m, h, s.str, Limit(s.str, p.w), 1);
      if first == [] then []
      else first + Below(s.data, s.base, s.ins, p.m, h, first[0], Nearest(s.str, p.w), chain - 1)
  }

  datatype Found = Found(len: nat, at: int)

  /** The first place that is good enough, or else the first of those with the most bytes in common, if they are more than those
      of best. */
  function Scan(data: seq<bv8>, a: int, base: int, places: seq<int>, most: nat, nice: nat, best: Found): (r: Found)
    ensures r.len >= best.len && (r.len == best.len ==> r == best) && (r.len > best.len ==> r.len <= most)
    decreases |places|
  {
    if places == [] then best
    else
      var n := Common(data, a, base + places[0], most);
      if n <= best.len then Scan(data, a, base, places[1..], most, nice, best)
      else if n >= nice then Found(n, places[0])
      else Scan(data, a, base, places[1..], most, nice, Found(n, places[0]))
  }

  function Most(ahead: nat): nat { if ahead < MAX_MATCH then ahead else MAX_MATCH }

  function Nice(level: nat, ahead: nat): nat
  {
    if Configuration(level).nice > ahead then ahead else Configuration(level).nice
  }

  function Patience(level: nat, held: nat): (r: nat)
    ensures r >= 1
  {
    if held >= Configuration(level).good then Configuration(level).chain / 4 else Configuration(level).chain
  }

  /** The longest match of the string that is longer than held, as far as a search looks. */
  function BestMatch(p: Setting, s: Sight, held: nat): (r: Found)
    ensures r.len >= held && (r.len > held ==> r.len <= Most(s.Ahead()))
  {
    Scan(s.data, s.At(), s.base, Places(p, s, Patience(p.level, held)), Most(s.Ahead()), Nice(p.level, s.Ahead()), Found(held, 0))
  }

  // ----- steps

  function Gap(p: int, q: int): nat { if p > q then p - q else 0 }

  function Literal(data: seq<bv8>, a: int): Token { Token(0, ByteAt(data, a) as nat) }

  /** The complete strings of the n that begin at a. */
  function Strings(data: seq<bv8>, a: nat, n: nat): set<int>
  {
    if n == 0 then {}
    else Strings(data, a, n - 1) + if a + n - 1 + MIN_MATCH <= |data| then {a + n - 1} else {}
  }

  /** At the end of the data: its last strings go into the table when there is more. */
  function Rest(str: nat): nat { if str < MIN_MATCH - 1 then str else MIN_MATCH - 1 }

  /** deflate_fast: a match is taken at once. */
  function Greedy(p: Setting, s: Sight): Taken
  {
    if s.Ahead() == 0 then Taken([], s.(insert := Rest(s.str)))
    else
      var f := BestMatch(p, s, MIN_MATCH - 1);
      if f.len < MIN_MATCH then
        Taken([Literal(s.data, s.At())], s.(str := s.str + 1, ins := s.ins + Strings(s.data, s.At(), 1)))
      else
        var all := f.len <= Configuration(p.level).lazy && s.Ahead() >= f.len + MIN_MATCH;
        Taken([Token(Gap(s.str, f.at), f.len - MIN_MATCH)],
            s.(str := s.str + f.len, ins := s.ins + Strings(s.data, s.At(), if all then f.len else 1)))
  }

  /** A match that is not worth its token. */
  predicate Poor(p: Setting, s: Sight, f: Found)
  {
    f.len <= 5 && (p.strategy.Filtered? || (f.len == MIN_MATCH && Gap(s.str, f.at) > TOO_FAR))
  }

  /** Whether the string has a better match than the one held back. */
  predicate Better(p: Setting, s: Sight)
  {
    && s.held < Configuration(p.level).lazy && BestMatch(p, s, s.held).len > s.held
    && !Poor(p, s, BestMatch(p, s, s.held))
  }

  /** deflate_slow: a match is held back, and taken if the next string has no better one. */
  function Lazily(p: Setting, s: Sight): Taken
  {
    var before := if s.waiting then [Literal(s.data, s.At() - 1)] else [];
    if s.Ahead() == 0 then Taken(before, s.(waiting := false, insert := Rest(s.str)))
    else if s.held >= MIN_MATCH && !Better(p, s) then
      Taken([Token(s.dist, s.held - MIN_MATCH)],
          s.(str := s.str + s.held - 1, ins := s.ins + Strings(s.data, s.At(), s.held - 1), held := 2, dist := 0, waiting := false))
    else
      var f := if Better(p, s) then BestMatch(p, s, s.held) else Found(2, s.str);
      Taken(before, s.(str := s.str + 1, ins := s.ins + Strings(s.data, s.At(), 1), held := f.len, dist := Gap(s.str, f.at),
                     waiting := true))
  }

  /** deflate_rle: runs of the byte before. */
  function RunHere(s: Sight): nat
  {
    if s.Ahead() >= MIN_MATCH && s.str > 0 then Common(s.data, s.At(), s.At() - 1, Most(s.Ahead())) else 0
  }

  function Repeating(s: Sight): Taken
  {
    if s.Ahead() == 0 then Taken([], s.(insert := 0))
    else if RunHere(s) >= MIN_MATCH then Taken([Token(1, RunHere(s) - MIN_MATCH)], s.(str := s.str + RunHere(s)))
    else Taken([Literal(s.data, s.At())], s.(str := s.str + 1))
  }

  /** deflate_huff. */
  function OneByOne(s: Sight): Taken
  {
    if s.Ahead() == 0 then Taken([], s.(insert := 0)) else Taken([Literal(s.data, s.At())], s.(str := s.str + 1))
  }

  /** A step of the matcher for this level and strategy. */
  function Step(p: Setting, s: Sight): Taken
  {
    if p.strategy.HuffmanOnly? then OneByOne(s)
    else if p.strategy.Rle? then Repeating(s)
    else if Configuration(p.level).slow then Lazily(p, s)
    else Greedy(p, s)
  }

  // ----- runs

  /** The last strings before a that were incomplete, as far as they are now complete; and how many are not. */
  function Late(data: seq<bv8>, a: nat, insert: nat): set<int>
  {
    Strings(data, Gap(a, insert), a - Gap(a, insert))
  }

  function StillLate(data: seq<bv8>, a: nat, insert: nat): nat
  {
    if |data| >= a + 2 then 0 else if insert < a + 2 - |data| then insert else a + 2 - |data|
  }

  /** fill_window: more data, perhaps, and the window perhaps moved on, as far as nothing in reach is lost. */
  ghost predicate Filled(w: nat, s: Sight, t: Sight)
  {
    && t.At() == s.At() && t.held == s.held && t.dist == s.dist && t.waiting == s.waiting
    && s.data <= t.data && s.base <= t.base && (t.base == s.base || t.str >= MaxDist(w))
    && (if t.data == s.data then t.ins == s.ins && t.insert == s.insert
        else t.ins == s.ins + Late(t.data, t.At(), s.insert) && t.insert == StillLate(t.data, t.At(), s.insert))
  }

  /** A full flush. */
  function Flushed(s: Sight): Sight
  {
    s.(base := s.base + s.str, str := 0, ins := {}, insert := 0)
  }

  ghost predicate Follows(w: nat, s: Sight, t: Sight)
  {
    Filled(w, s, t) || Filled(w, Flushed(s), t)
  }

  function Start(): Sight { Sight([], 0, 0, {}, 0, 2, 0, false) }

  function Before(p: Setting, trace: seq<Sight>): Sight
  {
    if trace == [] then Start() else Step(p, trace[|trace| - 1]).after
  }

  /** The steps were taken one after the other, from the start, with input or a flush in between, and have come to now. */
  ghost predicate Run(p: Setting, trace: seq<Sight>, now: Sight)
  {
    && Follows(p.w, Before(p, trace), now)
    && (trace != [] ==> Run(p, trace[..|trace| - 1], trace[|trace| - 1]))
  }

  /** What a matcher wants ahead of it before it takes a step. */
  function Enough(p: Setting): nat
  {
    if p.strategy.HuffmanOnly? then 1 else if p.strategy.Rle? then MAX_MATCH + 1 else MIN_LOOKAHEAD
  }

  /** The step sees enough, or, when a flush is asked for, all the input that there is. */
  ghost predicate SeesEnough(p: Setting, s: Sight, all: seq<bv8>, flushing: bool)
  {
    s.Ahead() >= Enough(p) || (flushing && s.data == all)
  }

  /** So do all steps from number k on. */
  ghost predicate Ample(p: Setting, trace: seq<Sight>, k: nat, all: seq<bv8>, flushing: bool)
  {
    forall i :: k <= i < |trace| ==> SeesEnough(p, trace[i], all, flushing)
  }

  lemma AmpleMore(p: Setting, trace: seq<Sight>, s: Sight, k: nat, all: seq<bv8>, flushing: bool)
    requires Ample(p, trace, k, all, flushing) && SeesEnough(p, s, all, flushing)
    ensures Ample(p, trace + [s], k, all, flushing)
  {
    hide SeesEnough;
  }

  lemma AmpleNone(p: Setting, trace: seq<Sight>, all: seq<bv8>, flushing: bool)
    ensures Ample(p, trace, |trace|, all, flushing)
  {
  }

  /** All that they put out. */
  function Puts(p: Setting, trace: seq<Sight>): seq<Token>
  {
    if trace == [] then [] else Puts(p, trace[..|trace| - 1]) + Step(p, trace[|trace| - 1]).tokens
  }

  lemma {:induction false} StringsAre(data: seq<bv8>, a: nat, n: nat, q: int)
    ensures q in Strings(data, a, n) <==> a <= q < a + n && q + MIN_MATCH <= |data|
    decreases n
  {
    if n > 0 { StringsAre(data, a, n - 1, q); }
  }

  lemma NoStrings(data: seq<bv8>, a: nat)
    ensures Strings(data, a, 0) == {}
  {
  }

  lemma StringsNext(data: seq<bv8>, a: nat, n: nat)
    ensures Strings(data, a, n + 1) == Strings(data, a, n) + if a + n + MIN_MATCH <= |data| then {a + n} else {}
  {
  }

  lemma StringsSplit(data: seq<bv8>, a: nat, m: nat, n: nat)
    ensures Strings(data, a, m + n) == Strings(data, a, m) + Strings(data, a + m, n)
  {
    hide Strings;
    var all, parts := Strings(data, a, m + n), Strings(data, a, m) + Strings(data, a + m, n);
    forall q: int ensures q in all <==> q in parts {
      StringsAre(data, a, m + n, q);
      StringsAre(data, a, m, q);
      StringsAre(data, a + m, n, q);
    }
  }

  lemma Incomplete(data: seq<bv8>, a: nat, n: nat)
    requires a + MIN_MATCH > |data|
    ensures Strings(data, a, n) == {}
  {
    hide Strings;
    forall q: int ensures q !in Strings(data, a, n) { StringsAre(data, a, n, q); }
  }

  /** In two portions, as there is more data: first those complete by then, then the rest. */
  lemma LateTwice(data: seq<bv8>, more: seq<bv8>, a: nat, insert: nat)
    requires |data| <= |more|
    ensures Late(more, a, insert) == Late(data, a, insert) + Late(more, a, StillLate(data, a, insert))
    ensures StillLate(more, a, StillLate(data, a, insert)) == StillLate(more, a, insert)
  {
    hide Strings;
    var still := StillLate(data, a, insert);
    forall q: int
      ensures q in Late(more, a, insert) <==> q in Late(data, a, insert) + Late(more, a, still)
    {
      StringsAre(more, Gap(a, insert), a - Gap(a, insert), q);
      StringsAre(data, Gap(a, insert), a - Gap(a, insert), q);
      StringsAre(more, Gap(a, still), a - Gap(a, still), q);
    }
  }

  lemma FilledTwice(w: nat, s: Sight, t: Sight, u: Sight)
    requires Filled(w, s, t) && Filled(w, t, u)
    ensures Filled(w, s, u)
  {
    hide Late, StillLate;
    if t.data != s.data && u.data != t.data {
      LateTwice(t.data, u.data, s.At(), s.insert);
      assert (s.ins + Late(t.data, s.At(), s.insert)) + Late(u.data, s.At(), t.insert)
             == s.ins + (Late(t.data, s.At(), s.insert) + Late(u.data, s.At(), t.insert));
    }
  }

  lemma FilledNot(w: nat, s: Sight)
    ensures Filled(w, s, s)
  {
  }

  /** More input changes nothing about the steps taken. */
  lemma RunFilled(p: Setting, trace: seq<Sight>, s: Sight, t: Sight)
    requires Run(p, trace, s) && Filled(p.w, s, t)
    ensures Run(p, trace, t)
  {
    hide Filled;
    var b := Before(p, trace);
    if Filled(p.w, b, s) { FilledTwice(p.w, b, s, t); } else { FilledTwice(p.w, Flushed(b), s, t); }
  }

  /** Nor does a full flush right after a step. */
  lemma RunFlushed(p: Setting, trace: seq<Sight>)
    requires Run(p, trace, Before(p, trace))
    ensures Run(p, trace, Flushed(Before(p, trace)))
  {
    hide Filled, Flushed;
    FilledNot(p.w, Flushed(Before(p, trace)));
  }

  lemma RunBegins(p: Setting)
    ensures Run(p, [], Start()) && Puts(p, []) == []
  {
  }

  lemma RunOn(p: Setting, trace: seq<Sight>, now: Sight)
    requires Run(p, trace, now)
    ensures Run(p, trace + [now], Step(p, now).after) && Puts(p, trace + [now]) == Puts(p, trace) + Step(p, now).tokens
  {
    hide Step, Filled;
    var more := trace + [now];
    assert more[..|more| - 1] == trace;
    FilledNot(p.w, Step(p, now).after);
  }
}
