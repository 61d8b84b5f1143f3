/** Decoding the symbols of a deflate block: the tables as functions of the unread bits, and the decoder as an abstract machine
    that takes one small step at a time. */
module InflateSpec {
  import opened Octets
  import opened Bits
  import opened CanonicalCode
  import opened TableCells
  import opened InflateTable
  import opened Lz77

  // ----- tables

  const INVALID := Code(64, 1, 0)

  /** What the table says about the bits h: the root entry, or the sub-table's entry with the bits of both. */
  function Entry(table: seq<Code>, root: nat, h: nat): Code
  {
    if Lo(h, root) >= |table| then INVALID
    else
      var here := table[Lo(h, root)];
      if !IsLink(here) then here
      else
        var i := here.val + Lo(Hi(h, here.bits), here.op);
        if i >= |table| then INVALID else Code(table[i].op, here.bits + table[i].bits, table[i].val)
  }

  predicate IsLiteral(e: Code) { e.op == 0 && e.val < 256 }

  /** A length with up to 5 extra bits: no more than 258 with all of them set. */
  predicate IsLength(e: Code)
  {
    16 <= e.op <= 21 && MIN_MATCH <= e.val && e.val + Pow2(e.op - 16) <= MAX_MATCH + 1
  }

  predicate IsDistance(e: Code) { 16 <= e.op <= 29 && e.val >= 1 }

  predicate IsEnd(e: Code) { e.op == 96 }

  predicate IsInvalid(e: Code) { e.op == 64 || e.op == 77 || e.op == 202 }

  predicate Known(e: Code, dist: bool)
  {
    1 <= e.bits <= MAXBITS && (IsInvalid(e) || if dist then IsDistance(e) else IsLiteral(e) || IsLength(e) || IsEnd(e))
  }

  /** Looking up h stays within the table and ends with an entry of the table's kind. */
  ghost predicate LooksUp(table: seq<Code>, root: nat, dist: bool, h: nat)
  {
    && Lo(h, root) < |table| && Known(Entry(table, root, h), dist)
    && var here := table[Lo(h, root)];
       IsLink(here) ==> here.bits == root && here.val + Lo(Hi(h, here.bits), here.op) < |table|
  }

  /** The entry depends on no more bits than it stands for. */
  ghost predicate Prefixed(table: seq<Code>, root: nat, g: nat, h: nat)
  {
    var k := Entry(table, root, g).bits;
    Lo(g, k) == Lo(h, k) ==> Entry(table, root, h) == Entry(table, root, g)
  }

  ghost predicate TableOk(table: seq<Code>, root: nat, dist: bool)
  {
    && 1 <= root <= MAXBITS && (forall h: nat :: LooksUp(table, root, dist, h))
    && forall g: nat, h: nat :: Prefixed(table, root, g, h)
  }

  // ----- what inflate_table builds is such a table

  lemma FindsEntry(table: seq<Code>, root: nat, h: nat, e: Code)
    requires Finds(table, root, h, e) && !IsLink(e)
    ensures Entry(table, root, h) == e && Lo(h, root) < |table|
    ensures var here := table[Lo(h, root)];
            IsLink(here) ==> here.bits == root && here.val + Lo(Hi(h, here.bits), here.op) < |table|
  {
    hide Lo, Hi, Pow2;
  }

  lemma LenMeaning(s: nat, bits: nat)
    requires s < 288 && 1 <= bits <= MAXBITS
    ensures Known(Meaning(Lens, s, bits), false) && !IsLink(Meaning(Lens, s, bits))
  {
    if s >= 257 { LengthEntry(s - 257); }
  }

  lemma LengthEntry(i: nat)
    requires i < 31
    ensures 16 <= LEXT[i] <= 21 ==> MIN_MATCH <= LBASE[i] && LBASE[i] + Pow2(LEXT[i] - 16) <= MAX_MATCH + 1
    ensures LEXT[i] in [16, 17, 18, 19, 20, 21, 77, 202]
  {
    assert Pow2(0) == 1 && Pow2(1) == 2 && Pow2(2) == 4 && Pow2(3) == 8;
    assert Pow2(4) == 16 && Pow2(5) == 32;
    LengthTable(i);
  }

  lemma LengthTable(i: nat)
    requires i < 31
    ensures LEXT[i] in [16, 17, 18, 19, 20, 21, 77, 202]
    ensures LEXT[i] == 16 ==> 3 <= LBASE[i] <= 258
    ensures 17 <= LEXT[i] <= 21 ==> 3 <= LBASE[i] && LBASE[i] + (if LEXT[i] == 17 then 2 else if LEXT[i] == 18 then 4
                                                                else if LEXT[i] == 19 then 8 else if LEXT[i] == 20 then 16 else 32) <= 259
  {
  }

  lemma DistMeaning(s: nat, bits: nat)
    requires s < 32 && 1 <= bits <= MAXBITS
    ensures Known(Meaning(Dists, s, bits), true) && !IsLink(Meaning(Dists, s, bits))
  {
    DistTable(s);
  }

  lemma DistTable(s: nat)
    requires s < 32
    ensures (16 <= DEXT[s] <= 29 && DBASE[s] >= 1) || DEXT[s] == 64
  {
  }

  /** The symbol that h begins with, or that there is none: and then none for any bits that begin with the same bit. */
  lemma EntryOf(table: seq<Code>, root: nat, typ: CodeType, lens: seq<nat>, h: nat) returns (e: Code)
    requires Decodes(table, root, typ, lens) && LengthsOk(lens) && typ != Codes
    ensures Finds(table, root, h, e) && !IsLink(e) && Known(e, typ == Dists)
    ensures Unspelled(lens, h) ==> e == INVALID
    ensures !Unspelled(lens, h) ==> exists s :: 0 <= s < |lens| && Spells(lens, h, s) && e == Meaning(typ, s, lens[s])
  {
    hide Finds, Rev, CodeOf, Lo, Meaning, Pow2, Spells;
    if s :| 0 <= s < |lens| && Spells(lens, h, s) {
      e := Meaning(typ, s, lens[s]);
      SpelledLength(lens, h, s);
      if typ == Lens { LenMeaning(s, lens[s]); } else { DistMeaning(s, lens[s]); }
    } else {
      assert Unspelled(lens, h);
      e := INVALID;
    }
  }

  lemma SpelledLength(lens: seq<nat>, h: nat, s: nat)
    requires s < |lens| && LengthsOk(lens) && Spells(lens, h, s)
    ensures 1 <= lens[s] <= MAXBITS
  {
  }

  lemma MeaningBits(typ: CodeType, s: nat, bits: nat)
    requires s < MostSymbols(typ)
    ensures Meaning(typ, s, bits).bits == bits
  {
  }

  lemma SameSpelling(lens: seq<nat>, g: nat, h: nat, s: nat)
    requires s < |lens| && Spells(lens, g, s) && Lo(g, lens[s]) == Lo(h, lens[s])
    ensures Spells(lens, h, s)
  {
    hide Rev, CodeOf, Lo;
  }

  /** With no code or a single one, bits that begin with no code begin with another bit. */
  lemma SameUnspelled(typ: CodeType, lens: seq<nat>, g: nat, h: nat)
    requires LengthsOk(lens) && Acceptable(typ, lens) && Unspelled(lens, g) && Lo(g, 1) == Lo(h, 1)
    ensures Unspelled(lens, h)
  {
    hide Rev, CodeOf, Lo, Pow2, Kraft;
    if Kraft(lens, MAXBITS) == Pow2(MAXBITS) {
      KraftIsEnd(lens, MAXBITS);
      var s := SomeSymbol(lens, g, MAXBITS);
    } else if Kraft(lens, MAXBITS) == 0 {
      forall s | 0 <= s < |lens| ensures !Spells(lens, h, s) { NoCode(lens, s); }
    } else {
      var s :| 0 <= s < |lens| && OnlyCode(lens, s);
      forall t | 0 <= t < |lens| ensures !Spells(lens, h, t) {
        if t == s && Spells(lens, h, s) { SameSpelling(lens, h, g, s); }
      }
    }
  }

  lemma {:induction false} NoCode(lens: seq<nat>, s: nat)
    requires s < |lens| && LengthsOk(lens) && Kraft(lens, MAXBITS) == 0
    ensures lens[s] == 0
    decreases |lens|
  {
    var t := lens[..|lens| - 1];
    if s < |t| { NoCode(t, s); }
  }

  lemma DecodesPrefixed(table: seq<Code>, root: nat, typ: CodeType, lens: seq<nat>, g: nat, h: nat)
    requires Decodes(table, root, typ, lens) && LengthsOk(lens) && typ != Codes && Acceptable(typ, lens)
    ensures Prefixed(table, root, g, h)
  {
    hide Finds, Rev, CodeOf, Lo, Meaning, Pow2, Spells, Acceptable, Known, Entry;
    var e := EntryOf(table, root, typ, lens, g);
    FindsEntry(table, root, g, e);
    if Lo(g, e.bits) == Lo(h, e.bits) {
      if Unspelled(lens, g) {
        SameUnspelled(typ, lens, g, h);
        FindsEntry(table, root, h, e);
      } else {
        var s :| 0 <= s < |lens| && Spells(lens, g, s) && e == Meaning(typ, s, lens[s]);
        MeaningBits(typ, s, lens[s]);
        SameSpelling(lens, g, h, s);
        FindsEntry(table, root, h, e);
      }
    }
  }

  /** A table that inflate_table has built is good to decode with. */
  lemma DecodesOk(table: seq<Code>, root: nat, typ: CodeType, lens: seq<nat>)
    requires Decodes(table, root, typ, lens) && LengthsOk(lens) && typ != Codes && Acceptable(typ, lens) && 1 <= root <= MAXBITS
    ensures TableOk(table, root, typ == Dists)
  {
    hide Finds, Rev, CodeOf, Lo, Hi, Meaning, Pow2, Spells, Acceptable, Known, Entry, Decodes, Prefixed;
    var dist := typ == Dists;
    forall h: nat ensures LooksUp(table, root, dist, h) {
      var e := EntryOf(table, root, typ, lens, h);
      FindsEntry(table, root, h, e);
    }
    forall g: nat, h: nat ensures Prefixed(table, root, g, h) {
      DecodesPrefixed(table, root, typ, lens, g, h);
    }
  }

  // ----- the unread bits

  /** A string of bytes as a number, the first one lowest. */
  function LE(s: seq<octet>): nat
  {
    if s == [] then 0 else s[0] + 256 * LE(s[1..])
  }

  /** The unread bits n: the lowest in hold, and the rest from position pos of the input on. */
  ghost predicate Reads(n: nat, hold: nat, bits: nat, input: seq<octet>, pos: nat)
  {
    pos <= |input| && hold == Lo(n, bits) && Hi(n, bits) == LE(input[pos..])
  }

  lemma PowEight()
    ensures Pow2(8) == 256
  {
    assert Pow2(4) == 16;
    Pow2Add(4, 4);
  }

  /** PULLBYTE: another byte of the same bits. */
  lemma Pulled(n: nat, hold: nat, bits: nat, input: seq<octet>, pos: nat)
    requires Reads(n, hold, bits, input, pos) && pos < |input|
    ensures Reads(n, hold + input[pos] * Pow2(bits), bits + 8, input, pos + 1)
  {
    hide Pow2, LE, Lo, Hi;
    LEStep(input, pos);
    HiHi(n, bits, 8);
    LoSplit(n, bits, 8);
    ByteSplit(input[pos], LE(input[pos + 1..]));
  }

  lemma LEStep(input: seq<octet>, pos: nat)
    requires pos < |input|
    ensures LE(input[pos..]) == input[pos] + 256 * LE(input[pos + 1..])
  {
    assert input[pos..][1..] == input[pos + 1..];
  }

  lemma ByteSplit(b: octet, x: nat)
    ensures Lo(b + 256 * x, 8) == b && Hi(b + 256 * x, 8) == x
  {
    hide Pow2;
    PowEight();
    ModPlus(b, 256, x);
  }

  /** The low m + n bits: the low m, and the n above them. */
  lemma LoSplit(x: nat, m: nat, n: nat)
    ensures Lo(x, m + n) == Lo(x, m) + Lo(Hi(x, m), n) * Pow2(m)
  {
    hide Pow2;
    Pow2Add(m, n);
    var a, b := Pow2(m), Pow2(n);
    ModParts(x, a, b);
    var w := x % (a * b);
    assert w == a * (w / a) + w % a;
    CommuteTimes(a, w / a);
  }

  /** DROPBITS. */
  lemma Dropped(n: nat, hold: nat, bits: nat, input: seq<octet>, pos: nat, k: nat)
    requires Reads(n, hold, bits, input, pos) && k <= bits
    ensures Reads(Hi(n, k), Hi(hold, k), bits - k, input, pos)
  {
    hide Pow2, LE;
    SplitMod(n, k, bits);
    HiHi(n, k, bits - k);
  }

  /** BITS: bits that are there are those of the stream. */
  lemma Peeked(n: nat, hold: nat, bits: nat, input: seq<octet>, pos: nat, k: nat)
    requires Reads(n, hold, bits, input, pos) && k <= bits
    ensures Lo(hold, k) == Lo(n, k)
  {
    ModPow(n, k, bits);
  }

  /** A look-up in what is held is right when it uses no more bits than are held. */
  lemma HeldEntry(table: seq<Code>, root: nat, dist: bool, n: nat, hold: nat, bits: nat, input: seq<octet>, pos: nat)
    requires TableOk(table, root, dist) && Reads(n, hold, bits, input, pos) && Entry(table, root, hold).bits <= bits
    ensures Entry(table, root, n) == Entry(table, root, hold)
  {
    hide Lo, Hi, Pow2, LE, Entry, LooksUp;
    Peeked(n, hold, bits, input, pos, Entry(table, root, hold).bits);
    assert Prefixed(table, root, hold, n);
  }

  /** When what is held is not enough, the code is longer than what is held. */
  lemma NotEnough(table: seq<Code>, root: nat, dist: bool, n: nat, hold: nat, bits: nat, input: seq<octet>, pos: nat)
    requires TableOk(table, root, dist) && Reads(n, hold, bits, input, pos) && Entry(table, root, hold).bits > bits
    ensures Entry(table, root, n).bits > bits
  {
    hide Lo, Hi, Pow2, LE, Entry, LooksUp;
    var k := Entry(table, root, n).bits;
    assert Prefixed(table, root, n, hold);
    if k <= bits { Peeked(n, hold, bits, input, pos, k); }
  }

  // ----- the decoder as an abstract machine

  datatype Mode = LEN | LENEXT | DIST | DISTEXT | MATCH | LIT | TYPE | BAD

  /** The unread bits n, t of them, and all output that is still within reach, the latest last. */
  datatype State = State(mode: Mode, length: nat, extra: nat, offset: nat, n: nat, t: int, out: seq<octet>)

  /** What is needed to decode a block. */
  ghost predicate Tables(lencode: seq<Code>, lenbits: nat, distcode: seq<Code>, distbits: nat)
  {
    TableOk(lencode, lenbits, false) && TableOk(distcode, distbits, true)
  }

  function Drop(s: State, k: nat): State { s.(n := Hi(s.n, k), t := s.t - k) }

  /** After a length code. */
  function AfterLen(s: State, e: Code): State
  {
    var d := Drop(s, e.bits).(length := e.val);
    if e.op == 0 then d.(mode := LIT)
    else if IsEnd(e) then d.(mode := TYPE)
    else if IsInvalid(e) then d.(mode := BAD)
    else d.(mode := LENEXT, extra := e.op % 16)
  }

  /** After a distance code. */
  function AfterDist(s: State, e: Code): State
  {
    var d := Drop(s, e.bits);
    if IsInvalid(e) then d.(mode := BAD) else d.(mode := DISTEXT, offset := e.val, extra := e.op % 16)
  }

  /** A state without the values that no later step looks at. */
  function Clean(s: State): State
  {
    match s.mode
    case LENEXT => s.(offset := 0)
    case DIST => s.(extra := 0, offset := 0)
    case DISTEXT => s
    case MATCH => s.(extra := 0)
    case LIT => s.(extra := 0, offset := 0)
    case _ => s.(length := 0, extra := 0, offset := 0)
  }

  /** One small step. */
  function Next(lencode: seq<Code>, lenbits: nat, distcode: seq<Code>, distbits: nat, s: State): State
  {
    Clean(Stepped(lencode, lenbits, distcode, distbits, s))
  }

  /** A code, its extra bits, one byte of a match, or a literal. */
  function Stepped(lencode: seq<Code>, lenbits: nat, distcode: seq<Code>, distbits: nat, s: State): State
  {
    match s.mode
    case LEN => AfterLen(s, Entry(lencode, lenbits, s.n))
    case LENEXT => Drop(s, s.extra).(length := s.length + Lo(s.n, s.extra), mode := DIST)
    case DIST => AfterDist(s, Entry(distcode, distbits, s.n))
    case DISTEXT => Drop(s, s.extra).(offset := s.offset + Lo(s.n, s.extra), mode := MATCH)
    case MATCH =>
      if s.length == 0 || s.offset == 0 || s.offset > |s.out| then s.(mode := BAD)
      else s.(out := s.out + [s.out[|s.out| - s.offset]], length := s.length - 1, mode := if s.length == 1 then LEN else MATCH)
    case LIT => s.(out := s.out + [s.length % 256], mode := LEN)
    case TYPE => s
    case BAD => s
  }

  function Iterate(lencode: seq<Code>, lenbits: nat, distcode: seq<Code>, distbits: nat, s: State, k: nat): State
    decreases k
  {
    if k == 0 then s else Iterate(lencode, lenbits, distcode, distbits, Next(lencode, lenbits, distcode, distbits, s), k - 1)
  }

  lemma {:induction false} IterateAdd(lencode: seq<Code>, lenbits: nat, distcode: seq<Code>, distbits: nat, s: State, j: nat, k: nat)
    ensures Iterate(lencode, lenbits, distcode, distbits, s, j + k) ==
            Iterate(lencode, lenbits, distcode, distbits, Iterate(lencode, lenbits, distcode, distbits, s, j), k)
    decreases j
  {
    hide Next;
    if j > 0 { IterateAdd(lencode, lenbits, distcode, distbits, Next(lencode, lenbits, distcode, distbits, s), j - 1, k); }
  }

  predicate Ended(s: State) { s.mode == TYPE || s.mode == BAD }

  /** The block's end is the same however the steps were taken. */
  lemma SameEnd(lencode: seq<Code>, lenbits: nat, distcode: seq<Code>, distbits: nat, s: State, j: nat, k: nat)
    requires Ended(Iterate(lencode, lenbits, distcode, distbits, s, j)) && Ended(Iterate(lencode, lenbits, distcode, distbits, s, k))
    requires Clean(s) == s
    ensures Iterate(lencode, lenbits, distcode, distbits, s, j) == Iterate(lencode, lenbits, distcode, distbits, s, k)
  {
    hide Next;
    var m := if j < k then j else k;
    StaysClean(lencode, lenbits, distcode, distbits, s, m);
    IterateAdd(lencode, lenbits, distcode, distbits, s, m, j - m);
    IterateAdd(lencode, lenbits, distcode, distbits, s, m, k - m);
    StaysEnded(lencode, lenbits, distcode, distbits, Iterate(lencode, lenbits, distcode, distbits, s, m), j - m);
    StaysEnded(lencode, lenbits, distcode, distbits, Iterate(lencode, lenbits, distcode, distbits, s, m), k - m);
  }

  lemma {:induction false} StaysClean(lencode: seq<Code>, lenbits: nat, distcode: seq<Code>, distbits: nat, s: State, k: nat)
    requires Clean(s) == s
    ensures var r := Iterate(lencode, lenbits, distcode, distbits, s, k); Clean(r) == r
    decreases k
  {
    hide Stepped;
    if k > 0 { StaysClean(lencode, lenbits, distcode, distbits, Next(lencode, lenbits, distcode, distbits, s), k - 1); }
  }

  lemma {:induction false} StaysEnded(lencode: seq<Code>, lenbits: nat, distcode: seq<Code>, distbits: nat, s: State, k: nat)
    requires Ended(s) && Clean(s) == s
    ensures Iterate(lencode, lenbits, distcode, distbits, s, k) == s
    decreases k
  {
    if k > 0 { StaysEnded(lencode, lenbits, distcode, distbits, s, k - 1); }
  }

  /** A match takes as many steps as it has bytes, and they make a copy. */
  lemma {:induction false} MatchSteps(lencode: seq<Code>, lenbits: nat, distcode: seq<Code>, distbits: nat, s: State, k: nat)
    requires s.mode == MATCH && s.extra == 0 && 1 <= s.offset <= |s.out| && 1 <= k <= s.length
    ensures Iterate(lencode, lenbits, distcode, distbits, s, k) ==
            Clean(s.(out := CopyBack(s.out, s.offset, k), length := s.length - k, mode := if k == s.length then LEN else MATCH))
    decreases k
  {
    hide CopyBack;
    var s1 := Next(lencode, lenbits, distcode, distbits, s);
    var o := s.out + [s.out[|s.out| - s.offset]];
    CopyOne(s.out, s.offset, k);
    if k > 1 {
      assert s1 == s.(out := o, length := s.length - 1);
      MatchSteps(lencode, lenbits, distcode, distbits, s1, k - 1);
    } else {
      CopyNone(o, s.offset);
      OneStep(lencode, lenbits, distcode, distbits, s);
    }
  }

  lemma CopyOne(out: seq<octet>, dist: nat, k: nat)
    requires 1 <= dist <= |out| && k >= 1
    ensures CopyBack(out, dist, k) == CopyBack(out + [out[|out| - dist]], dist, k - 1)
  {
  }

  lemma CopyNone(out: seq<octet>, dist: nat)
    requires 1 <= dist <= |out|
    ensures CopyBack(out, dist, 0) == out
  {
  }

  lemma OneStep(lencode: seq<Code>, lenbits: nat, distcode: seq<Code>, distbits: nat, s: State)
    ensures Iterate(lencode, lenbits, distcode, distbits, s, 1) == Next(lencode, lenbits, distcode, distbits, s)
  {
    hide Next;
    var s1 := Next(lencode, lenbits, distcode, distbits, s);
    assert Iterate(lencode, lenbits, distcode, distbits, s1, 0) == s1;
  }

  /** Copying in two goes. */
  lemma {:induction false} CopyTwice(out: seq<octet>, dist: nat, m: nat, n: nat)
    requires 1 <= dist <= |out|
    ensures CopyBack(out, dist, m + n) == CopyBack(CopyBack(out, dist, m), dist, n)
    decreases m
  {
    if m > 0 { CopyTwice(out + [out[|out| - dist]], dist, m - 1, n); }
  }

  /** Byte by byte: the i-th byte copied is the one dist before it. */
  lemma {:induction false} CopyAt(out: seq<octet>, dist: nat, n: nat, m: nat)
    requires 1 <= dist <= |out| && m <= n && m <= dist
    ensures CopyBack(out, dist, n)[..|out| + m] == out + out[|out| - dist..|out| - dist + m]
    decreases n
  {
    hide CopyBack;
    if m == 0 {
      assert CopyBack(out, dist, n)[..|out|] == out;
      assert out[|out| - dist..|out| - dist] == [];
    } else {
      var o := out + [out[|out| - dist]];
      CopyAt(o, dist, n - 1, m - 1);
      CopyOne(out, dist, n);
      NextPiece(out, dist, m);
    }
  }

  lemma NextPiece(out: seq<octet>, dist: nat, m: nat)
    requires 1 <= m <= dist <= |out|
    ensures var o := out + [out[|out| - dist]];
            |o| + (m - 1) == |out| + m
            && o + o[|o| - dist..|o| - dist + (m - 1)] == out + out[|out| - dist..|out| - dist + m]
  {
  }

  /** Copying from no nearer than its length is appending what is there. */
  lemma CopyFar(out: seq<octet>, dist: nat, n: nat)
    requires 1 <= dist <= |out| && n <= dist
    ensures CopyBack(out, dist, n) == out + out[|out| - dist..|out| - dist + n]
  {
    CopyAt(out, dist, n, n);
    assert CopyBack(out, dist, n)[..|out| + n] == CopyBack(out, dist, n);
  }

  // ----- output that is out of reach

  /** S has made all of s's output, after x: which s need not know if it knows at least the last size bytes. */
  ghost predicate Knows(whole: State, s: State, x: seq<octet>, size: nat)
  {
    whole == s.(out := x + s.out) && (x == [] || |s.out| >= size)
  }

  /** After i steps, no copy from further back than size begins or goes on. */
  ghost predicate Near(lencode: seq<Code>, lenbits: nat, distcode: seq<Code>, distbits: nat, s: State, i: int, size: nat)
  {
    0 <= i && var t := Iterate(lencode, lenbits, distcode, distbits, s, i); t.mode == MATCH ==> t.offset <= size
  }

  ghost predicate AllNear(lencode: seq<Code>, lenbits: nat, distcode: seq<Code>, distbits: nat, s: State, k: nat, size: nat)
  {
    forall i :: 0 <= i < k ==> Near(lencode, lenbits, distcode, distbits, s, i, size)
  }

  lemma KnowsNext(lencode: seq<Code>, lenbits: nat, distcode: seq<Code>, distbits: nat, whole: State, s: State, x: seq<octet>,
                  size: nat)
    requires Knows(whole, s, x, size) && (whole.mode == MATCH ==> whole.offset <= size)
    ensures Knows(Next(lencode, lenbits, distcode, distbits, whole), Next(lencode, lenbits, distcode, distbits, s), x, size)
  {
    hide Entry, Lo, Hi;
    if x == [] {
      assert x + s.out == s.out;
      assert x + Next(lencode, lenbits, distcode, distbits, s).out == Next(lencode, lenbits, distcode, distbits, s).out;
    } else if s.mode == MATCH && s.length > 0 && 1 <= s.offset {
      var b := s.out[|s.out| - s.offset];
      assert (x + s.out)[|x + s.out| - s.offset] == b;
      assert (x + s.out) + [b] == x + (s.out + [b]);
    } else if s.mode == LIT {
      assert (x + s.out) + [s.length % 256] == x + (s.out + [s.length % 256]);
    }
  }

  /** As long as no copy comes from out of reach, what is out of reach makes no difference. */
  lemma {:induction false} KnowsRun(lencode: seq<Code>, lenbits: nat, distcode: seq<Code>, distbits: nat, whole: State, s: State,
                                    x: seq<octet>, size: nat, k: nat)
    requires Knows(whole, s, x, size) && AllNear(lencode, lenbits, distcode, distbits, whole, k, size)
    ensures Knows(Iterate(lencode, lenbits, distcode, distbits, whole, k), Iterate(lencode, lenbits, distcode, distbits, s, k), x, size)
    decreases k
  {
    hide Next, Knows;
    if k > 0 {
      assert Near(lencode, lenbits, distcode, distbits, whole, 0, size);
      KnowsNext(lencode, lenbits, distcode, distbits, whole, s, x, size);
      var whole1 := Next(lencode, lenbits, distcode, distbits, whole);
      forall i | 0 <= i < k - 1 ensures Near(lencode, lenbits, distcode, distbits, whole1, i, size) {
        assert Near(lencode, lenbits, distcode, distbits, whole, i + 1, size);
      }
      KnowsRun(lencode, lenbits, distcode, distbits, whole1, Next(lencode, lenbits, distcode, distbits, s), x, size, k - 1);
    }
  }

  // ----- the steps of a whole symbol

  /** A literal: two steps. */
  lemma LiteralSteps(lencode: seq<Code>, lenbits: nat, distcode: seq<Code>, distbits: nat, s: State, e: Code)
    requires s.mode == LEN && Clean(s) == s && e == Entry(lencode, lenbits, s.n) && IsLiteral(e)
    ensures Iterate(lencode, lenbits, distcode, distbits, s, 2) ==
            s.(n := Hi(s.n, e.bits), t := s.t - e.bits, out := s.out + [e.val % 256])
  {
    hide Entry, Lo, Hi;
    var s1 := Next(lencode, lenbits, distcode, distbits, s);
    OneStep(lencode, lenbits, distcode, distbits, s1);
  }

  /** The block's end, or a code that there is not. */
  lemma EndSteps(lencode: seq<Code>, lenbits: nat, distcode: seq<Code>, distbits: nat, s: State, e: Code)
    requires s.mode == LEN && Clean(s) == s && e == Entry(lencode, lenbits, s.n) && (IsEnd(e) || IsInvalid(e))
    ensures Iterate(lencode, lenbits, distcode, distbits, s, 1) ==
            s.(n := Hi(s.n, e.bits), t := s.t - e.bits, mode := if IsEnd(e) then TYPE else BAD)
  {
    hide Entry, Lo, Hi;
    OneStep(lencode, lenbits, distcode, distbits, s);
  }

  /** A length code and its extra bits. */
  lemma LengthSteps(lencode: seq<Code>, lenbits: nat, distcode: seq<Code>, distbits: nat, s: State, e: Code)
    requires s.mode == LEN && Clean(s) == s && e == Entry(lencode, lenbits, s.n) && IsLength(e)
    ensures var n1 := Hi(s.n, e.bits); var x := e.op - 16;
            Iterate(lencode, lenbits, distcode, distbits, s, 2) ==
            s.(mode := DIST, n := Hi(n1, x), t := s.t - e.bits - x, length := e.val + Lo(n1, x))
  {
    hide Entry, Lo, Hi, Pow2;
    var s1 := Next(lencode, lenbits, distcode, distbits, s);
    OneStep(lencode, lenbits, distcode, distbits, s1);
  }

  lemma DistanceSteps(lencode: seq<Code>, lenbits: nat, distcode: seq<Code>, distbits: nat, s: State, e: Code)
    requires s.mode == DIST && Clean(s) == s && e == Entry(distcode, distbits, s.n) && IsDistance(e)
    ensures var n1 := Hi(s.n, e.bits); var x := e.op - 16;
            Iterate(lencode, lenbits, distcode, distbits, s, 2) ==
            s.(mode := MATCH, n := Hi(n1, x), t := s.t - e.bits - x, offset := e.val + Lo(n1, x))
  {
    hide Entry, Lo, Hi, Pow2;
    var s1 := Next(lencode, lenbits, distcode, distbits, s);
    OneStep(lencode, lenbits, distcode, distbits, s1);
  }

  lemma NoDistance(lencode: seq<Code>, lenbits: nat, distcode: seq<Code>, distbits: nat, s: State, e: Code)
    requires s.mode == DIST && Clean(s) == s && e == Entry(distcode, distbits, s.n) && IsInvalid(e)
    ensures Iterate(lencode, lenbits, distcode, distbits, s, 1) ==
            Clean(s.(n := Hi(s.n, e.bits), t := s.t - e.bits, mode := BAD))
  {
    hide Entry, Lo, Hi;
    OneStep(lencode, lenbits, distcode, distbits, s);
  }

  lemma TooFarStep(lencode: seq<Code>, lenbits: nat, distcode: seq<Code>, distbits: nat, s: State)
    requires s.mode == MATCH && s.offset > |s.out|
    ensures Iterate(lencode, lenbits, distcode, distbits, s, 1) == Clean(s.(mode := BAD))
  {
    OneStep(lencode, lenbits, distcode, distbits, s);
  }

  // ----- giving bytes back

  lemma {:induction false} LEHi(input: seq<octet>, from: nat, pos: nat)
    requires from <= pos <= |input|
    ensures Hi(LE(input[from..]), 8 * (pos - from)) == LE(input[pos..])
    decreases pos - from
  {
    hide Pow2, LE, Hi, Lo;
    if from == pos {
      HighAll(LE(input[from..]));
    } else {
      LEStep(input, from);
      ByteSplit(input[from], LE(input[from + 1..]));
      HiHi(LE(input[from..]), 8, 8 * (pos - from - 1));
      LEHi(input, from + 1, pos);
    }
  }

  /** Whole bytes that are held came from the input, so reading can go back to where they begin. */
  lemma GivenBack(n0: nat, bits0: nat, in0: nat, n: nat, used: nat, hold: nat, bits: nat, input: seq<octet>, pos: nat)
    requires in0 <= pos <= |input| && Hi(n0, bits0) == LE(input[in0..]) && bits0 < used + 8 && n == Hi(n0, used)
    requires Reads(n, hold, bits, input, pos) && used + bits == bits0 + 8 * (pos - in0)
    ensures bits / 8 <= pos - in0
    ensures Reads(n, Lo(hold, bits - 8 * (bits / 8)), bits - 8 * (bits / 8), input, pos - bits / 8)
  {
    hide Pow2, LE, Hi, Lo;
    var len := bits / 8;
    var b, p := bits - 8 * len, pos - len;
    ModPow(n, b, bits);
    HiHi(n0, used, b);
    assert used + b == bits0 + 8 * (p - in0);
    HiHi(n0, bits0, 8 * (p - in0));
    LEHi(input, in0, p);
  }
}
