/** The bit streams: bsW and bsFinishWrite on one side, GET_BITS on the other, both through a 32-bit buffer. */
module BitIO {
  import opened Bits
  import opened Counting

  const WORD := 0x1_0000_0000

  // ----- writing

  /** Eight bits leave the top of the buffer. */
  lemma ShiftOut(t: nat, live: nat)
    requires 8 <= live <= 32 && t < Pow2(live)
    ensures var buff, a := t * Pow2(32 - live), Pow2(live - 8);
            && buff / 0x100_0000 == t / a && (buff * 256) % WORD == (t % a) * Pow2(40 - live)
            && t / a < 256 && t % a < a && buff < WORD
  {
    hide Pow2;
    Pow2Values();
    Pow2Add(live - 8, 32 - live);
    Pow2Add(8, 32 - live);
    Pow2Add(8, live - 8);
    ShiftArith(t, Pow2(live - 8), Pow2(32 - live));
  }

  lemma ShiftArith(t: nat, a: nat, b: nat)
    requires a >= 1 && b >= 1 && a * b == 0x100_0000 && t < 256 * a
    ensures (t * b) / 0x100_0000 == t / a && ((t * b) * 256) % WORD == (t % a) * (256 * b)
    ensures t / a < 256 && t * b < WORD
  {
    var q, r := t / a, t % a;
    ShiftParts(q, r, a, b);
  }

  lemma ShiftParts(q: nat, r: nat, a: nat, b: nat)
    requires b >= 1 && a * b == 0x100_0000 && r < a && q < 256
    ensures ((q * a + r) * b) / 0x100_0000 == q && (((q * a + r) * b) * 256) % WORD == r * (256 * b)
    ensures (q * a + r) * b < WORD
  {
    Spread(q, a, r, b);
    MulLess(r, a, b);
    var y := r * b;
    assert r * (256 * b) == 256 * y;
    DivMod(q, 0x100_0000, y);
    DivMod(q, WORD, 256 * y);
  }

  lemma Spread(q: nat, a: nat, r: nat, b: nat)
    ensures (q * a + r) * b == q * (a * b) + r * b
  {
  }

  lemma {:induction false} ToBitsZero(n: nat)
    ensures ToBits(n, 0) == Zeros(n)
  {
    if n > 0 { ToBitsZero(n - 1); }
  }

  /** The last bits, padded with zeros to a byte. */
  lemma PadOut(t: nat, live: nat)
    requires 0 < live < 8 && t < Pow2(live)
    ensures var buff := t * Pow2(32 - live);
            && buff < WORD && buff / 0x100_0000 < 256
            && ToBits(8, buff / 0x100_0000) == ToBits(live, t) + Zeros(8 - live)
  {
    hide Pow2, ToBits;
    var k := 8 - live;
    var x := t * Pow2(k);
    Pow2Values();
    Pow2Add(k, 24);
    Pow2Add(live, 32 - live);
    MulLess(t, Pow2(live), Pow2(32 - live));
    assert t * Pow2(32 - live) == x * 0x100_0000 by { assert (t * Pow2(k)) * Pow2(24) == t * (Pow2(k) * Pow2(24)); }
    DivMod(x, 0x100_0000, 0);
    ToBitsSplit(live, k, x);
    DivMod(t, Pow2(k), 0);
    ToBitsLow(k, k, x);
    ToBitsZero(k);
  }

  class BitWriter {
    var bsBuff: int
    var bsLive: int
    var zbits: seq<int>

    constructor ()
      ensures Valid() && Written() == [] && zbits == []
    {
      hide Pow2;
      bsBuff, bsLive, zbits := 0, 0, [];
    }

    /** The live bits, as a number. */
    ghost function Tail(): int
      reads this
      requires 0 <= bsLive <= 32
    {
      bsBuff / Pow2(32 - bsLive)
    }

    ghost predicate Valid()
      reads this
    {
      && 0 <= bsLive <= 32 && AllBytes(zbits)
      && 0 <= Tail() < Pow2(bsLive) && bsBuff == Tail() * Pow2(32 - bsLive)
    }

    /** Every bit written so far. */
    ghost function Written(): seq<bool>
      reads this
      requires Valid()
    {
      Flatten(zbits) + ToBits(bsLive, Tail())
    }

    lemma WrittenLength()
      requires Valid()
      ensures |Written()| == 8 * |zbits| + bsLive && 0 <= bsLive <= 32
    {
      hide ToBits, Flatten, Tail;
    }

    /** numZ = 0: the bytes so far are taken away; the bits still live stay. */
    method ResetZ()
      requires Valid()
      modifies this`zbits
      ensures Valid() && zbits == [] && Flatten(old(zbits)) + Written() == old(Written())
    {
      hide ToBits;
      zbits := [];
      assert [] + ToBits(bsLive, Tail()) == ToBits(bsLive, Tail());
    }

    /** bsNEEDW. */
    method NeedW()
      requires Valid()
      modifies this
      ensures Valid() && bsLive < 8 && Written() == old(Written())
    {
      hide Pow2, ToBits, Flatten;
      while bsLive >= 8
        invariant Valid() && Written() == old(Written())
        decreases bsLive
      {
        ShiftTop();
      }
    }

    method ShiftTop()
      requires Valid() && bsLive >= 8
      modifies this
      ensures Valid() && Written() == old(Written()) && bsLive == old(bsLive) - 8
    {
      hide Pow2, ToBits, Flatten;
      ghost var t, live, was := Tail(), bsLive, zbits;
      ghost var a := Pow2(live - 8);
      ShiftOut(t, live);
      ToBitsSplit(8, live - 8, t);
      ToBitsLow(live - 8, live - 8, t);
      DivMod(t % a, Pow2(40 - live), 0);
      zbits := zbits + [bsBuff / 0x100_0000];
      bsBuff := bsBuff * 256 % WORD;
      bsLive := bsLive - 8;
      FlattenAppend(was, [t / a]);
      FlattenOne(t / a);
      assert Tail() == t % a;
      Assoc(Flatten(was), ToBits(8, t / a), ToBits(live - 8, t));
    }

    /** bsW: the low n bits of v go out, most significant first. */
    method W(n: nat, v: nat)
      requires Valid() && n <= 24 && v < Pow2(n)
      modifies this
      ensures Valid() && Written() == old(Written()) + ToBits(n, v)
    {
      hide Pow2, ToBits, Flatten;
      NeedW();
      ghost var t, live := Tail(), bsLive;
      OrIn(t, live, n, v);
      bsBuff := Or(bsBuff, v * Pow2(32 - bsLive - n));
      bsLive := bsLive + n;
      ToBitsSplit(live, n, t * Pow2(n) + v);
      DivMod(t, Pow2(n), v);
      ToBitsLow(n, n, t * Pow2(n) + v);
      Assoc(Flatten(zbits), ToBits(live, t), ToBits(n, v));
    }

    /** bsFinishWrite: the live bits, padded with zeros to a whole byte. */
    method FinishWrite() returns (ghost pad: nat)
      requires Valid()
      modifies this
      ensures AllBytes(zbits) && pad < 8 && Flatten(zbits) == old(Written()) + Zeros(pad)
    {
      hide Pow2, ToBits, Flatten, Tail;
      while bsLive >= 8
        invariant Valid() && Written() == old(Written())
        decreases bsLive
      {
        ShiftTop();
      }
      pad := if bsLive == 0 then 0 else 8 - bsLive;
      if bsLive > 0 {
        ghost var t, live, was := Tail(), bsLive, zbits;
        PadOut(t, live);
        zbits := zbits + [bsBuff / 0x100_0000];
        bsBuff := bsBuff * 256 % WORD;
        bsLive := bsLive - 8;
        FlattenAppend(was, [zbits[|was|]]);
        FlattenOne(zbits[|was|]);
        Assoc(Flatten(was), ToBits(live, t), Zeros(8 - live));
      } else {
        assert ToBits(0, Tail()) == [] && Zeros(0) == [];
      }
    }
  }

  /** n bits join the live ones. */
  lemma OrIn(t: nat, live: nat, n: nat, v: nat)
    requires live + n <= 32 && t < Pow2(live) && v < Pow2(n)
    ensures var m, x := 32 - live - n, t * Pow2(n) + v;
            && x < Pow2(live + n)
            && Or(t * Pow2(32 - live), v * Pow2(m)) == x * Pow2(m) && (x * Pow2(m)) / Pow2(m) == x
  {
    hide Pow2, Or;
    var m := 32 - live - n;
    Pow2Add(n, m);
    Pow2Add(live, n);
    MulLess(v, Pow2(n), Pow2(m));
    OrDisjoint(t, v * Pow2(m), n + m);
    Together(t, v, Pow2(live), Pow2(n), Pow2(m));
    DivMod(t * Pow2(n) + v, Pow2(m), 0);
  }

  lemma Together(t: nat, v: nat, l: nat, n: nat, m: nat)
    requires t < l && v < n
    ensures t * (n * m) + v * m == (t * n + v) * m && t * n + v < l * n
  {
    assert t * (n * m) == (t * n) * m;
    MulLeq(t + 1, l, n);
  }

  // ----- reading

  function FlattenAll(chunks: seq<seq<int>>): seq<bool>
  {
    if chunks == [] then [] else Flatten(chunks[0]) + FlattenAll(chunks[1..])
  }

  ghost predicate ByteChunks(chunks: seq<seq<int>>)
  {
    forall i :: 0 <= i < |chunks| ==> AllBytes(chunks[i])
  }

  /** A byte joins the buffer at the bottom. */
  lemma ShiftIn(buff: nat, live: nat, x: nat)
    requires live <= 24 && buff < WORD && x < 256
    ensures Or((buff * 256) % WORD, x) < WORD
    ensures ToBits(live + 8, Or((buff * 256) % WORD, x)) == ToBits(live, buff) + ToBits(8, x)
  {
    hide ToBits, Pow2, Or;
    var h := buff % 0x100_0000;
    Pow2Values();
    assert (buff * 256) % WORD == h * 256 by {
      assert buff == (buff / 0x100_0000) * 0x100_0000 + h;
      assert buff * 256 == (buff / 0x100_0000) * WORD + h * 256;
      DivMod(buff / 0x100_0000, WORD, h * 256);
    }
    OrDisjoint(h, x, 8);
    var y := h * 256 + x;
    ToBitsSplit(live, 8, y);
    DivMod(h, 256, x);
    ToBitsLow(8, 8, y);
    ToBitsLow(8, 8, x);
    ToBitsLow(live, 24, buff);
  }

  /** Bits come from the bytes of the current call's input, then from those of later calls. Between calls the
      machine keeps its buffer, so only the bits themselves are seen. */
  class BitReader {
    var bsBuff: int
    var bsLive: nat
    var input: seq<int>
    var later: seq<seq<int>>

    constructor (chunks: seq<seq<int>>)
      requires ByteChunks(chunks)
      ensures Valid() && Pending() == FlattenAll(chunks)
    {
      bsBuff, bsLive, input, later := 0, 0, [], chunks;
      new;
      assert [] + FlattenAll(chunks) == FlattenAll(chunks);
    }

    ghost predicate Valid()
      reads this
    {
      0 <= bsBuff < WORD && bsLive <= 32 && AllBytes(input) && ByteChunks(later)
    }

    /** The bits not yet consumed. */
    ghost function Pending(): seq<bool>
      reads this
      requires Valid()
    {
      ToBits(bsLive, bsBuff) + (Flatten(input) + FlattenAll(later))
    }

    /** One byte of input, if there is one, moves into the buffer. */
    method TakeByte() returns (ok: bool)
      requires Valid() && bsLive <= 24
      modifies this
      ensures Valid() && Pending() == old(Pending())
      ensures ok ==> bsLive == old(bsLive) + 8
      ensures !ok ==> bsLive == old(bsLive) && |Pending()| == bsLive
    {
      hide Or, ToBits;
      while input == []
        invariant Valid() && bsLive == old(bsLive) && Pending() == old(Pending())
        decreases |later|
      {
        if later == [] {
          assert Flatten([]) == [] && FlattenAll(later) == [];
          return false;
        }
        assert Flatten([]) == [];
        assert [] + FlattenAll(later) == FlattenAll(later);
        input, later := later[0], later[1..];
      }
      ghost var rest := FlattenAll(later);
      FlattenFirst(input);
      ShiftIn(bsBuff, bsLive, input[0]);
      Regroup(ToBits(bsLive, bsBuff), ToBits(8, input[0]), Flatten(input[1..]), rest);
      bsBuff := Or(bsBuff * 256 % WORD, input[0]);
      input := input[1..];
      bsLive := bsLive + 8;
      ok := true;
    }

    /** GET_BITS: the next n bits as a number, as soon as there are that many. */
    method GetBits(n: nat) returns (ok: bool, v: nat)
      requires Valid() && n <= 24
      modifies this
      ensures Valid()
      ensures ok <==> n <= |old(Pending())|
      ensures ok ==> v == Value(old(Pending())[..n]) && Pending() == old(Pending())[n..]
      ensures !ok ==> Pending() == old(Pending())
    {
      hide ToBits, Flatten, Or, Pow2;
      v := 0;
      while bsLive < n
        invariant Valid() && Pending() == old(Pending())
        decreases n - bsLive
      {
        ok := TakeByte();
        if !ok { return; }
      }
      ghost var rest, k := Flatten(input) + FlattenAll(later), bsLive - n;
      ToBitsSplit(n, k, bsBuff);
      ValueMod(n, bsBuff / Pow2(k));
      TakeFront(ToBits(n, bsBuff / Pow2(k)), ToBits(k, bsBuff), rest);
      v := (bsBuff / Pow2(bsLive - n)) % Pow2(n);
      bsLive := bsLive - n;
      ok := true;
    }
  }

  lemma Regroup(a: seq<bool>, b: seq<bool>, c: seq<bool>, d: seq<bool>)
    ensures a + ((b + c) + d) == (a + b) + (c + d)
  {
  }

  lemma TakeFront(a: seq<bool>, b: seq<bool>, c: seq<bool>)
    ensures ((a + b) + c)[..|a|] == a && ((a + b) + c)[|a|..] == b + c
  {
  }

  /** However the bytes are cut into calls, the bits are the same. */
  lemma {:induction false} SplitFree(chunks: seq<seq<int>>, bytes: seq<int>)
    requires bytes == Joined(chunks)
    ensures FlattenAll(chunks) == Flatten(bytes)
  {
    if chunks != [] {
      SplitFree(chunks[1..], Joined(chunks[1..]));
      FlattenAppend(chunks[0], Joined(chunks[1..]));
    }
  }

  function Joined(chunks: seq<seq<int>>): seq<int>
  {
    if chunks == [] then [] else chunks[0] + Joined(chunks[1..])
  }
}
