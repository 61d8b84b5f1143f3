/** crc32_z in its three forms: a byte at a time, and a word at a time on either kind of machine. */
module Crc32Loops {
  import opened Words
  import opened Crc32

  // ----- a byte at a time

  lemma SameHigh(c: word, b: bv8)
    ensures Shr8(Xor(c, Octet(b))) == Shr8(c)
  {
  }

  /** DO1. */
  lemma OneByte(t: seq<word>, c: word, b: bv8)
    requires Tables(t)
    ensures var x := Low8(Xor(c, Octet(b)));
            x as int < 256 <= |t| && Xor(t[x as int], Shr8(c)) == Steps(Xor(c, Octet(b)), 8)
  {
    hide Steps, Xor, Low8, Shr8, Octet, Filled;
    assert Filled(t, 0, 256);
    TableSteps(t, Xor(c, Octet(b)));
    SameHigh(c, b);
  }

  /** One byte more is taken in. */
  lemma TakenOne(crc: word, buf: seq<bv8>, p: nat)
    requires p < |buf|
    ensures Feed(crc, buf[..p + 1]) == Steps(Xor(Feed(crc, buf[..p]), Octet(buf[p])), 8)
  {
    hide Steps, Xor, Octet;
    assert buf[..p + 1] == buf[..p] + [buf[p]];
    FeedSnoc(crc, buf[..p], buf[p]);
  }

  lemma NotNot(a: word)
    ensures Not(Not(a)) == a
  {
  }

  /** Bytes p..q, by the first table. */
  method Bytes(c0: word, buf: array<bv8>, p: nat, q: nat, t: array<word>, ghost crc: word) returns (c: word)
    requires p <= q <= buf.Length && Tables(t[..]) && c0 == Feed(crc, buf[..p])
    ensures c == Feed(crc, buf[..q])
  {
    hide Steps, Xor, Low8, Shr8, Octet, Tables, Feed;
    c := c0;
    var i := p;
    while i < q
      invariant p <= i <= q && c == Feed(crc, buf[..i])
    {
      OneByte(t[..], c, buf[i]);
      TakenOne(crc, buf[..], i);
      assert buf[..][..i] == buf[..i] && buf[..][..i + 1] == buf[..i + 1];
      c := Xor(t[Low8(Xor(c, Octet(buf[i]))) as int], Shr8(c));
      i := i + 1;
    }
  }

  // ----- a word at a time

  lemma TopIs(c: word)
    ensures Shr8(Shr8(Shr8(c))) == Top8(c) && Top8(c) < 256
  {
  }

  lemma Peel(c: word, n: nat)
    ensures Steps(c, 8 + n) == Xor(Steps(Low8(c), 8 + n), Steps(Shr8(c), n))
  {
    hide Steps, Xor, Low8, Shr8;
    EightSteps(c);
    StepsAdd(c, 8, n);
    StepsAdd(Low8(c), 8, n);
    StepsLinear(Steps(Low8(c), 8), Shr8(c), n);
  }

  /** The four look-ups of DOLIT4. */
  function LookUp(t: seq<word>, c: word): word
    requires |t| == 2048
  {
    LowIndex(c); LowIndex(Shr8(c)); LowIndex(Shr8(Shr8(c))); TopIs(c); BelowByte(Top8(c));
    Xor(Xor(Xor(t[3 * 256 + Low8(c) as int], t[2 * 256 + Low8(Shr8(c)) as int]), t[256 + Low8(Shr8(Shr8(c))) as int]),
        t[Top8(c) as int])
  }

  lemma KnownEntry(t: seq<word>, k: nat, v: word)
    requires Tables(t) && k < 8 && v < 256
    ensures v as int < 256 && |t| == 2048 && t[256 * k + v as int] == Entry(k, v)
  {
    hide Entry;
    assert Filled(t, k, 256);
    Known(t, k, v);
  }

  /** Thirty-two steps, byte by byte from the lowest. */
  lemma FourPeels(c: word)
    ensures Steps(c, 32) == Xor(Xor(Xor(Steps(Low8(c), 32), Steps(Low8(Shr8(c)), 24)), Steps(Low8(Shr8(Shr8(c))), 16)),
                                Steps(Top8(c), 8))
  {
    hide Steps, Xor, Low8, Shr8, Top8;
    Peel(c, 24);
    Peel(Shr8(c), 16);
    Peel(Shr8(Shr8(c)), 8);
    TopIs(c);
    XorAssoc(Steps(Low8(Shr8(c)), 24), Steps(Low8(Shr8(Shr8(c))), 16), Steps(Top8(c), 8));
    XorAssoc(Steps(Low8(c), 32), Xor(Steps(Low8(Shr8(c)), 24), Steps(Low8(Shr8(Shr8(c))), 16)), Steps(Top8(c), 8));
    XorAssoc(Steps(Low8(c), 32), Steps(Low8(Shr8(c)), 24), Steps(Low8(Shr8(Shr8(c))), 16));
  }

  lemma FirstEntries(v: word)
    ensures Entry(0, v) == Steps(v, 8) && Entry(1, v) == Steps(v, 16) && Entry(2, v) == Steps(v, 24) && Entry(3, v) == Steps(v, 32)
  {
    hide Steps;
  }

  lemma LookUpSteps(t: seq<word>, c: word)
    requires Tables(t)
    ensures |t| == 2048 && LookUp(t, c) == Steps(c, 32)
  {
    hide Steps, Xor, Low8, Shr8, Top8, Tables, Entry;
    LowIndex(c);
    LowIndex(Shr8(c));
    LowIndex(Shr8(Shr8(c)));
    TopIs(c);
    FourPeels(c);
    KnownEntry(t, 3, Low8(c));
    KnownEntry(t, 2, Low8(Shr8(c)));
    KnownEntry(t, 1, Low8(Shr8(Shr8(c))));
    KnownEntry(t, 0, Top8(c));
    FirstEntries(Low8(c));
    FirstEntries(Low8(Shr8(c)));
    FirstEntries(Low8(Shr8(Shr8(c))));
    FirstEntries(Top8(c));
  }

  lemma TakenFour(crc: word, buf: seq<bv8>, p: nat)
    requires p + 4 <= |buf|
    ensures Feed(crc, buf[..p + 4]) == Steps(Xor(Feed(crc, buf[..p]), Little(buf[p], buf[p + 1], buf[p + 2], buf[p + 3])), 32)
  {
    hide Steps, Xor, Octet, Little, Feed;
    var four := [buf[p], buf[p + 1], buf[p + 2], buf[p + 3]];
    assert buf[..p + 4] == buf[..p] + four;
    FeedAppend(crc, buf[..p], four);
    FourBytes(Feed(crc, buf[..p]), buf[p], buf[p + 1], buf[p + 2], buf[p + 3]);
  }

  /** DOLIT4. */
  method LittleFour(c0: word, buf: array<bv8>, p: nat, t: array<word>, ghost crc: word) returns (c: word)
    requires p + 4 <= buf.Length && Tables(t[..]) && c0 == Feed(crc, buf[..p])
    ensures c == Feed(crc, buf[..p + 4])
  {
    hide Steps, Xor, Tables, Feed, LookUp, Little;
    TakenFour(crc, buf[..], p);
    assert buf[..][..p] == buf[..p] && buf[..][..p + 4] == buf[..p + 4];
    c := Xor(c0, Little(buf[p], buf[p + 1], buf[p + 2], buf[p + 3]));
    LookUpSteps(t[..], c);
    c := LookUp(t[..], c);
  }

  /** crc32_little: bytes up to a word boundary, words, eight at a time while there are enough, and the bytes left. */
  method LittleEndian(crc: word, buf: array<bv8>, len: nat, address: nat, t: array<word>) returns (r: word)
    requires len <= buf.Length && Tables(t[..])
    ensures r == Crc(crc, buf[..len])
  {
    hide Steps, Xor, Low8, Shr8, Octet, Tables, Feed, LookUp, Not;
    ghost var c0 := Not(crc);
    var c := Not(crc);
    FeedNone(c0, buf[..0]);
    var p := 0;
    while p < len && (address + p) % 4 != 0
      invariant p <= len && c == Feed(c0, buf[..p])
    {
      c := Bytes(c, buf, p, p + 1, t, c0);
      p := p + 1;
    }
    while len - p >= 32
      invariant p <= len && c == Feed(c0, buf[..p])
      decreases len - p
    {
      ghost var start := p;
      for k := 0 to 8
        invariant p == start + 4 * k && c == Feed(c0, buf[..p])
      {
        c := LittleFour(c, buf, p, t, c0);
        p := p + 4;
      }
    }
    while len - p >= 4
      invariant p <= len && c == Feed(c0, buf[..p])
    {
      c := LittleFour(c, buf, p, t, c0);
      p := p + 4;
    }
    c := Bytes(c, buf, p, len, t, c0);
    r := Not(c);
  }

  lemma FeedNone(c: word, e: seq<bv8>)
    requires e == []
    ensures Feed(c, e) == c
  {
  }

  // ----- the other byte order

  function SwapOr(a: word): word
  {
    ((a >> 24) & 0xff) | ((a >> 8) & 0xff00) | ((a & 0xff00) << 8) | ((a & 0xff) << 24)
  }

  /** The sum in the macro has no carries. */
  lemma SwapIsOr(a: word)
    ensures Swap(a) == SwapOr(a)
  {
  }

  lemma SwapXor(a: word, b: word)
    ensures Swap(Xor(a, b)) == Xor(Swap(a), Swap(b))
  {
  }

  lemma SwapSwap(a: word)
    ensures Swap(Swap(a)) == a
  {
  }

  lemma SwapNot(a: word)
    ensures Swap(Not(a)) == Not(Swap(a))
  {
  }

  lemma SwapLittle(b0: bv8, b1: bv8, b2: bv8, b3: bv8)
    ensures Swap(Little(b0, b1, b2, b3)) == Little(b3, b2, b1, b0)
  {
  }

  lemma SwapBytes(e: word)
    ensures Low8(Swap(e)) == Top8(e) && Low8(Shr8(Swap(e))) == Low8(Shr8(Shr8(e)))
    ensures Low8(Shr8(Shr8(Swap(e)))) == Low8(Shr8(e)) && Top8(Swap(e)) == Low8(e)
  {
  }

  lemma SwapShift(d: word)
    ensures Shl8(Swap(d)) == Swap(Shr8(d))
  {
    hide Swap, SwapOr;
    SwapIsOr(d);
    SwapIsOr(Shr8(d));
    SwapOrShift(d);
  }

  lemma SwapOrShift(d: word)
    ensures SwapOr(d) << 8 == SwapOr(d >> 8)
  {
  }

  lemma LowOfSum(d: word, b: bv8)
    ensures Xor(Low8(d), Octet(b)) == Low8(Xor(d, Octet(b)))
  {
  }

  /** The swapped byte step. */
  lemma OneSwapped(t: seq<word>, d: word, b: bv8)
    requires Tables(t)
    ensures var x := Xor(Top8(Swap(d)), Octet(b));
            x as int < 256 && |t| == 2048 && Xor(t[1024 + x as int], Shl8(Swap(d))) == Swap(Steps(Xor(d, Octet(b)), 8))
  {
    hide Steps, Xor, Low8, Shr8, Shl8, Top8, Octet, Swap, Tables, Entry;
    SwapBytes(d);
    LowOfSum(d, b);
    var x := Low8(Xor(d, Octet(b)));
    LowIndex(Xor(d, Octet(b)));
    KnownEntry(t, 4, x);
    SwappedEntries(x);
    EightSteps(Xor(d, Octet(b)));
    SameHigh(d, b);
    SwapShift(d);
    SwapXor(Steps(x, 8), Shr8(d));
  }

  lemma SwappedEntries(v: word)
    ensures Entry(4, v) == Swap(Steps(v, 8)) && Entry(5, v) == Swap(Steps(v, 16)) && Entry(6, v) == Swap(Steps(v, 24))
    ensures Entry(7, v) == Swap(Steps(v, 32))
  {
    hide Steps, Swap;
  }

  /** The four look-ups of DOBIG4. */
  function LookUpBig(t: seq<word>, c: word): word
    requires |t| == 2048
  {
    LowIndex(c); LowIndex(Shr8(c)); LowIndex(Shr8(Shr8(c))); TopIs(c); BelowByte(Top8(c));
    Xor(Xor(Xor(t[1024 + Low8(c) as int], t[1280 + Low8(Shr8(c)) as int]), t[1536 + Low8(Shr8(Shr8(c))) as int]),
        t[1792 + Top8(c) as int])
  }

  lemma LookUpBigSteps(t: seq<word>, e: word)
    requires Tables(t)
    ensures |t| == 2048 && LookUpBig(t, Swap(e)) == Swap(Steps(e, 32))
  {
    hide Steps, Xor, Low8, Shr8, Top8, Tables, Entry, Swap;
    SwapBytes(e);
    LowIndex(e);
    LowIndex(Shr8(e));
    LowIndex(Shr8(Shr8(e)));
    TopIs(e);
    KnownEntry(t, 4, Top8(e));
    KnownEntry(t, 5, Low8(Shr8(Shr8(e))));
    KnownEntry(t, 6, Low8(Shr8(e)));
    KnownEntry(t, 7, Low8(e));
    SwappedEntries(Top8(e));
    SwappedEntries(Low8(Shr8(Shr8(e))));
    SwappedEntries(Low8(Shr8(e)));
    SwappedEntries(Low8(e));
    FourPeels(e);
    var a, b, c, d := Steps(Low8(e), 32), Steps(Low8(Shr8(e)), 24), Steps(Low8(Shr8(Shr8(e))), 16), Steps(Top8(e), 8);
    SwapXor(a, b);
    SwapXor(Xor(a, b), c);
    SwapXor(Xor(Xor(a, b), c), d);
    Reversed(Swap(a), Swap(b), Swap(c), Swap(d));
  }

  lemma Reversed(a: word, b: word, c: word, d: word)
    ensures Xor(Xor(Xor(d, c), b), a) == Xor(Xor(Xor(a, b), c), d)
  {
    hide Xor;
    XorAssoc(a, b, c);
    XorComm(a, Xor(b, c));
    XorComm(b, c);
    XorAssoc(Xor(c, b), a, d);
    XorComm(a, d);
    XorAssoc(Xor(c, b), d, a);
    XorComm(Xor(c, b), d);
    XorAssoc(d, c, b);
  }

  /** crc32_big: the register is kept with its bytes swapped. */
  method BigEndian(crc: word, buf: array<bv8>, len: nat, address: nat, t: array<word>) returns (r: word)
    requires len <= buf.Length && Tables(t[..])
    ensures r == Crc(crc, buf[..len])
  {
    hide Steps, Xor, Low8, Shr8, Octet, Tables, Feed, LookUpBig, Not, Swap;
    ghost var c0 := Not(crc);
    var c := Swap(crc);
    c := Not(c);
    SwapNot(crc);
    FeedNone(c0, buf[..0]);
    var p := 0;
    while p < len && (address + p) % 4 != 0
      invariant p <= len && c == Swap(Feed(c0, buf[..p]))
    {
      c := SwappedBytes(c, buf, p, p + 1, t, c0);
      p := p + 1;
    }
    while len - p >= 32
      invariant p <= len && c == Swap(Feed(c0, buf[..p]))
      decreases len - p
    {
      ghost var start := p;
      for k := 0 to 8
        invariant p == start + 4 * k && c == Swap(Feed(c0, buf[..p]))
      {
        c := BigFour(c, buf, p, t, c0);
        p := p + 4;
      }
    }
    while len - p >= 4
      invariant p <= len && c == Swap(Feed(c0, buf[..p]))
    {
      c := BigFour(c, buf, p, t, c0);
      p := p + 4;
    }
    c := SwappedBytes(c, buf, p, len, t, c0);
    SwapNot(Feed(c0, buf[..len]));
    c := Not(c);
    SwapSwap(Not(Feed(c0, buf[..len])));
    r := Swap(c);
  }

  method SwappedBytes(c0: word, buf: array<bv8>, p: nat, q: nat, t: array<word>, ghost crc: word) returns (c: word)
    requires p <= q <= buf.Length && Tables(t[..]) && c0 == Swap(Feed(crc, buf[..p]))
    ensures c == Swap(Feed(crc, buf[..q]))
  {
    hide Steps, Xor, Low8, Shl8, Octet, Tables, Feed, Swap, Top8;
    c := c0;
    var i := p;
    while i < q
      invariant p <= i <= q && c == Swap(Feed(crc, buf[..i]))
    {
      OneSwapped(t[..], Feed(crc, buf[..i]), buf[i]);
      TakenOne(crc, buf[..], i);
      assert buf[..][..i] == buf[..i] && buf[..][..i + 1] == buf[..i + 1];
      c := Xor(t[1024 + Xor(Top8(c), Octet(buf[i])) as int], Shl8(c));
      i := i + 1;
    }
  }

  /** DOBIG4: the word comes in with its first byte highest. */
  method BigFour(c0: word, buf: array<bv8>, p: nat, t: array<word>, ghost crc: word) returns (c: word)
    requires p + 4 <= buf.Length && Tables(t[..]) && c0 == Swap(Feed(crc, buf[..p]))
    ensures c == Swap(Feed(crc, buf[..p + 4]))
  {
    hide Steps, Xor, Tables, Feed, LookUpBig, Little, Swap;
    TakenFour(crc, buf[..], p);
    assert buf[..][..p] == buf[..p] && buf[..][..p + 4] == buf[..p + 4];
    SwapLittle(buf[p], buf[p + 1], buf[p + 2], buf[p + 3]);
    SwapXor(Feed(crc, buf[..p]), Little(buf[p], buf[p + 1], buf[p + 2], buf[p + 3]));
    c := Xor(c0, Little(buf[p + 3], buf[p + 2], buf[p + 1], buf[p]));
    LookUpBigSteps(t[..], Xor(Feed(crc, buf[..p]), Little(buf[p], buf[p + 1], buf[p + 2], buf[p + 3])));
    c := LookUpBig(t[..], c);
  }

  // ----- crc32_z

  /** crc32_z on any machine: with four bytes at a time where the machine allows it. */
  method Crc32Z(crc: word, buf: array?<bv8>, len: nat, byFour: bool, little: bool, address: nat, t: array<word>)
    returns (r: word)
    requires Tables(t[..]) && (buf != null ==> len <= buf.Length)
    ensures r == if buf == null then 0 else Crc(crc, buf[..len])
  {
    hide Steps, Xor, Tables, Feed, Not;
    if buf == null { return 0; }
    if byFour {
      if little { r := LittleEndian(crc, buf, len, address, t); } else { r := BigEndian(crc, buf, len, address, t); }
      return;
    }
    var c := Not(crc);
    FeedNone(Not(crc), buf[..0]);
    var p := 0;
    while len - p >= 8
      invariant p <= len && c == Feed(Not(crc), buf[..p])
    {
      c := Bytes(c, buf, p, p + 8, t, Not(crc));
      p := p + 8;
    }
    c := Bytes(c, buf, p, len, t, Not(crc));
    r := Not(c);
  }

  /** The CRC of a whole, from the CRC of its first part. */
  lemma CrcAppend(crc: word, s: seq<bv8>, u: seq<bv8>)
    ensures Crc(crc, s + u) == Crc(Crc(crc, s), u)
  {
    hide Feed, Not;
    FeedAppend(Not(crc), s, u);
    NotNot(Feed(Not(crc), s));
  }

  // ----- the values that the checksum is known by

  /** The register begins with all ones, and comes out complemented. */
  lemma RegisterLaw(s: seq<bv8>)
    ensures Crc(0, s) ^ Feed(0xffff_ffff, s) == 0xffff_ffff
  {
    hide Feed;
    AllOnes(Feed(0xffff_ffff, s));
  }

  lemma AllOnes(a: word)
    ensures Not(0) == 0xffff_ffff && Not(a) ^ a == 0xffff_ffff
  {
  }

  /** Byte k of a word, the lowest first. */
  function ByteOf(r: word, k: nat): bv8
    requires k < 4
  {
    if k == 0 then (r & 0xff) as bv8 else if k == 1 then ((r >> 8) & 0xff) as bv8
    else if k == 2 then ((r >> 16) & 0xff) as bv8 else (r >> 24) as bv8
  }

  /** A string with its own checksum behind it, lowest byte first, has one and the same checksum, whatever the string. */
  lemma Residue(s: seq<bv8>)
    ensures var r := Crc(0, s); Crc(0, s + [ByteOf(r, 0), ByteOf(r, 1), ByteOf(r, 2), ByteOf(r, 3)]) == 0x2144_df1c
  {
    hide Feed, Steps, Crc, Little, ByteOf;
    var c, r := Feed(0xffff_ffff, s), Crc(0, s);
    var four := [ByteOf(r, 0), ByteOf(r, 1), ByteOf(r, 2), ByteOf(r, 3)];
    RegisterLaw(s);
    LittleBytes(r);
    FeedAppend(0xffff_ffff, s, four);
    FourBytes(c, ByteOf(r, 0), ByteOf(r, 1), ByteOf(r, 2), ByteOf(r, 3));
    Complement(c, r);
    OnesThrough();
    RegisterLaw(s + four);
    FromRegister(Crc(0, s + four));
  }

  lemma LittleBytes(r: word)
    ensures Little(ByteOf(r, 0), ByteOf(r, 1), ByteOf(r, 2), ByteOf(r, 3)) == r
  {
  }

  lemma Complement(c: word, r: word)
    requires r ^ c == 0xffff_ffff
    ensures Xor(c, r) == 0xffff_ffff
  {
  }

  lemma FromRegister(r: word)
    requires r ^ 0xdebb_20e3 == 0xffff_ffff
    ensures r == 0x2144_df1c
  {
  }

  lemma OnesThrough()
    ensures Steps(0xffff_ffff, 32) == 0xdebb_20e3
  {
    hide Steps;
    OnesByBytes();
    StepsAdd(0xffff_ffff, 8, 24);
    StepsAdd(0x2dfd_1072, 8, 16);
    StepsAdd(0xbe26_ed00, 8, 8);
  }

  lemma OnesByBytes()
    ensures Steps(0xffff_ffff, 8) == 0x2dfd_1072 && Steps(0x2dfd_1072, 8) == 0xbe26_ed00
    ensures Steps(0xbe26_ed00, 8) == 0x00be_26ed && Steps(0x00be_26ed, 8) == 0xdebb_20e3
  {
  }
}
