/** A whole stream: header, blocks, trailer and checksums; reading it gives the data back. */
module StreamFormat {
  import opened Bits
  import opened Counting
  import opened Rotations
  import opened Words
  import opened WordBits
  import opened BlockFormat
  import opened SymbolMaps
  import opened BlockCodec
  import opened BlockReader
  import opened UnRle
  import R = RunLength
  import B = BlockCrc
  import BitIO

  const BLOCK_MAGIC := [0x31, 0x41, 0x59, 0x26, 0x53, 0x59]
  const END_MAGIC := [0x17, 0x72, 0x45, 0x38, 0x50, 0x90]
  const STREAM_MAGIC := [0x42, 0x5a, 0x68]
  const SIZE_BASE := 0x30

  /** BZ_FINALISE_CRC. */
  function Finalised(crc: word): word { !crc }

  /** How a block's checksum joins the stream's. */
  function Combine(c: word, block: word): word { ((c << 1) | (c >> 31)) ^ block }

  /** One bit round, and the block's checksum added: bit j of the result is the sum of the stream's next bit and the block's. */
  lemma CombineTurns(c: word, block: word, j: nat)
    requires j < 32
    ensures LowBits(Combine(c, block), 32)[j] == (LowBits(c, 32)[(j + 1) % 32] != LowBits(block, 32)[j])
  {
    hide LowBits, Xor;
    var t: word := (c << 1) | (c >> 31);
    Turned(c, t);
    XorAt(t, block, 32, j);
    CombineIs(c, block);
  }

  lemma CombineIs(c: word, block: word)
    ensures Combine(c, block) == Xor((c << 1) | (c >> 31), block)
  {
  }

  /** The checksum that is sent has every bit of the register the other way round. */
  lemma FinalisedBits(crc: word, j: nat)
    requires j < 32
    ensures LowBits(Finalised(crc), 32)[j] == !LowBits(crc, 32)[j]
  {
    NotAt(crc, 32, j);
  }

  /** A byte of data goes into the checksum as the number that it is. */
  lemma ByteNumber(b: int)
    requires 0 <= b < 256
    ensures Number(AsWord(b)) == b
  {
    hide AsWord, LowBits, Value;
    ByteValue(b, 32);
  }

  lemma {:induction false} ByteValue(b: int, n: nat)
    requires 0 <= b < 256 && (n >= 8 || b < Pow2(n))
    ensures Value(LowBits(AsWord(b), n)) == b
    decreases n
  {
    hide LowBits, AsWord;
    if n == 0 {
    } else {
      LowBitsNext(AsWord(b), n - 1);
      HalfByte(b);
      Pow2Values();
      ByteValue(b / 2, n - 1);
      assert LowBits(AsWord(b), n)[..n - 1] == LowBits(AsWord(b / 2), n - 1);
    }
  }

  lemma HalfByte(b: int)
    requires 0 <= b < 256
    ensures (LowBit(AsWord(b)) <==> b % 2 == 1) && Shr1(AsWord(b)) == AsWord(b / 2)
  {
  }

  /** The check value that this checksum is known by: that of the digits 1 to 9. */
  lemma CheckValue()
    ensures Finalised(Crc([0x31, 0x32, 0x33, 0x34, 0x35, 0x36, 0x37, 0x38, 0x39])) == 0xfc89_1918
  {
    hide Crc, B.Update, AsWord;
    FirstDigits();
    MoreDigits();
    LastDigits();
    DigitWords();
    CrcNone();
    var s: seq<int> := [];
    CrcSnoc(s, 0x31);
    CrcSnoc(s + [0x31], 0x32);
    CrcSnoc(s + [0x31] + [0x32], 0x33);
    CrcSnoc(s + [0x31] + [0x32] + [0x33], 0x34);
    CrcSnoc(s + [0x31] + [0x32] + [0x33] + [0x34], 0x35);
    CrcSnoc(s + [0x31] + [0x32] + [0x33] + [0x34] + [0x35], 0x36);
    CrcSnoc(s + [0x31] + [0x32] + [0x33] + [0x34] + [0x35] + [0x36], 0x37);
    CrcSnoc(s + [0x31] + [0x32] + [0x33] + [0x34] + [0x35] + [0x36] + [0x37], 0x38);
    CrcSnoc(s + [0x31] + [0x32] + [0x33] + [0x34] + [0x35] + [0x36] + [0x37] + [0x38], 0x39);
    assert s + [0x31] + [0x32] + [0x33] + [0x34] + [0x35] + [0x36] + [0x37] + [0x38] + [0x39]
           == [0x31, 0x32, 0x33, 0x34, 0x35, 0x36, 0x37, 0x38, 0x39];
  }

  lemma CrcNone()
    ensures Crc([]) == 0xffff_ffff
  {
  }

  lemma DigitWords()
    ensures AsWord(0x31) == 0x31 && AsWord(0x32) == 0x32 && AsWord(0x33) == 0x33 && AsWord(0x34) == 0x34 && AsWord(0x35) == 0x35
    ensures AsWord(0x36) == 0x36 && AsWord(0x37) == 0x37 && AsWord(0x38) == 0x38 && AsWord(0x39) == 0x39
  {
  }

  lemma FirstDigits()
    ensures B.Update(0xffff_ffff, 0x31) == 0x9efb_cf93 && B.Update(0x9efb_cf93, 0x32) == 0x3fec_5e6a
    ensures B.Update(0x3fec_5e6a, 0x33) == 0xd952_f164
  {
  }

  lemma MoreDigits()
    ensures B.Update(0xd952_f164, 0x34) == 0xa695_c4aa && B.Update(0xa695_c4aa, 0x35) == 0xbd9a_b747
    ensures B.Update(0xbd9a_b747, 0x36) == 0xd8f0_6c8f
  {
  }

  lemma LastDigits()
    ensures B.Update(0xd8f0_6c8f, 0x37) == 0x0d8a_14c4 && B.Update(0x0d8a_14c4, 0x38) == 0x49e3_c2fb
    ensures B.Update(0x49e3_c2fb, 0x39) == 0x0376_e6e7
  {
  }

  function PutMagic(bs: seq<int>): seq<bool>
  {
    if bs == [] then [] else (if bs[0] >= 0 then ToBits(8, bs[0]) else []) + PutMagic(bs[1..])
  }

  /** Fixed bytes, each compared as it arrives. */
  function GetMagic(bs: seq<int>, bits: seq<bool>): (r: Parse<bool>)
    ensures !r.Overrun?
    ensures r.Parsed? ==> |r.rest| == |bits| - 8 * |bs|
    decreases |bs|
  {
    if bs == [] then Parsed(true, bits)
    else if |bits| < 8 then Starved
    else if Value(bits[..8]) != bs[0] then Corrupt
    else GetMagic(bs[1..], bits[8..])
  }

  lemma {:induction false} PutGetMagic(bs: seq<int>, rest: seq<bool>)
    requires AllBytes(bs)
    ensures GetMagic(bs, PutMagic(bs) + rest) == Parsed(true, rest)
    decreases |bs|
  {
    hide ToBits, Value;
    if bs == [] {
      assert [] + rest == rest;
    } else {
      Pow2Values();
      ValueToBits(8, bs[0]);
      Assoc(ToBits(8, bs[0]), PutMagic(bs[1..]), rest);
      Front(ToBits(8, bs[0]), PutMagic(bs[1..]) + rest);
      PutGetMagic(bs[1..], rest);
    }
  }

  datatype Ending = StreamEnd | NeedMore | Bad | Randomised | Undefined

  /** What reading a stream hands out, and how it ends. Randomised: at a block of the old randomised kind. Undefined: with a
      write past the end of an array. */
  datatype Reading = Reading(bytes: seq<int>, end: Ending)

  function GetTrailer(bits: seq<bool>, combined: word): Reading
  {
    match GetMagic(END_MAGIC[1..], bits)
    case Starved => Reading([], NeedMore)
    case Corrupt => Reading([], Bad)
    case Overrun => Reading([], Undefined)
    case Parsed(_, r1) =>
      if |r1| < 32 then Reading([], NeedMore)
      else Reading([], if Value(r1[..32]) == Number(combined) then StreamEnd else Bad)
  }

  /** One block's bytes, once they are read: their runs undone, their checksum compared. */
  ghost predicate Checks(block: Block)
  {
    var d := R.Decode(block.bytes);
    d.Whole? && Number(Finalised(Crc(d.bytes))) == block.crc
  }

  /** What a block hands out, even when it turns out to be broken off or to have another checksum. */
  function Given(block: Block): seq<int>
  {
    if block.beyond == [] then [] else Delivered(block.bytes + block.beyond, |block.bytes|)
  }

  /** The blocks and the trailer, given the checksum so far. */
  ghost function GetBlocks(bits: seq<bool>, size: nat, combined: word): (r: Reading)
    decreases |bits|
  {
    if |bits| < 8 then Reading([], NeedMore)
    else if Value(bits[..8]) == END_MAGIC[0] then GetTrailer(bits[8..], combined)
    else match GetMagic(BLOCK_MAGIC, bits)
      case Starved => Reading([], NeedMore)
      case Corrupt => Reading([], Bad)
      case Overrun => Reading([], Undefined)
      case Parsed(_, r1) =>
        match GetBlock(r1, size)
        case Starved => Reading([], NeedMore)
        case Corrupt => Reading([], Bad)
        case Overrun => Reading([], Undefined)
        case Parsed(block, r2) =>
          if block.randomised then Reading([], Randomised)
          else if !Checks(block) then Reading(Given(block), Bad)
          else
            var data := R.Decode(block.bytes).bytes;
            var rest := GetBlocks(r2, size, Combine(combined, Finalised(Crc(data))));
            Reading(data + rest.bytes, rest.end)
  }

  ghost function GetStream(bits: seq<bool>): Reading
  {
    match GetMagic(STREAM_MAGIC, bits)
    case Starved => Reading([], NeedMore)
    case Corrupt => Reading([], Bad)
    case Overrun => Reading([], Undefined)
    case Parsed(_, r1) =>
      if |r1| < 8 then Reading([], NeedMore)
      else var size := Value(r1[..8]);
           if size < SIZE_BASE + 1 || size > SIZE_BASE + 9 then Reading([], Bad)
           else GetBlocks(r1[8..], size - SIZE_BASE, 0)
  }

  /** After some good blocks there comes one with too many selectors. */
  ghost predicate ComesToTooMany(bits: seq<bool>, size: nat, combined: word)
    decreases |bits|
  {
    && |bits| >= 8 && Value(bits[..8]) != END_MAGIC[0]
    && var m := GetMagic(BLOCK_MAGIC, bits);
    && m.Parsed?
    && var s, r := SelectorBits(m.rest, size), GetBlock(m.rest, size);
    && ((s.Parsed? && TooMany(s.rest))
        || (r.Parsed? && !r.value.randomised && Checks(r.value)
            && ComesToTooMany(r.rest, size, Combine(combined, Finalised(Crc(R.Decode(r.value.bytes).bytes))))))
  }

  /** Reading a stream ends with a write past the end of an array exactly when the stream comes to such a block. */
  lemma {:induction false} BlocksOverrun(bits: seq<bool>, size: nat, combined: word)
    ensures GetBlocks(bits, size, combined).end.Undefined? <==> ComesToTooMany(bits, size, combined)
    decreases |bits|
  {
    hide GetBlock, SelectorBits, TooMany, Combine, Crc, Finalised, R.Decode, Value, GetMagic, Given;
    var m := GetMagic(BLOCK_MAGIC, bits);
    if |bits| >= 8 && m.Parsed? {
      BlockOverruns(m.rest, size);
      var r := GetBlock(m.rest, size);
      if r.Parsed? && !r.value.randomised && Checks(r.value) {
        BlocksOverrun(r.rest, size, Combine(combined, Finalised(Crc(R.Decode(r.value.bytes).bytes))));
      }
    }
  }

  /** Only the byte 0 is used. */
  function OnlyZero(): (r: seq<bool>)
    ensures |r| == 256
  {
    seq(256, i => i == 0)
  }

  lemma ZeroUsed(k: nat)
    requires 1 <= k <= 256
    ensures |Used(OnlyZero(), k)| > 0
  {
    if k > 1 { ZeroUsed(k - 1); }
  }

  /** A stream that begins like any other and announces a block of 18003 selectors, each of them one bit. */
  function WideStream(size: nat, crc: nat, origPtr: nat, rest: seq<bool>): seq<bool>
  {
    StreamHeader(size) + (PutMagic(BLOCK_MAGIC) + (HeaderBits(crc, origPtr) + (PutMap(OnlyZero())
      + (ToBits(3, 2) + (ToBits(15, MAX_SELECTORS + 1) + (Zeros(MAX_SELECTORS + 1) + rest))))))
  }

  /** Reading it writes past the end of an array. */
  lemma OverrunStream(size: nat, crc: nat, origPtr: nat, rest: seq<bool>)
    requires 1 <= size <= 9 && crc < 0x1_0000_0000 && origPtr <= 10 + 100000 * size
    ensures GetStream(WideStream(size, crc, origPtr, rest)) == Reading([], Undefined)
  {
    hide ToBits, Value, Pow2, Used, OnlyZero, PutMap, GetMap, GetHeader, HeaderBits, GetBlock, GetBlocks, GetMagic, PutMagic, TooMany,
      GetSelectors, Zeros;
    var sel := ToBits(3, 2) + (ToBits(15, MAX_SELECTORS + 1) + (Zeros(MAX_SELECTORS + 1) + rest));
    var map_ := PutMap(OnlyZero()) + sel;
    var block := HeaderBits(crc, origPtr) + map_;
    Pow2Values();
    OverrunThere(rest);
    OverrunExactly(sel);
    ZeroUsed(256);
    PutGetMap(OnlyZero(), sel);
    HeaderBack(crc, origPtr, map_);
    assert SelectorBits(block, size) == Parsed(sel, sel);
    BlockOverruns(block, size);
    MagicBlock(block, size);
    StreamBegins(size, PutMagic(BLOCK_MAGIC) + block);
  }

  lemma MagicBlock(block: seq<bool>, size: nat)
    requires GetBlock(block, size).Overrun?
    ensures GetBlocks(PutMagic(BLOCK_MAGIC) + block, size, 0) == Reading([], Undefined)
  {
    hide ToBits, Value, GetBlock, SelectorBits, TooMany;
    PutGetMagic(BLOCK_MAGIC, block);
  }

  lemma StreamBegins(size: nat, body: seq<bool>)
    requires 1 <= size <= 9
    ensures GetStream(StreamHeader(size) + body) == GetBlocks(body, size, 0)
  {
    hide ToBits, Value, GetBlocks, Pow2, GetMagic, PutMagic;
    Pow2Values();
    var s := ToBits(8, SIZE_BASE + size);
    ValueToBits(8, SIZE_BASE + size);
    Assoc(PutMagic(STREAM_MAGIC), s, body);
    PutGetMagic(STREAM_MAGIC, s + body);
    Front(s, body);
  }

  // ----- what the encoder puts out

  /** One block: its bytes, the data they stand for, and the encoder's choices. */
  datatype Item = Item(b: seq<byte>, data: seq<int>, sent: Sent)

  ghost predicate GoodItem(x: Item, size: nat)
  {
    R.Decode(x.b) == R.Whole(x.data) && |x.b| <= 100000 * size && GoodChoices(x.b, x.sent)
  }

  ghost predicate GoodItems(xs: seq<Item>, size: nat)
  {
    forall i :: 0 <= i < |xs| ==> GoodItem(xs[i], size)
  }

  function ItemCrc(x: Item): word
  {
    Finalised(Crc(x.data))
  }

  ghost function ItemBits(x: Item): seq<bool>
    requires GoodChoices(x.b, x.sent)
  {
    PutMagic(BLOCK_MAGIC) + BlockBits(x.b, Number(ItemCrc(x)), x.sent)
  }

  ghost function ItemsBits(xs: seq<Item>, size: nat): seq<bool>
    requires GoodItems(xs, size)
  {
    if xs == [] then [] else ItemsBits(xs[..|xs| - 1], size) + ItemBits(xs[|xs| - 1])
  }

  function Combined(xs: seq<Item>): word
  {
    if xs == [] then 0 else Combine(Combined(xs[..|xs| - 1]), ItemCrc(xs[|xs| - 1]))
  }

  function Data(xs: seq<Item>): seq<int>
  {
    if xs == [] then [] else Data(xs[..|xs| - 1]) + xs[|xs| - 1].data
  }

  function TrailerBits(combined: word): seq<bool>
  {
    PutMagic(END_MAGIC) + ToBits(32, Number(combined))
  }

  function StreamHeader(size: nat): seq<bool>
  {
    PutMagic(STREAM_MAGIC) + ToBits(8, SIZE_BASE + size)
  }

  lemma TrailerBack(combined: word, rest: seq<bool>, size: nat)
    ensures GetBlocks(TrailerBits(combined) + rest, size, combined) == Reading([], StreamEnd)
  {
    hide ToBits, Value, Number;
    Pow2Values();
    var n := Number(combined);
    var bits := TrailerBits(combined) + rest;
    var tail := PutMagic(END_MAGIC[1..]) + (ToBits(32, n) + rest);
    ValueToBits(8, END_MAGIC[0]);
    ValueToBits(32, n);
    assert bits == ToBits(8, END_MAGIC[0]) + tail by {
      assert PutMagic(END_MAGIC) == ToBits(8, END_MAGIC[0]) + PutMagic(END_MAGIC[1..]);
    }
    Front(ToBits(8, END_MAGIC[0]), tail);
    PutGetMagic(END_MAGIC[1..], ToBits(32, n) + rest);
    Front(ToBits(32, n), rest);
  }

  lemma ItemBack(x: Item, size: nat, combined: word, rest: seq<bool>)
    requires GoodItem(x, size) && 1 <= size <= 9
    ensures var after := GetBlocks(rest, size, Combine(combined, ItemCrc(x)));
            GetBlocks(ItemBits(x) + rest, size, combined) == Reading(x.data + after.bytes, after.end)
  {
    hide ToBits, Value, Number, BlockBits, GetBlock, GoodChoices, Crc, Pow2;
    Pow2Values();
    var body := BlockBits(x.b, Number(ItemCrc(x)), x.sent) + rest;
    Assoc(PutMagic(BLOCK_MAGIC), BlockBits(x.b, Number(ItemCrc(x)), x.sent), rest);
    PutGetMagic(BLOCK_MAGIC, body);
    BlockBack(x.b, Number(ItemCrc(x)), x.sent, size, rest);
    FirstByte(body);
    var block := GetBlock(body, size).value;
    assert Checks(block);
  }

  lemma FirstByte(body: seq<bool>)
    ensures var bits := PutMagic(BLOCK_MAGIC) + body; |bits| >= 8 && Value(bits[..8]) == BLOCK_MAGIC[0]
  {
    hide ToBits, Value;
    Pow2Values();
    ValueToBits(8, BLOCK_MAGIC[0]);
    var tail := PutMagic(BLOCK_MAGIC[1..]) + body;
    assert PutMagic(BLOCK_MAGIC) + body == ToBits(8, BLOCK_MAGIC[0]) + tail;
    Front(ToBits(8, BLOCK_MAGIC[0]), tail);
  }

  /** From block k on. */
  lemma {:induction false} ItemsBack(xs: seq<Item>, size: nat, combined: word, rest: seq<bool>)
    requires GoodItems(xs, size) && 1 <= size <= 9
    ensures var after := GetBlocks(rest, size, CombinedFrom(combined, xs));
            GetBlocks(ItemsBits(xs, size) + rest, size, combined) == Reading(Data(xs) + after.bytes, after.end)
    decreases |xs|
  {
    hide Combine, GetBlocks, ItemBits, ItemCrc;
    if xs == [] {
      assert ItemsBits(xs, size) + rest == rest;
      assert Data(xs) + GetBlocks(rest, size, combined).bytes == GetBlocks(rest, size, combined).bytes;
    } else {
      var k := |xs| - 1;
      var front, x := xs[..k], xs[k];
      assert GoodItem(x, size);
      Assoc(ItemsBits(front, size), ItemBits(x), rest);
      ItemsBack(front, size, combined, ItemBits(x) + rest);
      var c := CombinedFrom(combined, front);
      ItemBack(x, size, c, rest);
      var after := GetBlocks(rest, size, CombinedFrom(combined, xs));
      Assoc(Data(front), x.data, after.bytes);
    }
  }

  function CombinedFrom(c: word, xs: seq<Item>): word
  {
    if xs == [] then c else Combine(CombinedFrom(c, xs[..|xs| - 1]), ItemCrc(xs[|xs| - 1]))
  }

  lemma {:induction false} CombinedIsFromZero(xs: seq<Item>)
    ensures CombinedFrom(0, xs) == Combined(xs)
  {
    hide Combine, ItemCrc;
    if xs != [] { CombinedIsFromZero(xs[..|xs| - 1]); }
  }

  /** Whether an odd number of the blocks from i on has a one where it comes to lie at bit j: turned round once for each block
      after it. */
  function OddFrom(xs: seq<Item>, i: nat, j: nat): bool
    decreases |xs| - i
  {
    if i >= |xs| then false
    else OddFrom(xs, i + 1, j) != LowBits(ItemCrc(xs[i]), 32)[(j + (|xs| - 1 - i)) % 32]
  }

  /** The combined checksum, bit by bit: each block's checksum, turned round once for each block after it, added up. */
  lemma {:induction false} CombinedBits(xs: seq<Item>, j: nat)
    requires j < 32
    ensures LowBits(Combined(xs), 32)[j] == OddFrom(xs, 0, j)
    decreases |xs|
  {
    hide LowBits, Combine, ItemCrc, OddFrom;
    if xs == [] {
      NoBlocks(xs, j);
    } else {
      var k := |xs| - 1;
      CombineTurns(Combined(xs[..k]), ItemCrc(xs[k]), j);
      CombinedBits(xs[..k], (j + 1) % 32);
      OddSnoc(xs, 0, j);
    }
  }

  lemma NoBlocks(xs: seq<Item>, j: nat)
    requires xs == [] && j < 32
    ensures !LowBits(0, 32)[j] && !OddFrom(xs, 0, j)
  {
    hide LowBits;
    XorAt(0, 0, 32, j);
    XorSelf(0);
  }

  lemma {:induction false} OddSnoc(xs: seq<Item>, i: nat, j: nat)
    requires i < |xs| && j < 32
    ensures OddFrom(xs, i, j)
            == (OddFrom(xs[..|xs| - 1], i, (j + 1) % 32) != LowBits(ItemCrc(xs[|xs| - 1]), 32)[j])
    decreases |xs| - i
  {
    hide LowBits, ItemCrc;
    var k := |xs| - 1;
    if i == k {
      assert OddFrom(xs, i + 1, j) == false;
    } else {
      OddSnoc(xs, i + 1, j);
      TurnOnce(j, k - i);
    }
  }

  lemma TurnOnce(j: nat, d: nat)
    requires d >= 1
    ensures ((j + 1) % 32 + (d - 1)) % 32 == (j + d) % 32
  {
  }

  ghost function StreamBits(xs: seq<Item>, size: nat): seq<bool>
    requires GoodItems(xs, size)
  {
    StreamHeader(size) + (ItemsBits(xs, size) + TrailerBits(Combined(xs)))
  }

  lemma {:induction false} MagicFlat(bs: seq<int>)
    requires forall i :: 0 <= i < |bs| ==> bs[i] >= 0
    ensures PutMagic(bs) == Flatten(bs)
    decreases |bs|
  {
    hide ToBits;
    if bs != [] {
      MagicFlat(bs[1..]);
      FlattenFirst(bs);
    } else {
      assert Flatten(bs) == [];
    }
  }

  lemma {:induction false} ZeroBits(n: nat)
    ensures ToBits(n, 0) == Zeros(n)
    decreases n
  {
    if n > 0 { ZeroBits(n - 1); }
  }

  /** The stream of no data: fourteen bytes. */
  lemma EmptyStream(size: nat)
    requires 1 <= size <= 9
    ensures StreamBits([], size)
            == Flatten([0x42, 0x5a, 0x68, 0x30 + size] + ([0x17, 0x72, 0x45, 0x38, 0x50, 0x90] + [0, 0, 0, 0]))
  {
    hide ToBits, Flatten, PutMagic;
    MagicFlat(STREAM_MAGIC);
    MagicFlat(END_MAGIC);
    FlattenAppend([0x42, 0x5a, 0x68, 0x30 + size], END_MAGIC + [0, 0, 0, 0]);
    FlattenAppend(END_MAGIC, [0, 0, 0, 0]);
    FlattenAppend(STREAM_MAGIC, [0x30 + size]);
    FlattenOne(0x30 + size);
    assert STREAM_MAGIC + [0x30 + size] == [0x42, 0x5a, 0x68, 0x30 + size];
    NoSum();
    assert ItemsBits([], size) == [];
  }

  lemma {:induction false} NoBits(n: nat)
    ensures LowBits(0, n) == Zeros(n)
    decreases n
  {
    if n > 0 { NoBits(n - 1); }
  }

  lemma NoSum()
    ensures ToBits(32, Number(0)) == Flatten([0, 0, 0, 0])
  {
    hide ToBits, Flatten, Value;
    NumberBits(0);
    ZeroBits(8);
    NoBits(32);
    FlattenFirst([0, 0, 0, 0]);
    FlattenFirst([0, 0, 0]);
    FlattenFirst([0, 0]);
    FlattenOne(0);
    assert [0, 0, 0, 0][1..] == [0, 0, 0] && [0, 0, 0][1..] == [0, 0] && [0, 0][1..] == [0];
  }

  /** A stream decodes to the data of its blocks, whatever follows it. */
  lemma StreamBack(xs: seq<Item>, size: nat, rest: seq<bool>)
    requires GoodItems(xs, size) && 1 <= size <= 9
    ensures GetStream(StreamBits(xs, size) + rest) == Reading(Data(xs), StreamEnd)
  {
    hide GetStream, GetBlocks, ItemsBits, TrailerBits, Combined, GoodItem, StreamHeader;
    var items, trailer := ItemsBits(xs, size), TrailerBits(Combined(xs));
    Chain3(StreamHeader(size), items, trailer, rest);
    StreamBegins(size, items + (trailer + rest));
    CombinedIsFromZero(xs);
    ItemsBack(xs, size, 0, TrailerBits(Combined(xs)) + rest);
    TrailerBack(Combined(xs), rest, size);
    assert Data(xs) + [] == Data(xs);
  }

  lemma Chain3(a: seq<bool>, b: seq<bool>, c: seq<bool>, d: seq<bool>)
    ensures (a + (b + c)) + d == a + (b + (c + d))
  {
  }
}
