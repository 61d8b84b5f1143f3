/** BZ2_bzDecompress over a whole stream: blocks in, bytes out, with the input and the room for output arriving in any
    pieces. */
module Decompressor {
  import opened Bits
  import opened BitIO
  import opened Counting
  import opened Words
  import opened BlockFormat
  import opened BlockCodec
  import opened SymbolReader
  import opened WordBits
  import opened StreamFormat
  import opened UnRle
  import R = RunLength

  /** How a run of calls leaves off. Full: the last call's output is full. */
  datatype Outcome = Ended(end: Ending) | Full

  method ReadMagic(r: BitReader, bs: seq<int>) returns (st: Status)
    requires r.Valid()
    modifies r
    ensures r.Valid() && st == StatusOf(GetMagic(bs, old(r.Pending())))
    ensures st.Fine? ==> GetMagic(bs, old(r.Pending())) == Parsed(true, r.Pending())
  {
    hide Value;
    var i := 0;
    assert bs[0..] == bs;
    while i < |bs|
      invariant 0 <= i <= |bs| && r.Valid() && GetMagic(bs, old(r.Pending())) == GetMagic(bs[i..], r.Pending())
    {
      assert bs[i..][1..] == bs[i + 1..];
      var ok, uc := r.GetBits(8);
      if !ok { return Starving; }
      if uc != bs[i] { return DataError; }
      i := i + 1;
    }
    st := Fine;
  }

  function EndOf(st: Status): Ending
  {
    match st
    case Fine => StreamEnd
    case Starving => NeedMore
    case DataError => Bad
    case Overrunning => Undefined
  }

  method ReadTrailer(r: BitReader, combined: word) returns (end: Ending)
    requires r.Valid()
    modifies r
    ensures end == GetTrailer(old(r.Pending()), combined).end && GetTrailer(old(r.Pending()), combined).bytes == []
  {
    hide Value, Number;
    var st := ReadMagic(r, END_MAGIC[1..]);
    if !st.Fine? { return EndOf(st); }
    var ok, stored := ReadBytes(r, 4);
    if !ok { return NeedMore; }
    end := if stored == Number(combined) then StreamEnd else Bad;
  }

  /** The room that a series of calls brings. */
  function Total(rooms: seq<nat>): nat
  {
    if rooms == [] then 0 else rooms[0] + Total(rooms[1..])
  }

  /** The block's bytes go out, a room at a time. */
  method WriteBlock(block: Block, small: bool, rooms0: seq<nat>)
    returns (outcome: Outcome, crc: word, out: seq<int>, rooms: seq<nat>)
    requires block.bytes != [] && AllBytes(block.bytes) && |block.beyond| == 2 && AllBytes(block.beyond)
    ensures outcome.Full? || (outcome.Ended? && (outcome.end.StreamEnd? || outcome.end.Bad?))
    ensures outcome == Ended(StreamEnd) ==>
              R.Decode(block.bytes) == R.Whole(out) && crc == Crc(out) && |out| + Total(rooms) == Total(rooms0)
    ensures outcome == Ended(Bad) ==> R.Decode(block.bytes).Truncated? && out == Given(block)
    ensures outcome.Full? ==> out <= Given(block) && |out| == Total(rooms0)
  {
    hide Crc, R.Decode, Delivered;
    var bytes := block.bytes;
    var stage := new OutputStage(bytes + block.beyond, |bytes|);
    assert (bytes + block.beyond)[..|bytes|] == bytes;
    out, rooms := [], rooms0;
    while true
      invariant fresh(stage) && stage.Valid() && stage.data == bytes + block.beyond && stage.nblock == |bytes|
      invariant stage.Agrees(out) && |out| + Total(rooms) == Total(rooms0)
      decreases |rooms|
    {
      if rooms == [] {
        stage.SoFar(out);
        return Full, 0, out, rooms;
      }
      var corrupt, piece;
      if small { corrupt, piece := stage.Small(rooms[0], out); } else { corrupt, piece := stage.Fast(rooms[0], out); }
      out := out + piece;
      if corrupt { return Ended(Bad), 0, out, rooms; }
      if stage.Done() {
        stage.DoneMeans(out);
        crc := stage.crc;
        RoomLeft(rooms, rooms[0] - |piece|);
        rooms := [rooms[0] - |piece|] + rooms[1..];
        return Ended(StreamEnd), crc, out, rooms;
      }
      rooms := rooms[1..];
    }
  }

  lemma RoomLeft(rooms: seq<nat>, left: nat)
    requires rooms != []
    ensures Total([left] + rooms[1..]) == left + Total(rooms[1..])
  {
    assert ([left] + rooms[1..])[1..] == rooms[1..];
  }

  /** BZ2_bzDecompress on a stream: for every string of bits, however it is cut into calls, and whatever room each call
      brings. It leaves off only when all the room is used, so with more room than there is output it comes to the end, and
      what it has given out is always what the bits say. Randomised blocks are recognised, not read. */
  method Decompress(r: BitReader, small: bool, rooms0: seq<nat>) returns (outcome: Outcome, out: seq<int>)
    requires r.Valid()
    modifies r
    ensures outcome.Ended? ==> outcome.end == GetStream(old(r.Pending())).end && out == GetStream(old(r.Pending())).bytes
    ensures outcome.Full? ==> out <= GetStream(old(r.Pending())).bytes && |out| == Total(rooms0)
  {
    hide BitReader.Pending, BitReader.Valid, GetBlocks, GetMagic, OutputStage.Valid, Value;
    out := [];
    ghost var bits := r.Pending();
    var st := ReadMagic(r, STREAM_MAGIC);
    if !st.Fine? { return Ended(EndOf(st)), []; }
    var ok, sizeChar := r.GetBits(8);
    if !ok { return Ended(NeedMore), []; }
    if sizeChar < SIZE_BASE + 1 || sizeChar > SIZE_BASE + 9 { return Ended(Bad), []; }
    var size := sizeChar - SIZE_BASE;
    var combined: word := 0;
    var rooms := rooms0;
    ghost var all := GetBlocks(r.Pending(), size, combined);
    assert GetStream(bits) == all && [] + all.bytes == all.bytes;
    while true
      invariant r.Valid()
      invariant all == Reading(out + GetBlocks(r.Pending(), size, combined).bytes, GetBlocks(r.Pending(), size, combined).end)
      invariant |out| + Total(rooms) == Total(rooms0)
      decreases |r.Pending()|
    {
      var more, piece;
      outcome, more, piece, combined, rooms := OneBlock(r, size, small, combined, rooms);
      if more { Assoc(out, piece, GetBlocks(r.Pending(), size, combined).bytes); }
      out := out + piece;
      if !more { return; }
    }
  }

  /** One turn: a block, or the end of the stream. */
  method OneBlock(r: BitReader, size: nat, small: bool, combined0: word, rooms0: seq<nat>)
    returns (outcome: Outcome, more: bool, out: seq<int>, combined: word, rooms: seq<nat>)
    requires r.Valid() && 1 <= size <= 9
    modifies r
    ensures more ==> r.Valid() && |r.Pending()| < |old(r.Pending())| && |out| + Total(rooms) == Total(rooms0)
    ensures var g := GetBlocks(old(r.Pending()), size, combined0);
            if more then
              var h := GetBlocks(r.Pending(), size, combined);
              g == Reading(out + h.bytes, h.end)
            else
              && (outcome.Ended? ==> outcome.end == g.end && out == g.bytes)
              && (outcome.Full? ==> out <= g.bytes && |out| == Total(rooms0))
  {
    hide AllBytes, BitReader.Pending, BitReader.Valid, Combine, Crc, Delivered, Finalised, GetBlock, GetTrailer, Number,
      OutputStage.Valid, R.Decode, Value;
    combined, rooms, out := combined0, rooms0, [];
    ghost var bits := r.Pending();
    var ok, uc := r.GetBits(8);
    if !ok { return Ended(NeedMore), false, [], combined, rooms; }
    if uc == END_MAGIC[0] {
      var end := ReadTrailer(r, combined);
      return Ended(end), false, [], combined, rooms;
    }
    if uc != BLOCK_MAGIC[0] { return Ended(Bad), false, [], combined, rooms; }
    var st := ReadMagic(r, BLOCK_MAGIC[1..]);
    if !st.Fine? { return Ended(EndOf(st)), false, [], combined, rooms; }
    ghost var body := r.Pending();
    var block;
    st, block := DecompressBlock(r, size, small);
    if !st.Fine? { return Ended(EndOf(st)), false, [], combined, rooms; }
    if block.randomised { return Ended(Randomised), false, [], combined, rooms; }
    BlockBytes(body, size);
    var crc;
    outcome, crc, out, rooms := WriteBlock(block, small, rooms);
    WholeGiven(block);
    if outcome != Ended(StreamEnd) { return outcome, false, out, combined, rooms; }
    if Number(Finalised(crc)) != block.crc { return Ended(Bad), false, out, combined, rooms; }
    combined := Combine(combined, Finalised(crc));
    more := true;
  }

  lemma WholeGiven(block: Block)
    requires block.beyond != []
    ensures R.Decode(block.bytes).Whole? ==> Given(block) == R.Decode(block.bytes).bytes
  {
    hide R.Decode;
    assert (block.bytes + block.beyond)[..|block.bytes|] == block.bytes;
  }
}
