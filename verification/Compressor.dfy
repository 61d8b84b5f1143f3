/** BZ2_bzCompress: runs of calls that feed input, flush and finish, with whatever room for output each call brings. */
module Compressor {
  import opened Bits
  import opened BitIO
  import opened ByteOverlay
  import opened Counting
  import opened MainOrder
  import opened Rotations
  import opened MtfSpec
  import opened RunLength
  import opened WordBits
  import opened StreamFormat
  import opened UnRle
  import opened Words
  import BlockCodec
  import BlockCrc
  import opened BlockBound
  import E = BlockEncoder
  import F = FallbackSort

  const FTAB_WORDS := 65537

  datatype Mode = Idle | Running | Flushing | Finishing
  datatype Phase = Output | Input
  datatype Action = DoRun | DoFlush | DoFinish | Other
  datatype Return = RunOk | FlushOk | FinishOk | StreamDone | SequenceError | ParamError

  // ----- facts about blocks under construction

  ghost function AsBlock(s: seq<int>): (b: seq<byte>)
    requires AllBytes(s)
    ensures b == s
  {
    s
  }

  /** The flags of the bytes that occur. */
  ghost predicate Flags(inUse: seq<bool>, s: seq<int>)
  {
    |inUse| == 256 && forall c :: 0 <= c < 256 ==> (inUse[c] <==> c in s)
  }

  lemma FlagsRun(inUse: seq<bool>, s: seq<int>, r: Run)
    requires Flags(inUse, s) && GoodRun(r)
    ensures var once := inUse[r.ch := true];
            Flags(if r.len < 4 then once else once[r.len - 4 := true], s + PutRun(r))
  {
    var t := PutRun(r);
    forall c | 0 <= c < 256 ensures c in s + t <==> c in s || c in t {}
    assert t[0] == r.ch;
    if r.len >= 4 {
      assert t[4] == r.len - 4;
      assert forall c :: c in t ==> c == r.ch || c == r.len - 4;
    } else {
      assert forall c :: c in t ==> c == r.ch;
    }
  }

  lemma {:induction false} CrcRun(s: seq<int>, ch: int, n: nat)
    requires n >= 1
    ensures Crc(s + Repeat(ch, n)) == BlockCrc.Update(Crc(s + Repeat(ch, n - 1)), AsWord(ch))
  {
    assert s + Repeat(ch, n) == s + Repeat(ch, n - 1) + [ch];
    CrcSnoc(s + Repeat(ch, n - 1), ch);
  }

  lemma HoldsMore(e: seq<int>, e': seq<int>, s: seq<int>, v: int)
    requires AllBytes(s) && F.Holds(e, AsBlock(s)) && |s| < 4 * |e| && |e'| == |e| && 0 <= v < 256
    requires ByteAt(e', |s|) == v
    requires forall m :: 0 <= m < 4 * |e| && m != |s| ==> ByteAt(e', m) == ByteAt(e, m)
    ensures AllBytes(s + [v]) && F.Holds(e', AsBlock(s + [v]))
  {
    hide ByteAt;
    var t := AsBlock(s + [v]);
    forall i | 0 <= i < |t| ensures ByteAt(e', i) == t[i] {
      if i < |s| { assert ByteAt(e, i) == s[i]; }
    }
  }

  /** The run that is being counted. */
  ghost function PendingRun(inCh: int, inLen: nat): seq<int>
  {
    Repeat(inCh, inLen)
  }

  ghost predicate Pending(inCh: int, inLen: nat, runs: seq<Run>)
  {
    || (inCh == 256 && inLen == 0 && runs == [])
    || (0 <= inCh < 256 && 1 <= inLen <= 255 && (runs != [] ==> MayFollow(runs[|runs| - 1], inCh)))
  }

  /** The block in the buffer: its runs, its flags and its checksum. */
  ghost predicate Builds(e: seq<int>, nblock: nat, runs: seq<Run>, inUse: seq<bool>, crc: word)
  {
    && Chain(runs) && AllBytes(PutRuns(runs)) && nblock == |PutRuns(runs)| && AllWords(e)
    && F.Holds(e, AsBlock(PutRuns(runs))) && Flags(inUse, PutRuns(runs)) && crc == Crc(Expand(runs))
  }

  method NewWords(n: nat) returns (a: array<int>)
    ensures fresh(a) && a.Length == n && AllWords(a[..])
  {
    a := new int[n](_ => 0);
  }

  lemma BuildsNothing(e: seq<int>, inUse: seq<bool>)
    requires AllWords(e) && |inUse| == 256 && forall c :: 0 <= c < 256 ==> !inUse[c]
    ensures Builds(e, 0, [], inUse, 0xffff_ffff)
  {
  }

  /** One more run in the block. */
  lemma BuildsMore(e: seq<int>, runs: seq<Run>, inUse: seq<bool>, r: Run, e': seq<int>, inUse': seq<bool>, crc: word)
    requires Chain(runs) && AllBytes(PutRuns(runs)) && Flags(inUse, PutRuns(runs)) && AllWords(e')
    requires GoodRun(r) && (runs != [] ==> MayFollow(runs[|runs| - 1], r.ch))
    requires inUse' == (var once := inUse[r.ch := true]; if r.len < 4 then once else once[r.len - 4 := true])
    requires AllBytes(PutRuns(runs) + PutRun(r)) && F.Holds(e', AsBlock(PutRuns(runs) + PutRun(r)))
    requires crc == Crc(Expand(runs) + Repeat(r.ch, r.len))
    ensures Builds(e', |PutRuns(runs) + PutRun(r)|, runs + [r], inUse', crc)
  {
    hide F.Holds, PutRun, Crc, Repeat, MayFollow;
    FlagsRun(inUse, PutRuns(runs), r);
    PutRunsSnoc(runs, r);
    ChainSnoc(runs, r);
  }

  /** Every block has the tables and selectors that its symbols call for. */
  ghost predicate AllChosen(items: seq<Item>)
  {
    forall i :: 0 <= i < |items| ==> BlockCodec.WellChosen(items[i].b, items[i].sent)
  }

  ghost predicate Wrote(bits: seq<bool>, begun: bool, items: seq<Item>, size: nat)
  {
    GoodItems(items, size) && AllChosen(items) && bits == (if begun then StreamHeader(size) else []) + ItemsBits(items, size)
  }

  /** The whole stream, padded to a byte. */
  ghost predicate Ends(z: seq<int>, items: seq<Item>, size: nat)
  {
    GoodItems(items, size) && AllChosen(items) && exists pad: nat :: pad < 8 && Flatten(z) == StreamBits(items, size) + Zeros(pad)
  }

  lemma WroteNothing(size: nat)
    ensures Wrote([], false, [], size)
  {
  }

  // ----- facts about the input consumed

  /** The run is over and the byte starts another. */
  lemma NewRun(consumed: seq<int>, data: seq<int>, runs: seq<Run>, r: Run, ch: int)
    requires consumed == data + Expand(runs) + Repeat(r.ch, r.len)
    ensures consumed + [ch] == data + Expand(runs + [r]) + Repeat(ch, 1)
  {
    hide Expand;
    PutRunsSnoc(runs, r);
    assert data + Expand(runs) + Repeat(r.ch, r.len) == data + (Expand(runs) + Repeat(r.ch, r.len));
    assert Repeat(ch, 1) == [ch];
  }

  lemma FirstRun(consumed: seq<int>, data: seq<int>, inCh: int, ch: int)
    requires consumed == data + [] + Repeat(inCh, 0)
    ensures consumed + [ch] == data + [] + Repeat(ch, 1)
  {
    assert Repeat(ch, 1) == [ch];
  }

  lemma LongerRun(consumed: seq<int>, data: seq<int>, runs: seq<Run>, r: Run)
    requires consumed == data + Expand(runs) + Repeat(r.ch, r.len)
    ensures consumed + [r.ch] == data + Expand(runs) + Repeat(r.ch, r.len + 1)
  {
  }

  // ----- facts about the stream under construction

  lemma MagicBytes()
    ensures AllBytes(BLOCK_MAGIC) && AllBytes(END_MAGIC) && AllBytes(STREAM_MAGIC)
  {
  }

  lemma {:induction false} MagicLength(bs: seq<int>)
    requires AllBytes(bs)
    ensures |PutMagic(bs)| == 8 * |bs|
    decreases |bs|
  {
    hide ToBits;
    if bs != [] { MagicLength(bs[1..]); }
  }

  lemma HeaderLength(size: nat)
    ensures |StreamHeader(size)| == 32
  {
    hide ToBits;
    MagicBytes();
    MagicLength(STREAM_MAGIC);
  }

  /** One more block. */
  lemma WroteItem(bits: seq<bool>, begun: bool, items: seq<Item>, size: nat, x: Item)
    requires Wrote(bits, begun, items, size) && (!begun ==> items == []) && GoodItem(x, size)
    requires BlockCodec.WellChosen(x.b, x.sent)
    ensures Wrote((bits + Opening(begun, size)) + ItemBits(x), true, items + [x], size)
    ensures Combined(items + [x]) == Combine(Combined(items), ItemCrc(x)) && Data(items + [x]) == Data(items) + x.data
  {
    hide BlockCodec.GoodChoices, BlockCodec.WellChosen, Combine, Decode, ItemBits, ItemCrc, StreamHeader;
    assert (items + [x])[..|items|] == items;
    if begun {
      assert bits + Opening(begun, size) == bits;
      Assoc(StreamHeader(size), ItemsBits(items, size), ItemBits(x));
    } else {
      assert bits == [] && (bits + StreamHeader(size)) + ItemBits(x) == StreamHeader(size) + ([] + ItemBits(x));
    }
  }

  /** The stream header, before the first block. */
  ghost function Opening(begun: bool, size: nat): seq<bool>
  {
    if begun then [] else StreamHeader(size)
  }

  lemma WroteOpening(bits: seq<bool>, begun: bool, items: seq<Item>, size: nat)
    requires Wrote(bits, begun, items, size) && (!begun ==> items == [])
    ensures Wrote(bits + Opening(begun, size), true, items, size)
  {
    hide BlockCodec.GoodChoices, AllChosen, GoodItems, ItemBits, StreamHeader;
    if begun {
      assert bits + [] == bits;
    } else {
      assert bits + StreamHeader(size) == StreamHeader(size) + [];
    }
  }

  lemma WroteTrailer(bits: seq<bool>, items: seq<Item>, size: nat, z: seq<int>, pad: nat)
    requires Wrote(bits, true, items, size) && pad < 8
    requires Flatten(z) == (bits + TrailerBits(Combined(items))) + Zeros(pad)
    ensures Ends(z, items, size)
  {
    Assoc(StreamHeader(size), ItemsBits(items, size), TrailerBits(Combined(items)));
  }

  class EState {
    const size: nat
    const nblockMAX: int
    const workFactor: nat
    const arr1: array<int>
    const arr2: array<int>
    const bh: array<bool>
    const w: BitWriter
    var mode: Mode
    var state: Phase
    var availInExpect: nat
    var inCh: int
    var inLen: nat
    var nblock: nat
    var inUse: seq<bool>
    var blockCRC: word
    var combinedCRC: word
    var blockNo: nat
    var outPos: nat
    // the stream: what this call may still read, the room it has, and all that has been written
    var input: seq<int>
    var availOut: nat
    var output: seq<int>
    ghost var runs: seq<Run>
    ghost var items: seq<Item>
    ghost var consumed: seq<int>
    ghost var ended: bool
    ghost var done: seq<int>

    /** BZ2_bzCompressInit, for a block size from 1 to 9. */
    constructor (blockSize100k: nat, workFactor: nat)
      requires 1 <= blockSize100k <= 9 && workFactor <= 250
      ensures Valid() && Resting() && mode.Running? && state.Input? && size == blockSize100k
      ensures consumed == [] && output == [] && !ended
      ensures fresh(this) && fresh(arr1) && fresh(arr2) && fresh(bh) && fresh(w)
    {
      hide AllWords, BitWriter.Valid, BitWriter.Written, Builds, Combine, Ends, ItemCrc, MayFollow, ToBits, Wrote;
      size, nblockMAX := blockSize100k, 100000 * blockSize100k - 19;
      this.workFactor := if workFactor == 0 then 30 else workFactor;
      var a1 := NewWords(100000 * blockSize100k);
      var a2 := NewWords(100000 * blockSize100k + N_OVERSHOOT);
      arr1, arr2 := a1, a2;
      bh := new bool[32 * FTAB_WORDS];
      w := new BitWriter();
      mode, state, availInExpect, combinedCRC, outPos := Running, Phase.Input, 0, 0, 0;
      inCh, inLen := 256, 0;
      nblock, inUse, blockCRC, blockNo := 0, seq(256, _ => false), 0xffff_ffff, 1;
      input, availOut, output := [], 0, [];
      runs, items, consumed, ended, done := [], [], [], false, [];
      new;
      BuildsNothing(arr2[..], inUse);
      WroteNothing(size);
      assert Valid() by {
      }
    }

    // ----- what every step keeps

    /** The buffers are as BZ2_bzCompressInit made them. */
    ghost predicate Shape()
      reads this`input, arr1, arr2
    {
      && 1 <= size <= 9 && nblockMAX == 100000 * size - 19 && arr1 != arr2
      && arr1.Length == 100000 * size && arr2.Length == 100000 * size + N_OVERSHOOT
      && bh.Length == 32 * FTAB_WORDS
      && AllWords(arr1[..]) && AllWords(arr2[..]) && AllBytes(input)
    }

    /** The block under construction and the run being counted. */
    ghost predicate Building()
      reads this`inCh, this`inLen, this`runs, this`state, this`nblock, this`inUse, this`blockCRC, arr2
    {
      Pending(inCh, inLen, runs)
      && (state.Input? ==> Builds(arr2[..], nblock, runs, inUse, blockCRC) && nblock <= nblockMAX + 4)
      && (state.Output? ==> runs == [])
    }

    /** The stream header is written. */
    ghost predicate Begun()
      reads this`blockNo, this`state
    {
      blockNo > 1 || state.Output?
    }

    /** What has been compressed is written: the header, then block after block, then perhaps the trailer. done is
        what earlier blocks put out; zbits holds what the last one did. */
    ghost predicate Sent()
      reads this`combinedCRC, this`items, this`blockNo, this`state, this`mode, this`ended, this`done, w
    {
      && combinedCRC == Combined(items) && blockNo >= 1 && (!Begun() ==> items == [])
      && (if ended then Ends(done + w.zbits, items, size)
          else w.Valid() && Wrote(Flatten(done) + w.Written(), Begun(), items, size))
      && (ended ==> state.Output? && (mode.Finishing? || mode.Idle?))
    }

    /** What has been handed out is what was put out, so far. */
    ghost predicate Handed()
      reads this`outPos, this`output, this`done, this`state, w
    {
      outPos <= |w.zbits| && output == done + w.zbits[..outPos] && (state.Input? ==> w.zbits == [])
    }

    /** Nothing is lost: the input consumed is the data of the blocks sent, then of the block under construction, then
        the run being counted. */
    ghost predicate Accounts()
      reads this`consumed, this`items, this`runs, this`inCh, this`inLen
    {
      consumed == Data(items) + Expand(runs) + PendingRun(inCh, inLen)
    }

    /** Between calls a block that takes input has room, and a run is being counted while a full block goes out. */
    ghost predicate Held()
      reads this`state, this`nblock, this`ended, this`mode, this`inCh, this`inLen, this`availInExpect
    {
      && (state.Input? ==> nblock < nblockMAX && !ended)
      && (state.Output? && !ended && !mode.Flushing? ==> inCh < 256 && inLen > 0)
      && (ended ==> availInExpect == 0 && inCh == 256 && inLen == 0)
    }

    ghost predicate Valid()
      reads this, arr1, arr2, w
    {
      Shape() && Building() && Sent() && Handed() && Accounts() && Held()
    }

    /** Between calls: a stream that is all compressed but not yet over has bytes to hand out. */
    ghost predicate Resting()
      reads this`mode, this`ended, this`outPos, w
    {
      mode.Finishing? && ended ==> outPos < |w.zbits|
    }

    // ----- filling the block

    method PutByte(ch: int, ghost s: seq<int>)
      requires AllWords(arr2[..]) && nblock < 4 * arr2.Length && 0 <= ch < 256
      requires AllBytes(s) && nblock == |s| && F.Holds(arr2[..], AsBlock(s))
      modifies this`nblock, arr2
      ensures AllWords(arr2[..]) && nblock == old(nblock) + 1 && AllBytes(s + [ch]) && F.Holds(arr2[..], AsBlock(s + [ch]))
    {
      hide F.Holds;
      ghost var e := arr2[..];
      F.StoreByte(arr2, nblock, ch);
      HoldsMore(e, arr2[..], s, ch);
      nblock := nblock + 1;
    }

    method PutBytes(ch: int, count: nat, ghost s: seq<int>)
      requires AllWords(arr2[..]) && nblock + count <= 4 * arr2.Length && 0 <= ch < 256
      requires AllBytes(s) && nblock == |s| && F.Holds(arr2[..], AsBlock(s))
      modifies this`nblock, arr2
      ensures AllWords(arr2[..]) && nblock == old(nblock) + count
      ensures AllBytes(s + Repeat(ch, count)) && F.Holds(arr2[..], AsBlock(s + Repeat(ch, count)))
    {
      hide F.Holds, AllWords;
      var i := 0;
      assert s + Repeat(ch, 0) == s;
      while i < count
        invariant 0 <= i <= count && AllWords(arr2[..]) && nblock == old(nblock) + i
        invariant AllBytes(s + Repeat(ch, i)) && F.Holds(arr2[..], AsBlock(s + Repeat(ch, i)))
      {
        PutByte(ch, s + Repeat(ch, i));
        assert s + Repeat(ch, i) + [ch] == s + Repeat(ch, i + 1);
        i := i + 1;
      }
    }

    method CountRun(ghost data: seq<int>)
      requires 0 <= inCh < 256 && blockCRC == Crc(data)
      modifies this`blockCRC
      ensures blockCRC == Crc(data + Repeat(inCh, inLen))
    {
      hide BlockCrc.Update, Crc;
      var i := 0;
      assert data + Repeat(inCh, 0) == data;
      while i < inLen
        invariant 0 <= i <= inLen && blockCRC == Crc(data + Repeat(inCh, i))
      {
        CrcRun(data, inCh, i + 1);
        blockCRC := BlockCrc.Update(blockCRC, AsWord(inCh));
        i := i + 1;
      }
    }

    method PutPair(ghost s: seq<int>)
      requires AllWords(arr2[..]) && nblock + 5 <= 4 * arr2.Length && GoodRun(Run(inCh, inLen))
      requires AllBytes(s) && nblock == |s| && F.Holds(arr2[..], AsBlock(s)) && |inUse| == 256
      modifies this`nblock, this`inUse, arr2
      ensures AllWords(arr2[..]) && nblock <= old(nblock) + 5 && nblock == |s + PutRun(Run(inCh, inLen))|
      ensures AllBytes(s + PutRun(Run(inCh, inLen))) && F.Holds(arr2[..], AsBlock(s + PutRun(Run(inCh, inLen))))
      ensures inUse == (var once := old(inUse)[inCh := true]; if inLen < 4 then once else once[inLen - 4 := true])
    {
      hide F.Holds, AllWords, Repeat;
      var ch := inCh;
      ghost var e := arr2[..];
      inUse := inUse[inCh := true];
      assert arr2[..] == e;
      if inLen < 4 {
        PutBytes(ch, inLen, s);
      } else {
        inUse := inUse[inLen - 4 := true];
        assert arr2[..] == e;
        PutBytes(ch, 4, s);
        PutByte(inLen - 4, s + Repeat(ch, 4));
        assert s + Repeat(ch, 4) + [inLen - 4] == s + PutRun(Run(inCh, inLen));
      }
    }

    /** add_pair_to_block. */
    method AddPairToBlock()
      requires Builds(arr2[..], nblock, runs, inUse, blockCRC) && nblock + 5 <= 4 * arr2.Length
      requires GoodRun(Run(inCh, inLen)) && Pending(inCh, inLen, runs)
      modifies this`nblock, this`inUse, this`blockCRC, this`runs, arr2
      ensures runs == old(runs) + [Run(inCh, inLen)] && Builds(arr2[..], nblock, runs, inUse, blockCRC)
      ensures nblock <= old(nblock) + 5
    {
      hide AllBytes, AllWords, AsBlock, Chain, Crc, Expand, F.Holds, MayFollow, PutRun, PutRuns, Repeat;
      ghost var e, s, r, flags := arr2[..], PutRuns(runs), Run(inCh, inLen), inUse;
      CountRun(Expand(runs));
      assert arr2[..] == e;
      PutPair(s);
      BuildsMore(e, runs, flags, r, arr2[..], inUse, blockCRC);
      runs := runs + [r];
    }

    /** ADD_CHAR_TO_BLOCK. */
    method AddChar(zchh: int)
      requires Shape() && state.Input? && Building() && Accounts() && nblock < nblockMAX && 0 <= zchh < 256
      modifies this`nblock, this`inUse, this`blockCRC, this`runs, this`inCh, this`inLen, this`consumed, arr2
      ensures Shape() && Building() && Accounts() && consumed == old(consumed) + [zchh] && inCh < 256
    {
      hide Builds, Data, MayFollow, Repeat, Shape;
      if zchh != inCh && inLen == 1 {
        EndRun(zchh, true);
        inCh := zchh;
      } else if zchh != inCh || inLen == 255 {
        if inCh < 256 {
          EndRun(zchh, false);
        } else {
          FirstRun(consumed, Data(items), inCh, zchh);
        }
        inCh := zchh;
        inLen := 1;
      } else {
        LongerRun(consumed, Data(items), runs, Run(inCh, inLen));
        inLen := inLen + 1;
      }
      consumed := consumed + [zchh];
      assert Accounts();
    }

    /** The run being counted goes into the block, as another byte is here. */
    method EndRun(zchh: int, single: bool)
      requires Shape() && state.Input? && Building() && Accounts() && nblock < nblockMAX && inCh < 256
      requires (zchh != inCh || inLen == 255) && (single ==> inLen == 1)
      modifies this`nblock, this`inUse, this`blockCRC, this`runs, arr2
      ensures Shape() && Builds(arr2[..], nblock, runs, inUse, blockCRC) && nblock <= nblockMAX + 4
      ensures runs != [] && MayFollow(runs[|runs| - 1], zchh)
      ensures consumed + [zchh] == Data(items) + Expand(runs) + Repeat(zchh, 1)
    {
      hide AllBytes, AllWords, AsBlock, Chain, Crc, Data, Expand, F.Holds, Flags, PutRuns, Repeat;
      ghost var r, xs := Run(inCh, inLen), runs;
      assert GoodRun(r);
      NewRun(consumed, Data(items), xs, r, zchh);
      if single { AddOne(); } else { AddPairToBlock(); }
      assert AllWords(arr2[..]);
      assert MayFollow(r, zchh);
    }

    /** A run of one byte, without a detour. */
    method AddOne()
      requires Builds(arr2[..], nblock, runs, inUse, blockCRC) && nblock + 5 <= 4 * arr2.Length
      requires inLen == 1 && Pending(inCh, inLen, runs)
      modifies this`nblock, this`inUse, this`blockCRC, this`runs, arr2
      ensures runs == old(runs) + [Run(inCh, inLen)] && Builds(arr2[..], nblock, runs, inUse, blockCRC)
      ensures nblock == old(nblock) + 1
    {
      hide AllBytes, AllWords, AsBlock, AsWord, BlockCrc.Update, Chain, Crc, Expand, F.Holds, MayFollow, PutRuns,
        Repeat;
      ghost var e, s, r, flags, data := arr2[..], PutRuns(runs), Run(inCh, inLen), inUse, Expand(runs);
      var ch := inCh;
      CrcRun(data, ch, 1);
      assert data + Repeat(ch, 0) == data;
      blockCRC := BlockCrc.Update(blockCRC, AsWord(ch));
      inUse := inUse[inCh := true];
      assert arr2[..] == e;
      PutByte(ch, s);
      assert s + [ch] == s + PutRun(r);
      BuildsMore(e, runs, flags, r, arr2[..], inUse, blockCRC);
      runs := runs + [r];
    }

    /** flush_RL, just before the block is sent. */
    method FlushRL()
      requires Shape() && state.Input? && Building() && Accounts()
      modifies this`nblock, this`inUse, this`blockCRC, this`runs, this`inCh, this`inLen, arr2
      ensures Shape() && Builds(arr2[..], nblock, runs, inUse, blockCRC) && Accounts() && nblock <= nblockMAX + 9
      ensures inCh == 256 && inLen == 0
    {
      hide AllBytes, AllWords, AsBlock, Chain, Crc, Data, Expand, F.Holds, Flags, MayFollow, PutRun, PutRuns, Repeat;
      ghost var xs, data := runs, Data(items);
      if inCh < 256 {
        assert GoodRun(Run(inCh, inLen));
        ghost var r := Run(inCh, inLen);
        AddPairToBlock();
        PutRunsSnoc(xs, r);
        Assoc(data, Expand(xs), Repeat(inCh, inLen));
      }
      assert AllWords(arr2[..]);
      inCh := 256;
      inLen := 0;
      assert data + Expand(runs) + Repeat(256, 0) == data + Expand(runs);
    }

    // ----- sending the block

    method PutBlock(ghost x: seq<byte>) returns (ghost choices: BlockCodec.Sent)
      requires Shape() && w.Valid() && 0 < nblock == |x| <= nblockMAX + 9
      requires F.Holds(arr2[..], x) && Flags(inUse, x)
      modifies arr1, arr2, bh, w
      ensures Shape() && w.Valid() && BlockCodec.GoodChoices(x, choices) && BlockCodec.WellChosen(x, choices)
      ensures w.Written() == old(w.Written()) + (PutMagic(BLOCK_MAGIC) + BlockCodec.BlockBits(x, Number(blockCRC), choices))
    {
      hide AllBytes, AllWords, BitWriter.Valid, BitWriter.Written, BlockCodec.BlockBits, BlockCodec.GoodChoices,
        BlockCodec.InUse, BlockCodec.WellChosen, F.Holds, Number, PutMagic, Valid;
      ghost var before := w.Written();
      MagicBytes();
      E.PutBytes(w, BLOCK_MAGIC);
      assert inUse == BlockCodec.InUse(x);
      choices := E.CompressBlock(w, arr1, arr2, bh, nblock, inUse, Number(blockCRC), workFactor, x);
      Assoc(before, PutMagic(BLOCK_MAGIC), BlockCodec.BlockBits(x, Number(blockCRC), choices));
    }

    /** What compressing the block does to the bits put out. */
    ghost predicate Compressed(last: bool)
      reads this`combinedCRC, this`items, this`done, w
    {
      && combinedCRC == Combined(items)
      && if last then Ends(done + w.zbits, items, size)
         else w.Valid() && Wrote(Flatten(done) + w.Written(), true, items, size)
    }

    ghost predicate AllFull(was: seq<Item>, now: seq<Item>)
    {
      was <= now && forall i :: |was| <= i < |now| ==> |now[i].b| >= nblockMAX
    }

    /** The blocks sent since: each is full, but for the last one when a flush or the end was asked for. */
    ghost predicate Grown(was: seq<Item>, rest: bool)
      reads this`items
    {
      AllFull(was, items) || (rest && items != [] && AllFull(was, items[..|items| - 1]))
    }

    lemma GrownNot()
      ensures Grown(items, false) && Grown(items, true)
    {
    }

    lemma GrownOn(was: seq<Item>, mid: seq<Item>, rest: bool)
      requires AllFull(was, mid) && Grown(mid, rest)
      ensures Grown(was, rest)
    {
    }

    /** BZ2_compressBlock. */
    method CompressBlock(last: bool)
      requires Shape() && state.Input? && Builds(arr2[..], nblock, runs, inUse, blockCRC) && nblock <= nblockMAX + 9
      requires Sent() && !ended && w.zbits == []
      modifies this`blockCRC, this`combinedCRC, this`runs, this`items, arr1, arr2, bh, w
      ensures Shape() && runs == [] && Data(items) == old(Data(items) + Expand(runs)) && Compressed(last)
      ensures Grown(old(items), nblock < nblockMAX) && |items| == |old(items)| + if nblock > 0 then 1 else 0
      ensures (last ==> w.zbits != []) && nblock + |w.zbits| <= 4 * arr2.Length
    {
      hide AllBytes, AllWords, AsBlock, BitWriter.Valid, BitWriter.Written, BlockCodec.BlockBits,
        BlockCodec.GoodChoices, BlockCodec.WellChosen, Chain, Combine, Combined, Crc, Data, Decode, Ends, Expand,
        F.Holds, Finalised, Flags, Flatten, Number, PutMagic, PutRuns, StreamHeader, Valid, Wrote;
      ghost var z, before, begun, xs := Flatten(done), w.Written(), blockNo > 1, items;
      ghost var data, room := Expand(runs), 8 * (4 * (100000 * size + 34) - nblock);
      w.WrittenLength();
      HeaderLength(size);
      assert |before| <= 32;
      if nblock > 0 {
        blockCRC := Finalised(blockCRC);
        combinedCRC := Combine(combinedCRC, blockCRC);
      }
      assert Shape();
      if blockNo == 1 {
        PutHeader();
      } else {
        assert before + Opening(begun, size) == before;
      }
      Assoc(z, before, Opening(begun, size));
      if nblock > 0 {
        BlockReady(arr2[..], nblock, runs, inUse, old(blockCRC), size);
        ghost var b := AsBlock(PutRuns(runs));
        ghost var choices := PutBlock(b);
        ghost var x := Item(b, data, choices);
        assert GoodItem(x, size);
        assert ItemCrc(x) == blockCRC;
        assert ItemBits(x) == PutMagic(BLOCK_MAGIC) + BlockCodec.BlockBits(b, Number(blockCRC), choices);
        WroteItem(z + before, begun, xs, size, x);
        Assoc(z, before + Opening(begun, size), ItemBits(x));
        MagicBytes();
        MagicLength(BLOCK_MAGIC);
        BlockFits(b, Number(blockCRC), choices, size);
        items := items + [x];
      } else {
        EmptyBlock(arr2[..], runs, inUse, blockCRC);
        assert Data(items) + Expand(runs) == Data(items);
        WroteOpening(z + before, begun, xs, size);
      }
      runs := [];
      assert Wrote(z + w.Written(), true, items, size);
      w.WrittenLength();
      assert |w.Written()| + 87 <= room;
      if last { Finish(); }
    }

    method PutHeader()
      requires 1 <= size <= 9 && w.Valid()
      modifies w
      ensures w.Valid() && w.Written() == old(w.Written()) + StreamHeader(size)
    {
      hide AllBytes, BitWriter.Valid, BitWriter.Written, Pow2, PutMagic, ToBits, Valid;
      ghost var before := w.Written();
      MagicBytes();
      Pow2Values();
      E.PutBytes(w, STREAM_MAGIC);
      w.W(8, SIZE_BASE + size);
      Assoc(before, PutMagic(STREAM_MAGIC), ToBits(8, SIZE_BASE + size));
    }

    /** The trailer, padded to a byte. */
    method Finish()
      requires w.Valid() && Wrote(Flatten(done) + w.Written(), true, items, size) && combinedCRC == Combined(items)
      modifies w
      ensures Ends(done + w.zbits, items, size) && w.zbits != [] && 8 * |w.zbits| <= |old(w.Written())| + 87
    {
      hide AllBytes, BitWriter.Valid, BitWriter.Written, Combined, Ends, Flatten, Number, PutMagic, ToBits, Valid,
        Wrote, Zeros;
      ghost var z, before := Flatten(done), w.Written();
      MagicBytes();
      E.PutBytes(w, END_MAGIC);
      E.PutUInt32(w, Number(combinedCRC));
      Assoc(before, PutMagic(END_MAGIC), ToBits(32, Number(combinedCRC)));
      Assoc(z, before, TrailerBits(combinedCRC));
      TrailerThere(combinedCRC);
      assert Flatten([]) == [];
      ghost var pad := w.FinishWrite();
      FlattenAppend(done, w.zbits);
      Assoc(z, before + TrailerBits(combinedCRC), Zeros(pad));
      WroteTrailer(z + before, items, size, done + w.zbits, pad);
    }

    lemma TrailerThere(c: word)
      ensures |TrailerBits(c)| == 80
    {
      hide ToBits;
      MagicBytes();
      MagicLength(END_MAGIC);
    }

    // ----- the calls

    predicate IsEmptyRL()
      reads this`inCh, this`inLen
    {
      !(inCh < 256 && inLen > 0)
    }

    /** copy_input_until_stop. */
    method CopyInput() returns (progress: bool)
      requires Shape() && state.Input? && Building() && Accounts() && (!mode.Running? ==> availInExpect == |input|)
      modifies this`nblock, this`inUse, this`blockCRC, this`runs, this`inCh, this`inLen, this`consumed, this`input,
               this`availInExpect, arr2
      ensures Shape() && Building() && Accounts() && (!mode.Running? ==> availInExpect == |input|)
      ensures consumed + input == old(consumed + input) && |input| <= |old(input)|
      ensures nblock >= nblockMAX || input == []
      ensures progress <==> |input| < |old(input)|
      ensures |input| < |old(input)| ==> inCh < 256
      ensures |input| == |old(input)| ==> inCh == old(inCh) && inLen == old(inLen) && nblock == old(nblock)
      ensures |input| == |old(input)| ==> availInExpect == old(availInExpect)
    {
      hide Accounts, AllWords, Building;
      progress := false;
      while true
        invariant Shape() && Building() && Accounts() && (!mode.Running? ==> availInExpect == |input|)
        invariant consumed + input == old(consumed + input) && |input| <= |old(input)|
        invariant progress <==> |input| < |old(input)|
        invariant |input| < |old(input)| ==> inCh < 256
        invariant |input| == |old(input)| ==> inCh == old(inCh) && inLen == old(inLen) && nblock == old(nblock)
        invariant |input| == |old(input)| ==> availInExpect == old(availInExpect)
        decreases |input|
      {
        if nblock >= nblockMAX { break; }
        if |input| == 0 { break; }
        if !mode.Running? && availInExpect == 0 { break; }
        progress := true;
        ghost var c, all := consumed, input;
        assert 0 <= input[0] < 256;
        AddChar(input[0]);
        InputTail(all);
        input := input[1..];
        assert consumed + input == c + all;
        if !mode.Running? { availInExpect := availInExpect - 1; }
        assert Shape();
      }
    }

    /** copy_output_until_stop. */
    method CopyOutput() returns (progress: bool)
      requires Handed()
      modifies this`outPos, this`output, this`availOut
      ensures Handed() && old(output) <= output && |output| + availOut == |old(output)| + old(availOut)
      ensures outPos >= |w.zbits| || availOut == 0
      ensures (progress <==> availOut < old(availOut)) && outPos + availOut == old(outPos + availOut)
    {
      progress := false;
      while true
        invariant Handed() && old(output) <= output && |output| + availOut == |old(output)| + old(availOut)
        invariant (progress <==> availOut < old(availOut)) && outPos + availOut == old(outPos + availOut)
        decreases availOut
      {
        if availOut == 0 { break; }
        if outPos >= |w.zbits| { break; }
        progress := true;
        assert w.zbits[..outPos + 1] == w.zbits[..outPos] + [w.zbits[outPos]];
        output := output + [w.zbits[outPos]];
        outPos := outPos + 1;
        availOut := availOut - 1;
      }
    }

    /** numZ and state_out_pos start over. */
    method RestartOutput()
      requires w.Valid() && Handed() && outPos >= |w.zbits| && Wrote(Flatten(done) + w.Written(), true, items, size)
      modifies this`outPos, this`done, w
      ensures w.Valid() && Wrote(Flatten(done) + w.Written(), true, items, size)
      ensures w.zbits == [] && outPos == 0 && output == done
    {
      hide BitWriter.Valid, BitWriter.Written, Flatten, Valid, Wrote;
      ghost var z, d := w.zbits, done;
      assert w.zbits[..outPos] == z;
      FlattenAppend(d, z);
      w.ResetZ();
      Assoc(Flatten(d), Flatten(z), w.Written());
      outPos := 0;
      done := output;
    }

    /** prepare_new_block, and back to taking input. */
    method NextBlock()
      requires Shape() && state.Output? && Building() && Sent() && Handed() && !ended && outPos >= |w.zbits|
      modifies this`nblock, this`inUse, this`blockCRC, this`blockNo, this`outPos, this`done, this`state, w
      ensures Shape() && state.Input? && Building() && Sent() && Handed() && nblock == 0
    {
      hide AllBytes, AllWords, BitWriter.Valid, BitWriter.Written, Builds, Combined, Ends, Flatten, Pending, Valid,
        Wrote;
      RestartOutput();
      nblock := 0;
      blockCRC := 0xffff_ffff;
      inUse := seq(256, _ => false);
      blockNo := blockNo + 1;
      state := Phase.Input;
      assert AllWords(arr2[..]) && nblock <= nblockMAX + 4;
      BuildsNothing(arr2[..], inUse);
      assert Handed() by { assert done + [] == done; }
    }

    lemma Untouched()
      requires state.Input? && Handed() && Sent()
      ensures w.zbits == [] && outPos == 0 && output == done + [] && blockNo >= 1
    {
    }

    /** The block goes out because it is full. */
    method SendFull()
      requires Shape() && state.Input? && Building() && Sent() && Handed() && Accounts() && !ended && nblock >= nblockMAX
      modifies this`blockCRC, this`combinedCRC, this`runs, this`items, this`state, arr1, arr2, bh, w
      ensures Shape() && state.Output? && Building() && Sent() && Handed() && Accounts() && inCh < 256 && inLen > 0
      ensures Grown(old(items), false)
    {
      hide AllBytes, AllWords, Builds, Compressed, Data, Expand, MayFollow, PendingRun, Sent;
      FullMeansPending(arr2[..], nblock, runs, inUse, blockCRC);
      ghost var data := Data(items) + Expand(runs);
      Untouched();
      CompressBlock(false);
      state := Phase.Output;
      Resent(data, false);
      assert Accounts();
      assert Handed();
    }

    /** The block goes out because a flush or the end was asked for. */
    method SendRest()
      requires Shape() && state.Input? && Building() && Sent() && Handed() && Accounts() && !ended
      requires mode.Flushing? || mode.Finishing?
      modifies this`blockCRC, this`combinedCRC, this`runs, this`items, this`state, this`nblock, this`inUse, this`inCh,
               this`inLen, this`ended, arr1, arr2, bh, w
      ensures Shape() && state.Output? && Building() && Sent() && Handed() && Accounts()
      ensures inCh == 256 && inLen == 0 && ended == mode.Finishing? && Resting() && Grown(old(items), true)
    {
      hide Builds, Compressed, Data, Expand, MayFollow, PendingRun, Sent, Shape;
      Untouched();
      FlushRL();
      ghost var data := Data(items) + Expand(runs);
      CompressBlock(mode.Finishing?);
      state := Phase.Output;
      ended := mode.Finishing?;
      Resent(data, ended);
      assert Accounts();
      assert Handed();
      assert Building();
    }

    /** Sending a block moves its data from the runs to the blocks sent, and nothing else. */
    lemma Resent(data: seq<int>, last: bool)
      requires state.Output? && runs == [] && Data(items) == data && Compressed(last) && ended == last
      requires blockNo >= 1 && (ended ==> mode.Finishing?)
      ensures Sent() && Data(items) + Expand(runs) == data
    {
      hide BitWriter.Valid, BitWriter.Written, Combined, Data, Ends, Flatten, Repeat, Valid, Wrote;
      assert data + [] == data;
    }

    // ----- BZ2_bzCompress

    /** Bytes wait to be handed out, and there is no room. */
    ghost predicate Stuck()
      reads this`state, this`outPos, this`availOut, w
    {
      state.Output? && outPos < |w.zbits| && availOut == 0
    }

    /** Where handle_compress may stop. */
    ghost predicate Stopped()
      reads this, w
    {
      || (state.Output? && outPos < |w.zbits| && availOut == 0)
      || (state.Output? && outPos >= |w.zbits| && mode.Finishing? && ended)
      || (state.Input? && mode.Flushing? && availInExpect == 0 && IsEmptyRL() && nblock == 0)
      || (state.Input? && mode.Running? && input == [])
    }

    lemma WhereStopped()
      requires Valid() && Stopped()
      ensures mode.Running? ==> input == [] || availOut == 0
      ensures mode.Flushing? ==> availOut == 0 || (availInExpect == 0 && IsEmptyRL() && outPos >= |w.zbits|)
    {
      hide Shape, Building, Sent, Accounts;
    }

    /** The output side of a turn: drain the block, and go on to the next unless the call is over. */
    method Drain() returns (progress: bool, stop: bool)
      requires Valid() && state.Output? && !mode.Idle? && (!mode.Running? ==> availInExpect == |input|)
      modifies this`outPos, this`output, this`availOut, this`nblock, this`inUse, this`blockCRC, this`blockNo, this`done,
               this`state, w
      ensures Valid() && (stop ==> Stopped()) && (!stop ==> state.Input? && nblock == 0)
      ensures (progress <==> availOut < old(availOut)) && availOut <= old(availOut)
      ensures stop && mode.Finishing? && old(Resting()) ==> progress || (availOut == 0 && outPos < |w.zbits|)
      ensures stop && mode.Finishing? && !progress && old(Resting()) ==> old(Stuck())
      ensures old(Stuck()) ==> stop && !progress
      ensures !stop ==> !(availInExpect == 0 && IsEmptyRL() && !mode.Running?)
      ensures old(output) <= output && |output| + availOut == |old(output)| + old(availOut)
    {
      hide Accounts, AllBytes, AllWords, Begun, BitWriter.Valid, BitWriter.Written, Builds, Combined, Ends, Flatten,
        Handed, Pending, Wrote;
      assert nblockMAX > 0;
      progress := CopyOutput();
      if outPos < |w.zbits| { return progress, true; }
      if mode.Finishing? && availInExpect == 0 && IsEmptyRL() { return progress, true; }
      assert !ended;
      NextBlock();
      stop := mode.Flushing? && availInExpect == 0 && IsEmptyRL();
      assert stop ==> Pending(inCh, inLen, runs);
    }

    /** The input side of a turn: fill the block, and send it if it is full or wanted. */
    method Fill() returns (progress: bool, stop: bool)
      requires Valid() && state.Input? && !mode.Idle? && (!mode.Running? ==> availInExpect == |input|)
      modifies this`nblock, this`inUse, this`blockCRC, this`combinedCRC, this`runs, this`items, this`inCh, this`inLen,
               this`consumed, this`input, this`availInExpect, this`state, this`ended, arr1, arr2, bh, w
      ensures Valid() && (stop ==> Stopped()) && (!stop ==> state.Output?) && (!mode.Running? ==> availInExpect == |input|)
      ensures (progress <==> |input| < |old(input)|) && (!stop ==> Resting()) && (stop ==> mode.Running? && input == [])
      ensures old(input) != [] ==> progress
      ensures Grown(old(items), !mode.Running? && availInExpect == 0 && IsEmptyRL() && state.Output?)
      ensures consumed + input == old(consumed + input) && |input| <= |old(input)|
      ensures !stop && |input| == |old(input)| ==> availInExpect == old(availInExpect) == 0 && IsEmptyRL() && !mode.Running?
    {
      hide Accounts, AllBytes, AllWords, Building, Handed, Sent;
      assert nblockMAX > 0;
      progress := CopyInput();
      stop := false;
      if !mode.Running? && availInExpect == 0 {
        SendRest();
      } else if nblock >= nblockMAX {
        SendFull();
      } else if |input| == 0 {
        stop := true;
      }
    }

    /** handle_compress. */
    method HandleCompress() returns (progress: bool)
      requires Valid() && Resting() && !mode.Idle? && (!mode.Running? ==> availInExpect == |input|)
      modifies this, arr1, arr2, bh, w
      ensures Valid() && Stopped() && (!mode.Running? ==> availInExpect == |input|) && mode == old(mode)
      ensures consumed + input == old(consumed + input) && |input| <= |old(input)|
      ensures old(output) <= output && |output| + availOut == |old(output)| + old(availOut)
      ensures Grown(old(items), !mode.Running? && availInExpect == 0 && IsEmptyRL())
      ensures progress <==> |input| < |old(input)| || availOut < old(availOut)
      ensures mode.Finishing? && !progress ==> availOut == 0 && outPos < |w.zbits|
      ensures mode.Finishing? ==> (!progress <==> old(availOut) == 0 && (old(input) == [] || old(Stuck())))
    {
      hide AllFull, IsEmptyRL, Resting, Stopped, Valid;
      GrownNot();
      progress := false;
      while true
        invariant Valid() && mode == old(mode) && !mode.Idle? && (!mode.Running? ==> availInExpect == |input|)
        invariant consumed + input == old(consumed + input) && |input| <= |old(input)|
        invariant old(output) <= output && |output| + availOut == |old(output)| + old(availOut)
        invariant Resting() && availOut <= old(availOut)
        invariant Grown(old(items), !mode.Running? && availInExpect == 0 && IsEmptyRL() && state.Output?)
        invariant progress <==> |input| < |old(input)| || availOut < old(availOut)
        invariant old(input) != [] && !progress ==> Stuck() == old(Stuck())
        invariant old(Stuck()) ==> Stuck() && !progress
        decreases |input|,
                  if !mode.Running? && availInExpect == 0 && !(state.Output? && IsEmptyRL()) then 1 else 0
      {
        var p, stop;
        if state.Output? {
          p, stop := Drain();
          progress := progress || p;
          if stop { return; }
        }
        ghost var sent := items;
        p, stop := Fill();
        GrownOn(old(items), sent, !mode.Running? && availInExpect == 0 && IsEmptyRL() && state.Output?);
        progress := progress || p;
        if stop { return; }
      }
    }

    /** Everything this call and earlier ones were given is read, or is still there to be read. */
    twostate predicate Took(newInput: seq<int>, room: nat)
      reads this
    {
      && consumed + input == old(consumed) + newInput && |input| <= |newInput|
      && old(output) <= output && |output| + availOut == |old(output)| + room
    }

    /** Calls that are refused because of what was called before. */
    predicate OutOfOrder(action: Action, count: nat)
      reads this`mode, this`availInExpect
    {
      || mode.Idle?
      || (mode.Flushing? && (!action.DoFlush? || availInExpect != count))
      || (mode.Finishing? && (!action.DoFinish? || availInExpect != count))
    }

    /** BZ2_bzCompress. Input is never lost and never read twice; a flush that is done has put out all of it; and at the
        end of the stream what has been put out is a stream that decodes to exactly the input, however the calls cut
        the input and the output. A call in order goes on until there is no more input or no more room; a call to finish that
        can move nothing is refused all the same. What a caller can see to beforehand: with room it never is. */
    method BzCompress(action: Action, newInput: seq<int>, room: nat) returns (ret: Return)
      requires Valid() && Resting() && AllBytes(newInput)
      modifies this, arr1, arr2, bh, w
      ensures Valid() && Resting() && Took(newInput, room)
      ensures mode.Flushing? || mode.Finishing? ==> ret.SequenceError? || availInExpect == |input|
      ensures ret.StreamDone? ==> input == [] && mode.Idle? && GetStream(Flatten(output)) == Reading(consumed, StreamEnd)
      ensures ret.RunOk? && action.DoFlush? ==> input == [] && runs == [] && inLen == 0 && Data(items) == consumed
      ensures ret.RunOk? ==> mode.Running? && (action.DoRun? || action.DoFlush?)
      ensures ret.RunOk? && action.DoRun? ==> (input == [] || availOut == 0) && (|input| < |newInput| || availOut < room)
      ensures ret.ParamError? ==> input == newInput && output == old(output) && mode.Running?
                                  && (action.Other? || (action.DoRun? && (newInput == [] || room == 0)))
      ensures ret.FlushOk? ==> action.DoFlush? && mode.Flushing? && availOut == 0
      ensures action.DoFlush? && !old(OutOfOrder(action, |newInput|)) ==>
                (ret.RunOk? || ret.FlushOk?) && (ret.RunOk? <==> input == [] && inLen == 0 && outPos >= |w.zbits|)
      ensures ret.FinishOk? ==> action.DoFinish? && mode.Finishing? && availOut == 0
      ensures old(OutOfOrder(action, |newInput|)) ==> ret.SequenceError? && mode == old(mode)
      ensures ret.SequenceError? ==> output == old(output) && |input| == |newInput|
      ensures ret.SequenceError? <==>
                old(OutOfOrder(action, |newInput|))
                || (action.DoFinish? && room == 0 && (newInput == [] || old(state.Output? && outPos < |w.zbits|)))
      ensures ret.StreamDone? ==> action.DoFinish?
      ensures Grown(old(items), !action.DoRun? && input == [] && IsEmptyRL())
    {
      hide Grown, AllBytes, Data, Flatten, GetStream, Stopped, Valid;
      GrownNot();
      SetStream(newInput, room);
      if mode.Idle? { return SequenceError; }
      if mode.Running? {
        if action.DoRun? {
          var progress := HandleCompress();
          WhereStopped();
          if !progress { SameInput(consumed, input, old(consumed), newInput); }
          return if progress then RunOk else ParamError;
        } else if action.DoFlush? {
          SetMode(Flushing);
        } else if action.DoFinish? {
          SetMode(Finishing);
        } else {
          return ParamError;
        }
      }
      if mode.Flushing? {
        if !action.DoFlush? { return SequenceError; }
        if availInExpect != |input| { return SequenceError; }
        ret := FlushCall();
      } else {
        if !action.DoFinish? { return SequenceError; }
        if availInExpect != |input| { return SequenceError; }
        ret := FinishCall();
      }
    }

    lemma SameInput(c: seq<int>, i: seq<int>, c0: seq<int>, i0: seq<int>)
      requires c + i == c0 + i0 && |i| == |i0|
      ensures i == i0
    {
      assert i == (c + i)[|c|..] && i0 == (c0 + i0)[|c0|..];
    }

    method FlushCall() returns (ret: Return)
      requires Valid() && Resting() && mode.Flushing? && availInExpect == |input|
      modifies this, arr1, arr2, bh, w
      ensures Valid() && consumed + input == old(consumed + input) && |input| <= |old(input)|
      ensures old(output) <= output && |output| + availOut == |old(output)| + old(availOut)
      ensures Grown(old(items), availInExpect == 0 && IsEmptyRL())
      ensures availInExpect == |input| && (ret.FlushOk? || ret.RunOk?)
      ensures ret.FlushOk? ==> mode.Flushing? && availOut == 0
      ensures ret.RunOk? <==> input == [] && inLen == 0 && outPos >= |w.zbits|
      ensures Resting()
      ensures ret.RunOk? ==> mode.Running? && input == [] && runs == [] && inLen == 0 && Data(items) == consumed
    {
      hide Accounts, Begun, BitWriter.Valid, BitWriter.Written, Building, Combined, Data, Ends, Flatten, Handed,
        Shape, Wrote;
      var progress := HandleCompress();
      WhereStopped();
      if availInExpect > 0 || !IsEmptyRL() || outPos < |w.zbits| { return FlushOk; }
      EmptyEnd();
      mode := Running;
      assert Valid();
      ret := RunOk;
    }

    method FinishCall() returns (ret: Return)
      requires Valid() && Resting() && mode.Finishing? && availInExpect == |input|
      modifies this, arr1, arr2, bh, w
      ensures Valid() && consumed + input == old(consumed + input) && |input| <= |old(input)|
      ensures old(output) <= output && |output| + availOut == |old(output)| + old(availOut)
      ensures Grown(old(items), availInExpect == 0 && IsEmptyRL())
      ensures availInExpect == |input| && (ret.FinishOk? || ret.SequenceError? || ret.StreamDone?)
      ensures if ret.StreamDone? then mode.Idle? else mode.Finishing? && availOut == 0
      ensures Resting() && (ret.SequenceError? ==> output == old(output) && |input| == |old(input)|)
      ensures ret.SequenceError? <==> old(availOut) == 0 && (old(input) == [] || old(Stuck()))
      ensures ret.StreamDone? ==> input == [] && GetStream(Flatten(output)) == Reading(consumed, StreamEnd)
    {
      hide Accounts, Begun, BitWriter.Valid, BitWriter.Written, Building, Combined, Data, Ends, Flatten, GetStream,
        Handed, Shape, Wrote;
      var progress := HandleCompress();
      if !progress { return SequenceError; }
      if availInExpect > 0 || !IsEmptyRL() || outPos < |w.zbits| { return FinishOk; }
      EmptyEnd();
      TheEnd();
      mode := Idle;
      assert Valid();
      ret := StreamDone;
    }

    /** The caller's next_in, avail_in and avail_out. */
    method SetStream(newInput: seq<int>, room: nat)
      requires Valid() && AllBytes(newInput)
      modifies this`input, this`availOut
      ensures Valid() && input == newInput && availOut == room
    {
      hide Accounts, AllBytes, AllWords, Building, Handed, Held, Sent;
      assert arr1 != arr2 && AllWords(arr1[..]) && AllWords(arr2[..]);
      input, availOut := newInput, room;
      assert Shape();
    }

    method SetMode(m: Mode)
      requires Valid() && mode.Running? && !m.Idle?
      modifies this`mode, this`availInExpect
      ensures Valid() && Resting() && mode == m && availInExpect == |input|
    {
      hide Accounts, Begun, BitWriter.Valid, BitWriter.Written, Building, Combined, Ends, Flatten, Handed, Shape,
        Wrote;
      availInExpect := |input|;
      mode := m;
    }

    /** Nothing is under construction, so everything consumed is in the blocks sent. */
    lemma EmptyEnd()
      requires Valid() && availInExpect == 0 && IsEmptyRL()
      ensures inCh == 256 && inLen == 0 && runs == [] && Data(items) == consumed
    {
      hide Builds, Data, Handed, Held, MayFollow, Sent, Shape;
      assert state.Input? ==> Pending(inCh, inLen, runs);
      assert Data(items) + [] + [] == Data(items);
    }

    lemma TheEnd()
      requires Valid() && ended && outPos >= |w.zbits| && Data(items) == consumed
      ensures GetStream(Flatten(output)) == Reading(consumed, StreamEnd)
    {
      hide Accounts, AllBytes, AllWords, Begun, BitWriter.Valid, BitWriter.Written, Building, Combined, Data,
        Flatten, GetStream, GoodItems, Held, StreamBits, Wrote, Zeros;
      assert w.zbits[..outPos] == w.zbits;
      var pad: nat :| pad < 8 && Flatten(output) == StreamBits(items, size) + Zeros(pad);
      assert 1 <= size <= 9;
      StreamBack(items, size, Zeros(pad));
    }
  }

  lemma FullMeansPending(e: seq<int>, nblock: nat, runs: seq<Run>, inUse: seq<bool>, crc: word)
    requires Builds(e, nblock, runs, inUse, crc) && nblock > 0
    ensures runs != []
  {
  }

  lemma InputTail(s: seq<int>)
    requires AllBytes(s) && s != []
    ensures AllBytes(s[1..])
  {
  }

  lemma BlockReady(e: seq<int>, nblock: nat, runs: seq<Run>, inUse: seq<bool>, crc: word, size: nat)
    requires Builds(e, nblock, runs, inUse, crc) && nblock > 0
    ensures AllBytes(PutRuns(runs)) && |PutRuns(runs)| == nblock
    ensures F.Holds(e, AsBlock(PutRuns(runs))) && Flags(inUse, PutRuns(runs))
    ensures Decode(PutRuns(runs)) == Whole(Expand(runs)) && crc == Crc(Expand(runs))
  {
    DecodeRuns(runs);
  }

  lemma EmptyBlock(e: seq<int>, runs: seq<Run>, inUse: seq<bool>, crc: word)
    requires Builds(e, 0, runs, inUse, crc)
    ensures runs == [] && Expand(runs) == []
  {
  }

  /** A new stream, a call to finish it, no input and no room: the call is in order, and refused. */
  method RefusedForRoom() returns (inOrder: bool, ret: Return)
    ensures inOrder && ret.SequenceError?
  {
    var s := new EState(1, 30);
    inOrder := !s.OutOfOrder(DoFinish, 0);
    ret := s.BzCompress(DoFinish, [], 0);
  }
}
