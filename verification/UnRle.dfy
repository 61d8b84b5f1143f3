/** unRLE_obuf_to_output: the block's bytes, their runs undone, into an output of any size, a call at a time. */
module UnRle {
  import opened Words
  import opened MtfSpec
  import R = RunLength
  import BlockCrc

  /** The checksum of bytes, before it is complemented. */
  function Crc(bytes: seq<int>): word
  {
    if bytes == [] then 0xffff_ffff
    else BlockCrc.Update(Crc(bytes[..|bytes| - 1]), AsWord(bytes[|bytes| - 1]))
  }

  function AsWord(b: int): word
  {
    if 0 <= b < 256 then b as bv32 else 0
  }

  lemma CrcSnoc(bytes: seq<int>, b: int)
    ensures Crc(bytes + [b]) == BlockCrc.Update(Crc(bytes), AsWord(b))
  {
    assert (bytes + [b])[..|bytes|] == bytes;
  }

  /** front is out or about to be; with what the unread bytes stand for it makes up the block. Reading two bytes past
      the end only happens when the block breaks off inside a run; the first of them is then taken for its count. */
  ghost predicate Holds(data: seq<int>, nblock: nat, used: nat, front: seq<int>)
    requires 1 <= used <= nblock + 2 <= |data|
  {
    if used == nblock + 2 then R.Decode(data[..nblock]).Truncated? && R.Decode(data[..nblock + 1]) == R.Whole(front)
    else
      && R.After(front, R.Decode(data[used - 1..nblock])) == R.Decode(data[..nblock])
      && (used <= nblock ==> R.After(front, R.Decode(data[used - 1..nblock + 1])) == R.Decode(data[..nblock + 1]))
  }

  /** All that comes out for a block, whole or broken off, before it is found out. */
  function Delivered(data: seq<int>, nblock: nat): seq<int>
    requires nblock < |data|
  {
    var d, more := R.Decode(data[..nblock]), R.Decode(data[..nblock + 1]);
    if d.Whole? then d.bytes else if more.Whole? then more.bytes else []
  }

  /** One more byte makes a block whole that breaks off inside a run. */
  lemma {:induction false} OneByteMore(s: seq<int>, c: int)
    requires R.Decode(s).Truncated? && c >= 0 && forall i :: 0 <= i < |s| ==> s[i] >= 0
    ensures R.Decode(s + [c]).Whole?
    decreases |s|
  {
    var k := R.Lead(s);
    assert R.Lead(s + [c]) == k;
    if k < 4 {
      assert (s + [c])[k..] == s[k..] + [c];
      OneByteMore(s[k..], c);
    } else if |s| > 4 {
      assert (s + [c])[5..] == s[5..] + [c];
      OneByteMore(s[5..], c);
    } else {
      assert (s + [c])[5..] == [];
    }
  }

  /** The run that starts at data[i] is read: it is len long and what was read of the bytes is used. */
  ghost predicate RunRead(data: seq<int>, nblock: nat, i: nat, used: nat, len: int)
    requires i < nblock && nblock + 2 <= |data|
  {
    var k := R.Lead(data[i..nblock]);
    if k < 4 then used == i + 1 + k && len == k else used == i + 6 && len == data[i + 4] + 4
  }

  lemma ShortUnfolds(s: seq<int>)
    requires s != [] && R.Lead(s) < 4
    ensures R.Decode(s) == R.After(Repeat(s[0], R.Lead(s)), R.Decode(s[R.Lead(s)..]))
  {
    hide R.Lead, R.After, Repeat;
  }

  lemma LongUnfolds(s: seq<int>)
    requires |s| > 4 && R.Lead(s) == 4 && s[4] >= 0
    ensures R.Decode(s) == R.After(Repeat(s[0], s[4] + 4), R.Decode(s[5..]))
  {
    hide R.Lead, R.After, Repeat;
  }

  lemma CutUnfolds(s: seq<int>)
    requires |s| == 4 && R.Lead(s) == 4
    ensures R.Decode(s).Truncated?
  {
    hide R.Lead, R.After, Repeat;
  }

  /** A run that has ended is no longer for what follows. */
  lemma LeadMore(s: seq<int>, c: int)
    requires s != [] && (R.Lead(s) < |s| || R.Lead(s) == 4)
    ensures R.Lead(s + [c]) == R.Lead(s)
  {
  }

  /** A run of fewer than four bytes. */
  lemma ShortHolds(data: seq<int>, nblock: nat, i: nat, front: seq<int>)
    requires i < nblock && nblock + 2 <= |data| && R.Lead(data[i..nblock]) < 4 && Holds(data, nblock, i + 1, front)
    ensures var k := R.Lead(data[i..nblock]); Holds(data, nblock, i + 1 + k, front + Repeat(data[i], k))
  {
    hide R.Lead, R.Decode, R.After, Repeat;
    var u, v := data[i..nblock], data[i..nblock + 1];
    var k := R.Lead(u);
    ShortUnfolds(u);
    assert u[k..] == data[i + k..nblock];
    R.AfterAfter(front, Repeat(data[i], k), R.Decode(u[k..]));
    if i + k < nblock {
      assert v == u + [data[nblock]];
      LeadMore(u, data[nblock]);
      ShortUnfolds(v);
      assert v[k..] == data[i + k..nblock + 1];
      R.AfterAfter(front, Repeat(data[i], k), R.Decode(v[k..]));
    }
  }

  /** A run of four bytes and its count, which may be the byte past the end. */
  lemma LongHolds(data: seq<int>, nblock: nat, i: nat, front: seq<int>)
    requires i < nblock && nblock + 2 <= |data| && (forall j :: 0 <= j < |data| ==> 0 <= data[j] < 256)
    requires R.Lead(data[i..nblock]) == 4 && Holds(data, nblock, i + 1, front)
    ensures i + 4 <= nblock && Holds(data, nblock, i + 6, front + Repeat(data[i], data[i + 4] + 4))
  {
    hide R.Lead, R.Decode, R.After, Repeat;
    var u, v := data[i..nblock], data[i..nblock + 1];
    LeadBound(u);
    var run := Repeat(data[i], data[i + 4] + 4);
    assert v == u + [data[nblock]];
    LeadMore(u, data[nblock]);
    LongUnfolds(v);
    assert v[5..] == data[i + 5..nblock + 1];
    R.AfterAfter(front, run, R.Decode(v[5..]));
    if i + 4 < nblock {
      LongUnfolds(u);
      assert u[5..] == data[i + 5..nblock];
      R.AfterAfter(front, run, R.Decode(u[5..]));
    } else {
      CutUnfolds(u);
      assert data[i + 5..nblock + 1] == [];
      CutHolds(data, nblock, i, front, run, v);
    }
  }

  lemma CutHolds(data: seq<int>, nblock: nat, i: nat, front: seq<int>, run: seq<int>, v: seq<int>)
    requires i + 4 == nblock && nblock + 2 <= |data| && Holds(data, nblock, i + 1, front) && R.Decode(data[i..nblock]).Truncated?
    requires v == data[i..nblock + 1] && R.Decode(v) == R.After(run, R.Decode([]))
    ensures Holds(data, nblock, nblock + 2, front + run)
  {
    assert R.Decode([]) == R.Whole([]);
    assert run + [] == run;
  }

  lemma LeadBound(s: seq<int>)
    requires s != []
    ensures 1 <= R.Lead(s) <= 4 && R.Lead(s) <= |s|
  {
  }

  lemma RunHolds(data: seq<int>, nblock: nat, i: nat, used: nat, len: int, front: seq<int>)
    requires i < nblock && nblock + 2 <= |data| && (forall j :: 0 <= j < |data| ==> 0 <= data[j] < 256)
    requires RunRead(data, nblock, i, used, len) && Holds(data, nblock, i + 1, front)
    ensures used <= nblock + 2 && len >= 1 && Holds(data, nblock, used, front + Repeat(data[i], len))
  {
    hide Repeat, Holds, R.Lead;
    LeadBound(data[i..nblock]);
    if R.Lead(data[i..nblock]) < 4 { ShortHolds(data, nblock, i, front); } else { LongHolds(data, nblock, i, front); }
  }

  lemma AfterNone(d: R.Expansion)
    ensures R.After([], d) == d
  {
    assert d.Whole? ==> [] + d.bytes == d.bytes;
  }

  lemma RepeatFront(front: seq<int>, ch: int, n: nat)
    ensures front + Repeat(ch, n + 1) == (front + [ch]) + Repeat(ch, n)
  {
  }

  lemma NothingPending(data: seq<int>, nblock: nat, used: nat, front: seq<int>, ch: int)
    requires 1 <= used <= nblock + 2 <= |data|
    ensures Holds(data, nblock, used, front + Repeat(ch, 0)) == Holds(data, nblock, used, front)
  {
    assert front + Repeat(ch, 0) == front;
  }

  /** data is what BZ_GET_FAST or BZ_GET_SMALL hands out, one byte a turn: the nblock bytes of the block, and then
      whatever the walk goes on to. One byte, k0, is always read ahead. */
  class OutputStage {
    const data: seq<int>
    const nblock: nat
    var used: nat
    var k0: int
    var outCh: int
    var outLen: int
    var crc: word

    constructor (data: seq<int>, nblock: nat)
      requires 1 <= nblock && nblock + 2 <= |data| && forall i :: 0 <= i < |data| ==> 0 <= data[i] < 256
      ensures Valid() && this.data == data && this.nblock == nblock && Agrees([])
      ensures fresh(this)
    {
      this.data, this.nblock := data, nblock;
      used, k0, outCh, outLen, crc := 1, data[0], 0, 0, 0xffff_ffff;
      new;
      assert data[0..nblock] == data[..nblock] && data[0..nblock + 1] == data[..nblock + 1];
      AfterNone(R.Decode(data[..nblock + 1]));
      assert [] + Repeat(outCh, 0) == [];
      AfterNone(R.Decode(data[..nblock]));
    }

    ghost predicate Shape()
      reads this
    {
      && 1 <= nblock && nblock + 2 <= |data| && (forall i :: 0 <= i < |data| ==> 0 <= data[i] < 256)
    }

    ghost predicate Valid()
      reads this
    {
      && Shape() && 1 <= used <= nblock + 2 && (used <= nblock ==> k0 == data[used - 1])
      && 0 <= outCh < 256 && outLen >= 0
    }

    /** What has come out, the run being written and the bytes not yet read make up the block. */
    ghost predicate Agrees(produced: seq<int>)
      reads this
      requires Valid()
    {
      Holds(data, nblock, used, produced + Repeat(outCh, outLen)) && crc == Crc(produced)
    }

    /** Every byte of the block is out. */
    predicate Done()
      reads this
    {
      used == nblock + 1 && outLen == 0
    }

    lemma DoneMeans(produced: seq<int>)
      requires Valid() && Agrees(produced) && Done()
      ensures R.Decode(data[..nblock]) == R.Whole(produced)
    {
      assert data[nblock..nblock] == [];
      assert produced + Repeat(outCh, 0) + [] == produced;
    }

    lemma SoFar(produced: seq<int>)
      requires Valid() && Agrees(produced)
      ensures produced <= Delivered(data, nblock)
    {
      hide Repeat;
      if R.Decode(data[..nblock]).Truncated? {
        OneByteMore(data[..nblock], data[nblock]);
        assert data[..nblock] + [data[nblock]] == data[..nblock + 1];
      }
    }

    /** BZ_GET_FAST or BZ_GET_SMALL. */
    method Get() returns (k1: int)
      requires Shape() && 1 <= used <= nblock + 1
      modifies this`used
      ensures k1 == data[old(used)] && used == old(used) + 1
    {
      k1 := data[used];
      used := used + 1;
    }

    /** The run that starts at data[i], after its second byte has turned out to repeat the first. */
    method ReadOn(ghost i: nat)
      requires Shape() && used == i + 2 <= nblock && k0 == outCh == data[i] == data[i + 1]
      modifies this`used, this`k0, this`outLen
      ensures Valid() && RunRead(data, nblock, i, used, outLen)
    {
      hide Repeat, R.Decode, R.After;
      ghost var u := data[i..nblock];
      outLen := 2;
      var k1 := Get();
      if used == nblock + 1 { return; }
      if k1 != k0 { k0 := k1; return; }
      outLen := 3;
      k1 := Get();
      if used == nblock + 1 { return; }
      if k1 != k0 { k0 := k1; return; }
      k1 := Get();
      outLen := k1 + 4;
      k0 := Get();
      assert R.Lead(u) == 4;
    }

    /** One byte goes out, and into the checksum. */
    method Emit(ghost produced: seq<int>) returns (ch: int)
      requires crc == Crc(produced)
      modifies this`crc
      ensures ch == outCh && crc == Crc(produced + [ch])
    {
      ch := outCh;
      crc := BlockCrc.Update(crc, AsWord(ch));
      CrcSnoc(produced, ch);
    }

    /** Write out of the pending run as much as there is room for. */
    method EmitRun(availOut: nat, out0: seq<int>, ghost produced: seq<int>) returns (out: seq<int>)
      requires Valid() && |out0| <= availOut && Agrees(produced + out0)
      modifies this`outLen, this`crc
      ensures Valid() && out0 <= out && |out| <= availOut && Agrees(produced + out)
      ensures |out| == availOut || outLen == 0
    {
      hide Repeat, Holds, Crc;
      out := out0;
      while true
        invariant Valid() && out0 <= out && |out| <= availOut && Agrees(produced + out)
        decreases outLen
      {
        if |out| == availOut { return; }
        if outLen == 0 { return; }
        RepeatFront(produced + out, outCh, outLen - 1);
        var ch := Emit(produced + out);
        assert produced + out + [ch] == produced + (out + [ch]);
        out := out + [ch];
        outLen := outLen - 1;
      }
    }

    /** Nothing is pending, and the block goes on: its next run is read, in the order of the small form. */
    method StartSmall()
      requires Valid() && used <= nblock
      modifies this`used, this`k0, this`outCh, this`outLen
      ensures Valid() && outCh == data[old(used) - 1] && RunRead(data, nblock, old(used) - 1, used, outLen)
    {
      ghost var i := used - 1;
      ghost var u := data[i..nblock];
      outLen := 1;
      outCh := k0;
      var k1 := Get();
      if used == nblock + 1 {
      } else if k1 != k0 {
        k0 := k1;
      } else {
        ReadOn(i);
      }
    }

    /** unRLE_obuf_to_output_SMALL: fill the output as far as it goes. */
    method Small(availOut: nat, ghost produced: seq<int>) returns (corrupt: bool, out: seq<int>)
      requires Valid() && Agrees(produced)
      modifies this`used, this`k0, this`outCh, this`outLen, this`crc
      ensures corrupt ==> R.Decode(data[..nblock]).Truncated? && produced + out == Delivered(data, nblock) && |out| <= availOut
      ensures !corrupt ==> Valid() && Agrees(produced + out) && |out| <= availOut && (Done() || |out| == availOut)
    {
      hide Crc, R.After, R.Decode, Repeat, RunRead;
      out := [];
      assert produced + [] == produced;
      while true
        invariant Valid() && Agrees(produced + out) && |out| <= availOut
        decreases nblock + 2 - used
      {
        out := EmitRun(availOut, out, produced);
        if outLen > 0 || |out| == availOut { return false, out; }
        NothingPending(data, nblock, used, produced + out, outCh);
        if used == nblock + 1 { return false, out; }
        if used > nblock + 1 {
          assert R.Decode(data[..nblock]).Truncated?;
          return true, out;
        }
        ghost var i := used - 1;
        StartSmall();
        RunHolds(data, nblock, i, used, outLen, produced + out);
      }
    }

    /** unRLE_obuf_to_output_FAST. A run of one byte is written without its length being set: single says that this is
        the run at hand, whatever cLen still holds. */
    method Fast(availOut: nat, ghost produced: seq<int>) returns (corrupt: bool, out: seq<int>)
      requires Valid() && Agrees(produced)
      modifies this`used, this`k0, this`outCh, this`outLen, this`crc
      ensures corrupt ==> R.Decode(data[..nblock]).Truncated? && produced + out == Delivered(data, nblock) && |out| <= availOut
      ensures !corrupt ==> Valid() && Agrees(produced + out) && |out| <= availOut && (Done() || |out| == availOut)
    {
      hide Crc, R.After, R.Decode, Repeat, RunRead;
      out := [];
      assert produced + [] == produced;
      var cLen, single := outLen, false;
      while true
        invariant Valid() && cLen >= 0 && |out| <= availOut && crc == Crc(produced + out)
        invariant Holds(data, nblock, used, produced + out + Repeat(outCh, if single then 1 else cLen))
        decreases nblock + 2 - used
      {
        if single || cLen > 0 {
          var room;
          room, cLen, out := EmitFast(availOut, out, cLen, single, produced);
          if !room {
            outLen := cLen;
            return false, out;
          }
        } else {
          NothingPending(data, nblock, used, produced + out, outCh);
        }
        if used > nblock + 1 {
          assert R.Decode(data[..nblock]).Truncated?;
          return true, out;
        }
        if used == nblock + 1 {
          outLen := 0;
          NothingPending(data, nblock, used, produced + out, outCh);
          return false, out;
        }
        ghost var i := used - 1;
        single := StartFast();
        if !single { cLen := outLen; }
        RunHolds(data, nblock, i, used, if single then 1 else cLen, produced + out);
      }
    }

    /** The run at hand, to its end if there is room. */
    method EmitFast(availOut: nat, out0: seq<int>, cLen0: int, single: bool, ghost produced: seq<int>)
      returns (room: bool, cLen: int, out: seq<int>)
      requires Valid() && |out0| <= availOut && crc == Crc(produced + out0) && cLen0 >= 0 && (single || cLen0 > 0)
      requires Holds(data, nblock, used, produced + out0 + Repeat(outCh, if single then 1 else cLen0))
      modifies this`crc
      ensures Valid() && out0 <= out && |out| <= availOut && crc == Crc(produced + out)
      ensures room ==> cLen >= 0 && Holds(data, nblock, used, produced + out)
      ensures !room ==> |out| == availOut && cLen >= 0 && Holds(data, nblock, used, produced + out + Repeat(outCh, cLen))
    {
      hide Repeat, Holds, Crc;
      out, cLen := out0, cLen0;
      if !single {
        while true
          invariant Valid() && out0 <= out && |out| <= availOut && crc == Crc(produced + out) && cLen >= 1
          invariant Holds(data, nblock, used, produced + out + Repeat(outCh, cLen))
          decreases cLen
        {
          if |out| == availOut { return false, cLen, out; }
          if cLen == 1 { break; }
          RepeatFront(produced + out, outCh, cLen - 1);
          var ch := Emit(produced + out);
          assert produced + out + [ch] == produced + (out + [ch]);
          out := out + [ch];
          cLen := cLen - 1;
        }
      }
      if |out| == availOut {
        cLen := 1;
        return false, cLen, out;
      }
      RepeatFront(produced + out, outCh, 0);
      NothingPending(data, nblock, used, produced + out + [outCh], outCh);
      var ch := Emit(produced + out);
      assert produced + out + [ch] == produced + (out + [ch]);
      out := out + [ch];
      room := true;
    }

    /** The next run, in the order of the fast form; a run of one byte leaves outLen alone. */
    method StartFast() returns (single: bool)
      requires Valid() && used <= nblock
      modifies this`used, this`k0, this`outCh, this`outLen
      ensures Valid() && outCh == data[old(used) - 1]
      ensures RunRead(data, nblock, old(used) - 1, used, if single then 1 else outLen)
    {
      ghost var i := used - 1;
      ghost var u := data[i..nblock];
      outCh := k0;
      var k1 := Get();
      if k1 != k0 {
        k0 := k1;
        return true;
      }
      if used == nblock + 1 { return true; }
      ReadOn(i);
      single := false;
    }
  }
}
