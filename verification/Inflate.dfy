/** inflate's decoding of a block: state by state, checking for input and output at every step, and inflate_fast, which checks
    once per symbol. Both take the abstract machine's steps. */
module Inflate {
  import opened Octets
  import opened Bits
  import opened CanonicalCode
  import opened TableCells
  import opened Lz77
  import opened InflateSpec
  import opened InflateWindow

  /** (op & 0xf0) == 0: a link, when op is not 0. */
  predicate NoHighBits(op: nat) { op % 256 / 16 == 0 }

  class InflateState {
    const w: CircularWindow
    var lencode: seq<Code>
    var lenbits: nat
    var distcode: seq<Code>
    var distbits: nat
    var mode: Mode
    var hold: nat
    var bits: nat
    var length: nat
    var offset: nat
    var extra: nat
    /** The input of this call, and how far it has been read. */
    var input: seq<octet>
    var inPos: nat
    /** The output of this call, from outStart up to outPos. */
    var output: array<octet>
    var outStart: nat
    var outPos: nat
    /** The input of this call and of all later ones. */
    ghost var stream: seq<octet>
    /** All the bits that are unread: those in hold and those of the stream. */
    ghost var n: nat
    /** The output of all earlier calls. */
    ghost var before: seq<octet>

    /** LEN_: the block's tables have been read, and fewer than 8 bits are held. */
    constructor (w: CircularWindow, lencode: seq<Code>, lenbits: nat, distcode: seq<Code>, distbits: nat, hold: nat, bits: nat,
                 output: array<octet>, ghost stream: seq<octet>)
      requires w.Valid() && output != w.data && Tables(lencode, lenbits, distcode, distbits) && bits < 8 && hold < Pow2(bits)
      ensures Valid() && Kept() && Tight() && mode == LEN && outStart == outPos && this.bits == bits
      ensures this.w == w && this.stream == stream && inPos == 0 && n == hold + Pow2(bits) * LE(stream) && before == w.history
      ensures this.lencode == lencode && this.lenbits == lenbits && this.distcode == distcode && this.distbits == distbits
    {
      this.w, this.output, outStart, outPos := w, output, 0, 0;
      this.lencode, this.lenbits, this.distcode, this.distbits := lencode, lenbits, distcode, distbits;
      mode, length, offset, extra := LEN, 0, 0, 0;
      this.hold, this.bits, input, inPos := hold, bits, [], 0;
      this.stream, before, n := stream, w.history, hold + Pow2(bits) * LE(stream);
      new;
      ReadsFirst(hold, bits, stream);
    }

    /** What the current state knows about the values it works with. */
    predicate ModeOk()
      reads this`mode, this`length, this`extra, this`offset
    {
      match mode
      case LENEXT => extra <= 5 && MIN_MATCH <= length && length + Pow2(extra) <= MAX_MATCH + 1
      case DIST => MIN_MATCH <= length <= MAX_MATCH
      case DISTEXT => MIN_MATCH <= length <= MAX_MATCH && extra <= 13 && offset >= 1
      case MATCH => 1 <= length <= MAX_MATCH && offset >= 1
      case LIT => length < 256
      case _ => true
    }

    ghost predicate Buffers()
      reads this`outPos, this`output, this`outStart, w, w.data
    {
      w.Valid() && output != w.data && outStart <= outPos <= output.Length
    }

    ghost predicate In()
      reads this`n, this`hold, this`bits, this`input, this`inPos, this`stream
    {
      Reads(n, hold, bits, stream, inPos) && inPos <= |input| && input <= stream && bits <= 32
    }

    ghost predicate Coded()
      reads this`lencode, this`lenbits, this`distcode, this`distbits
    {
      Tables(lencode, lenbits, distcode, distbits)
    }

    ghost predicate Valid()
      reads this, w, w.data
    {
      Buffers() && In() && Coded() && ModeOk()
    }

    /** The window has been given the output of all earlier calls. */
    ghost predicate Kept()
      reads this`mode, this`before, w`history
    {
      mode != BAD ==> w.history == before
    }

    /** The output within reach: the window's, and that of this call. */
    ghost function Reach(): seq<octet>
      reads this`outPos, this`output, this`outStart, output, w, w.data
      requires Buffers()
    {
      w.Content() + output[outStart..outPos]
    }

    /** How many bits are unread. */
    ghost function Unread(): int
      reads this`bits, this`stream, this`inPos
    {
      bits + 8 * (|stream| - inPos)
    }

    /** How many of them this call has. */
    ghost function Held(): int
      reads this`bits, this`input, this`inPos
    {
      bits + 8 * (|input| - inPos)
    }

    ghost function Abs(): State
      reads this, output, w, w.data
      requires Buffers()
    {
      Clean(State(mode, length, extra, offset, n, Unread(), Reach()))
    }

    ghost function Run(s: State, k: nat): State
      reads this`lencode, this`lenbits, this`distcode, this`distbits
    {
      Iterate(lencode, lenbits, distcode, distbits, s, k)
    }

    // ----- bits

    /** PULLBYTE. */
    method PullByte()
      requires In() && inPos < |input| && bits <= 24
      modifies this`hold, this`bits, this`inPos
      ensures In() && bits == old(bits) + 8 && inPos == old(inPos) + 1 && Unread() == old(Unread())
    {
      hide Reads, Pow2;
      Pulled(n, hold, bits, stream, inPos);
      hold := hold + input[inPos] * Shl1(bits);
      inPos := inPos + 1;
      bits := bits + 8;
    }

    function Shl1(k: nat): nat { Pow2(k) }

    /** DROPBITS. */
    method DropBits(k: nat)
      requires In() && k <= bits
      modifies this`hold, this`bits, this`n
      ensures In() && bits == old(bits) - k && n == Hi(old(n), k) && Unread() == old(Unread()) - k && hold == Hi(old(hold), k)
    {
      hide Reads, Hi;
      Dropped(n, hold, bits, stream, inPos, k);
      hold := Hi(hold, k);
      bits := bits - k;
      n := Hi(n, k);
    }

    /** BITS. */
    method Peek(k: nat) returns (v: nat)
      requires In() && k <= bits
      ensures v == Lo(n, k)
    {
      hide Lo;
      v := Lo(hold, k);
      PeekedHere(k);
    }

    lemma PeekedHere(k: nat)
      requires In() && k <= bits
      ensures Lo(hold, k) == Lo(n, k)
    {
      hide Lo, Hi;
      Peeked(n, hold, bits, stream, inPos, k);
    }

    /** NEEDBITS. */
    method NeedBits(k: nat) returns (ok: bool)
      requires In() && k <= 15
      modifies this`hold, this`bits, this`inPos
      ensures In() && Unread() == old(Unread()) && (ok <==> bits >= k) && (!ok ==> inPos == |input|)
      ensures bits == old(bits) || bits < k + 8
    {
      hide Reads;
      while bits < k
        invariant In() && Unread() == old(Unread()) && (bits == old(bits) || bits < k + 8)
        decreases |input| - inPos
      {
        if inPos == |input| { return false; }
        PullByte();
      }
      ok := true;
    }

    // ----- codes

    /** The table's entry for the unread bits, pulling bytes until it is certain. */
    method LookUp(table: seq<Code>, root: nat, dist: bool) returns (ok: bool, e: Code)
      requires In() && TableOk(table, root, dist)
      modifies this`hold, this`bits, this`inPos
      ensures In() && Unread() == old(Unread())
      ensures ok ==> e == Entry(table, root, n) && e.bits <= bits && Known(e, dist)
      ensures ok ==> bits < e.bits + 8 || (bits == old(bits) && hold == old(hold))
      ensures !ok ==> inPos == |input| && Entry(table, root, hold).bits > bits
    {
      hide Reads, Entry, Known, Lo, Hi, Prefixed;
      ok := true;
      var here;
      while true
        invariant In() && Unread() == old(Unread())
        invariant (bits == old(bits) && hold == old(hold)) || Entry(table, root, n).bits > bits - 8
        decreases |input| - inPos
      {
        assert LooksUp(table, root, dist, hold);
        RootEntryBits(table, root, dist, hold);
        here := table[Lo(hold, root)];
        if here.bits <= bits { break; }
        Lacking(table, root, dist);
        if inPos == |input| { return false, INVALID; }
        PullByte();
      }
      if (if dist then NoHighBits(here.op) else here.op != 0 && NoHighBits(here.op)) {
        ghost var h0, b0 := hold, bits;
        LinkCertain(table, root, dist, n, hold, bits, stream, inPos);
        var last := here;
        while true
          invariant In() && Unread() == old(Unread()) && bits >= root && Lo(hold, root) < |table| && table[Lo(hold, root)] == last
          invariant IsLink(last) && last.bits == root
          invariant (bits == old(bits) && hold == old(hold)) || Entry(table, root, n).bits > bits - 8
          decreases |input| - inPos
        {
          assert LooksUp(table, root, dist, hold);
          SubIndex(table, root, dist, hold);
          here := table[last.val + Hi(Lo(hold, last.bits + last.op), last.bits)];
          if last.bits + here.bits <= bits { break; }
          Lacking(table, root, dist);
          if inPos == |input| { return false, INVALID; }
          SubBits(table, root, dist, hold);
          PullSame(table, root);
        }
        e := Code(here.op, last.bits + here.bits, here.val);
      } else {
        e := here;
      }
      FoundEntry(table, root, dist, e);
    }

    lemma Lacking(table: seq<Code>, root: nat, dist: bool)
      requires In() && TableOk(table, root, dist) && Entry(table, root, hold).bits > bits
      ensures Entry(table, root, n).bits > bits
    {
      hide Reads, Entry, Lo, Hi, TableOk;
      NotEnough(table, root, dist, n, hold, bits, stream, inPos);
    }

    /** Pulling a byte does not change a root entry that is certain. */
    method PullSame(table: seq<Code>, root: nat)
      requires In() && inPos < |input| && bits <= 24 && root <= bits && Lo(hold, root) < |table|
      modifies this`hold, this`bits, this`inPos
      ensures In() && bits == old(bits) + 8 && inPos == old(inPos) + 1 && Unread() == old(Unread())
      ensures Lo(hold, root) == old(Lo(hold, root))
    {
      hide Reads, Lo, Hi;
      PeekedHere(root);
      PullByte();
      PeekedHere(root);
    }

    lemma FoundEntry(table: seq<Code>, root: nat, dist: bool, e: Code)
      requires In() && TableOk(table, root, dist) && e == Entry(table, root, hold) && e.bits <= bits
      ensures e == Entry(table, root, n) && Known(e, dist)
    {
      hide Reads, Entry, Known, Lo, Hi, Prefixed;
      HeldEntry(table, root, dist, n, hold, bits, stream, inPos);
      assert LooksUp(table, root, dist, n);
    }

    // ----- the states, one at a time

    /** A code is looked up and dropped. */
    method TakeCode(table: seq<Code>, root: nat, dist: bool) returns (ok: bool, e: Code)
      requires In() && TableOk(table, root, dist)
      modifies this`hold, this`bits, this`inPos, this`n
      ensures In() && (!ok ==> n == old(n) && Unread() == old(Unread()) && inPos == |input|)
      ensures ok ==> e == Entry(table, root, old(n)) && Known(e, dist) && n == Hi(old(n), e.bits)
      ensures ok ==> Unread() == old(Unread()) - e.bits && e.bits >= 1
      ensures ok && old(bits < 8 || Entry(table, root, hold).bits > bits) ==> bits < 8
      ensures !ok ==> Entry(table, root, hold).bits > bits
    {
      hide Reads, Entry, Lo, Hi, TableOk;
      ghost var h := hold;
      ok, e := LookUp(table, root, dist);
      if ok {
        if hold == h { FoundAtOnce(table, root, dist, e); }
        DropBits(e.bits);
      }
    }

    lemma FoundAtOnce(table: seq<Code>, root: nat, dist: bool, e: Code)
      requires In() && TableOk(table, root, dist) && e == Entry(table, root, n) && e.bits <= bits
      ensures Entry(table, root, hold).bits <= bits
    {
      hide Reads, Entry, Lo, Hi, TableOk;
      if Entry(table, root, hold).bits > bits { NotEnough(table, root, dist, n, hold, bits, stream, inPos); }
    }

    /** No more than 7 bits are held beyond what has been asked for and could not be had. This is what makes it safe for
        inflate_fast to give bytes back. */
    ghost predicate Tight()
      reads this`mode, this`bits, this`hold, this`extra, this`lencode, this`lenbits, this`distcode, this`distbits
    {
      bits < 8
      || (mode == LEN && Entry(lencode, lenbits, hold).bits > bits)
      || (mode == DIST && Entry(distcode, distbits, hold).bits > bits)
      || ((mode == LENEXT || mode == DISTEXT) && bits < extra)
    }

    /** LEN. */
    method LenState() returns (ok: bool)
      requires Valid() && mode == LEN
      modifies this`hold, this`bits, this`inPos, this`n, this`mode, this`length, this`extra
      ensures Valid() && Abs() == if ok then Run(old(Abs()), 1) else old(Abs())
      ensures !ok ==> inPos == |input|
      ensures ok ==> Unread() < old(Unread()) && mode in {LIT, TYPE, BAD, LENEXT}
      ensures old(Tight()) ==> Tight()
    {
      hide Reads, Entry, Lo, Hi, Tables, TableOk, Known, IsLength, Pow2, Buffers, In, Reach, Unread, Iterate, Coded,
        AfterDist, Abs, Clean, ModeOk;
      CodedParts();
      ghost var s := Abs();
      AbsLen(s);
      OneStep(s);
      var here;
      ok, here := TakeCode(lencode, lenbits, false);
      if !ok {
        SameAbs(s);
        return;
      }
      LenKinds(here);
      LenStep(s, here);
      length := here.val;
      if here.op == 0 {
        mode := LIT;
      } else if here.op / 32 % 2 == 1 {
        mode := TYPE;
      } else if here.op / 64 % 2 == 1 {
        mode := BAD;
      } else {
        extra := here.op % 16;
        mode := LENEXT;
      }
      LenTaken(s, here);
    }

    lemma AbsLen(s: State)
      requires Buffers() && mode == LEN && s == Abs()
      ensures s == State(LEN, 0, 0, 0, n, Unread(), Reach())
    {
      hide Buffers, Reach, Unread;
    }

    lemma SameAbs(s: State)
      requires Buffers() && mode == LEN && s == State(LEN, 0, 0, 0, n, Unread(), Reach())
      ensures Abs() == s && ModeOk()
    {
      hide Buffers, Reach, Unread;
    }

    /** The length code is taken. */
    lemma LenTaken(s: State, e: Code)
      requires Buffers() && s.mode == LEN && Known(e, false) && n == Hi(s.n, e.bits) && Unread() == s.t - e.bits && s.out == Reach()
      requires length == e.val && (mode == LENEXT ==> extra == e.op % 16)
      requires mode == if e.op == 0 then LIT else if IsEnd(e) then TYPE else if IsInvalid(e) then BAD else LENEXT
      ensures Abs() == Clean(AfterLen(s, e)) && ModeOk()
    {
      hide Buffers, Reach, Unread, Hi, Pow2;
    }

    lemma LenStep(s: State, e: Code)
      requires s.mode == LEN && e == Entry(lencode, lenbits, s.n)
      ensures Next(lencode, lenbits, distcode, distbits, s) == Clean(AfterLen(s, e))
    {
      hide Entry, AfterLen;
    }

    lemma DistStep(s: State, e: Code)
      requires s.mode == DIST && e == Entry(distcode, distbits, s.n)
      ensures Next(lencode, lenbits, distcode, distbits, s) == Clean(AfterDist(s, e))
    {
      hide Entry, AfterDist;
    }

    lemma CodedParts()
      requires Coded()
      ensures TableOk(lencode, lenbits, false) && TableOk(distcode, distbits, true)
    {
      hide TableOk;
    }

    lemma OneStep(s: State)
      ensures Run(s, 1) == Next(lencode, lenbits, distcode, distbits, s)
    {
      hide Next, Iterate;
      InflateSpec.OneStep(lencode, lenbits, distcode, distbits, s);
    }

    /** LENEXT and DISTEXT: the extra bits. */
    method ExtraBits() returns (ok: bool, v: nat)
      requires In() && extra <= 15
      modifies this`hold, this`bits, this`inPos, this`n
      ensures In() && (!ok ==> n == old(n) && Unread() == old(Unread()) && inPos == |input|)
      ensures ok ==> n == Hi(old(n), extra) && Unread() == old(Unread()) - extra && v == Lo(old(n), extra)
      ensures ok && (old(bits) < 8 || old(bits) < extra) ==> bits < 8
      ensures !ok ==> bits < extra
    {
      hide Reads, Lo, Hi;
      if extra != 0 {
        ok := NeedBits(extra);
        if !ok { v := 0; return; }
        v := Peek(extra);
        DropBits(extra);
      } else {
        NoBits(n);
        ok, v := true, 0;
      }
    }

    method LenExtState() returns (ok: bool)
      requires Valid() && mode == LENEXT
      modifies this`hold, this`bits, this`inPos, this`n, this`mode, this`length
      ensures Valid() && Abs() == if ok then Run(old(Abs()), 1) else old(Abs())
      ensures !ok ==> inPos == |input|
      ensures ok ==> Unread() <= old(Unread()) && mode == DIST
      ensures old(Tight()) ==> Tight()
    {
      hide Reads, Entry, Lo, Hi, Tables, TableOk, LooksUp, Prefixed;
      ghost var s := Abs();
      OneStep(s);
      var v;
      ok, v := ExtraBits();
      if !ok { return; }
      BelowPower(s.n, extra);
      length := length + v;
      mode := DIST;
    }

    method DistState() returns (ok: bool)
      requires Valid() && mode == DIST
      modifies this`hold, this`bits, this`inPos, this`n, this`mode, this`offset, this`extra
      ensures Valid() && Abs() == if ok then Run(old(Abs()), 1) else old(Abs())
      ensures !ok ==> inPos == |input|
      ensures ok ==> Unread() < old(Unread()) && mode in {BAD, DISTEXT}
      ensures old(Tight()) ==> Tight()
    {
      hide Reads, Entry, Lo, Hi, Tables, TableOk, Known, Pow2, Buffers, In, Reach, Unread, Iterate, Coded, IsLength;
      CodedParts();
      ghost var s := Abs();
      OneStep(s);
      var here;
      ok, here := TakeCode(distcode, distbits, true);
      if !ok { return; }
      DistKinds(here);
      DistStep(s, here);
      if here.op / 64 % 2 == 1 {
        mode := BAD;
      } else {
        offset := here.val;
        extra := here.op % 16;
        mode := DISTEXT;
      }
    }

    method DistExtState() returns (ok: bool)
      requires Valid() && mode == DISTEXT
      modifies this`hold, this`bits, this`inPos, this`n, this`mode, this`offset
      ensures Valid() && Abs() == if ok then Run(old(Abs()), 1) else old(Abs())
      ensures !ok ==> inPos == |input|
      ensures ok ==> Unread() <= old(Unread()) && mode == MATCH
      ensures old(Tight()) ==> Tight()
    {
      hide Reads, Entry, Lo, Hi, Tables, TableOk, LooksUp, Prefixed;
      ghost var s := Abs();
      OneStep(s);
      var v;
      ok, v := ExtraBits();
      if !ok { return; }
      offset := offset + v;
      mode := MATCH;
    }

    /** LIT. */
    method LitState() returns (ok: bool)
      requires Valid() && mode == LIT
      modifies this`outPos, this`mode, output
      ensures Valid() && Abs() == if ok then Run(old(Abs()), 1) else old(Abs())
      ensures ok ==> outPos == old(outPos) + 1 && mode == LEN
      ensures !ok ==> outPos == output.Length
      ensures old(Tight()) ==> Tight()
    {
      hide Reads, Entry, Lo, Hi, Tables, Iterate, Reach, Buffers, Abs, Unread;
      ghost var s := Abs();
      AbsLit(s);
      OneStep(s);
      if outPos == output.Length { return false; }
      LitRoom();
      PutByte(length % 256);
      mode := LEN;
      LitTaken(s);
      ok := true;
    }

    lemma AbsLit(s: State)
      requires Buffers() && mode == LIT && s == Abs()
      ensures s == State(LIT, length, 0, 0, n, Unread(), Reach())
    {
      hide Buffers, Reach, Unread;
    }

    lemma LitRoom()
      requires Buffers() && outPos != output.Length
      ensures outPos < output.Length
    {
    }

    lemma LitTaken(s: State)
      requires Buffers() && mode == LEN && s.mode == LIT && s.n == n && s.t == Unread() && Reach() == s.out + [s.length % 256]
      ensures Abs() == Next(lencode, lenbits, distcode, distbits, s)
    {
      hide Buffers, Reach, Unread, Entry, Lo, Hi;
    }

    /** One byte of output. */
    method PutByte(c: octet)
      requires Buffers() && outPos < output.Length
      modifies this`outPos, output
      ensures Buffers() && outPos == old(outPos) + 1 && Reach() == old(Reach()) + [c]
    {
      ghost var p := output[outStart..outPos];
      output[outPos] := c;
      outPos := outPos + 1;
      assert output[outStart..outPos] == p + [c];
      assert w.Content() + (p + [c]) == (w.Content() + p) + [c];
    }

    // ----- copying

    /** zmemcpy from the window to the output. */
    method CopyBytes(from: nat, m: nat)
      requires outPos + m <= output.Length && from + m <= w.data.Length && output != w.data && outStart <= outPos
      modifies this`outPos, output
      ensures outPos == old(outPos) + m
      ensures output[outStart..outPos] == old(output[outStart..outPos]) + w.data[from..from + m]
    {
      ghost var p, start := output[..outPos], outPos;
      for i := 0 to m
        invariant outPos == start + i && output[..start] == p
        invariant forall k :: start <= k < start + i ==> output[k] == w.data[k - start + from]
      {
        output[outPos] := w.data[from + i];
        outPos := outPos + 1;
      }
      assert output[outStart..outPos] == p[outStart..] + w.data[from..from + m];
    }

    /** m bytes of the window, in one piece, c bytes back from its end. */
    method FromWindow(from: nat, m: nat, ghost c: nat, ghost dist: nat)
      requires Buffers() && outPos + m <= output.Length && 1 <= c <= w.whave && dist == c + (outPos - outStart)
      requires if c > w.wnext then from == w.wsize - (c - w.wnext) && m <= c - w.wnext else from == w.wnext - c && m <= c
      modifies this`outPos, output
      ensures Buffers() && outPos == old(outPos) + m && dist <= |old(Reach())|
      ensures Reach() == CopyBack(old(Reach()), dist, m)
    {
      hide CopyBack, CircularWindow.Valid, CircularWindow.Content;
      WindowParts();
      ghost var v, p, content, piece := Reach(), output[outStart..outPos], w.Content(), w.data[from..from + m];
      w.Slice(c, from, m);
      CopyBytes(from, m);
      CopyFar(v, dist, m);
      PieceOf(content, p, w.whave - c, m, dist);
      Assoc(content, p, piece);
    }

    lemma PieceOf(content: seq<octet>, p: seq<octet>, i: nat, m: nat, dist: nat)
      requires i + m <= |content| && dist == |content| - i + |p|
      ensures var v := content + p; v[|v| - dist..|v| - dist + m] == content[i..i + m]
    {
    }

    lemma WindowParts()
      requires Buffers()
      ensures w.Shape() && outStart <= outPos <= output.Length && output != w.data
    {
    }

    /** m bytes of this call's output, dist back. */
    method FromOutput(dist: nat, m: nat)
      requires Buffers() && outPos + m <= output.Length && 1 <= dist <= outPos - outStart
      modifies this`outPos, output
      ensures Buffers() && outPos == old(outPos) + m && dist <= |old(Reach())|
      ensures Reach() == CopyBack(old(Reach()), dist, m)
    {
      hide Buffers, Reach, CopyBack;
      WindowParts();
      ghost var v, start := Reach(), outPos;
      OutputAt(dist);
      CopyNone(v, dist);
      for i := 0 to m
        invariant outPos == start + i && Buffers() && Reach() == CopyBack(v, dist, i)
      {
        CopyOneMore(v, dist, i);
        OutputAt(dist);
        PutByte(output[outPos - dist]);
      }
    }

    lemma OutputAt(dist: nat)
      requires Buffers() && 1 <= dist <= outPos - outStart
      ensures outPos <= output.Length && dist <= |Reach()| && Reach()[|Reach()| - dist] == output[outPos - dist]
    {
      hide CircularWindow.Valid, CircularWindow.Content;
      WindowParts();
    }

    /** The bytes of a match that lie in one piece, as far as there is room. */
    method CopySome(left: nat) returns (copy: nat)
      requires Buffers() && 1 <= offset <= w.whave + (outPos - outStart) && left == output.Length - outPos && left > 0 && length > 0
      modifies this`outPos, output
      ensures Buffers() && 1 <= copy <= length && outPos == old(outPos) + copy && offset <= |old(Reach())|
      ensures Reach() == CopyBack(old(Reach()), offset, copy)
    {
      hide CopyBack, CircularWindow.Valid;
      WindowParts();
      copy := outPos - outStart;
      if offset > copy {
        copy := offset - copy;
        ghost var c := copy;
        var from;
        if copy > w.wnext {
          copy := copy - w.wnext;
          from := w.wsize - copy;
        } else {
          from := w.wnext - copy;
        }
        if copy > length { copy := length; }
        if copy > left { copy := left; }
        FromWindow(from, copy, c, offset);
      } else {
        copy := length;
        if copy > left { copy := left; }
        FromOutput(offset, copy);
      }
    }

    /** MATCH: as much as there is room for, and as lies in one piece. */
    method MatchState() returns (ok: bool, ghost k: nat)
      requires Valid() && mode == MATCH
      modifies this`outPos, this`mode, this`length, output
      ensures Valid() && Abs() == if ok then Run(old(Abs()), k) else old(Abs())
      ensures ok ==> (outPos > old(outPos) && mode in {LEN, MATCH}) || (outPos == old(outPos) && mode == BAD)
      ensures !ok ==> outPos == output.Length
      ensures old(Tight()) ==> Tight()
    {
      hide CopyBack, In, Coded, Iterate, Next, CircularWindow.Valid, CircularWindow.Content, Unread;
      WindowParts();
      ghost var s := Abs();
      k := 1;
      ok := true;
      var left := output.Length - outPos;
      if left == 0 { return false, 0; }
      if offset > w.whave + (outPos - outStart) {
        mode := BAD;
        OneStep(s);
        TooFar(s);
        return;
      }
      var copy := CopySome(left);
      k := copy;
      length := length - copy;
      MatchSteps(lencode, lenbits, distcode, distbits, s, k);
      if length == 0 { mode := LEN; }
    }

    lemma TooFar(s: State)
      requires s.mode == MATCH && s.offset > |s.out|
      ensures Next(lencode, lenbits, distcode, distbits, s) == Clean(s.(mode := BAD))
    {
    }

    /** One state's turn. */
    method Step() returns (ok: bool, ghost j: nat)
      requires Valid() && mode != TYPE && mode != BAD
      modifies this`hold, this`bits, this`inPos, this`n, this`mode, this`length, this`extra, this`offset, this`outPos, output
      ensures Valid() && Abs() == if ok then Run(old(Abs()), j) else old(Abs())
      ensures !ok ==> inPos == |input| || outPos == output.Length
      ensures ok ==> Unread() < old(Unread())
                     || (Unread() == old(Unread())
                         && (outPos > old(outPos) || (outPos == old(outPos) && Rank(mode) < Rank(old(mode)))))
      ensures old(Tight()) ==> Tight()
    {
      hide In, Coded, Iterate, Buffers, ModeOk, Reach;
      j := 1;
      if mode == LEN {
        ok := LenState();
      } else if mode == LENEXT {
        ok := LenExtState();
      } else if mode == DIST {
        ok := DistState();
      } else if mode == DISTEXT {
        ok := DistExtState();
      } else if mode == LIT {
        ok := LitState();
      } else {
        ok, j := MatchState();
      }
    }

    /** The decoding states of inflate, until the block ends, or input or room runs out. */
    method Slow() returns (ghost k: nat)
      requires Valid()
      modifies this`hold, this`bits, this`inPos, this`n, this`mode, this`length, this`extra, this`offset, this`outPos, output
      ensures Valid() && Abs() == Run(old(Abs()), k) && (old(Tight()) ==> Tight())
      ensures mode in {TYPE, BAD} || inPos == |input| || outPos == output.Length
    {
      hide Tight, Valid, Buffers, Iterate, Run, Abs, Unread, Rank;
      k := 0;
      ValidBuffers();
      ghost var s := Abs();
      NoSteps(s);
      while mode != TYPE && mode != BAD
        invariant Valid() && Buffers() && Abs() == Run(s, k) && (old(Tight()) ==> Tight())
        decreases Unread(), output.Length - outPos, Rank(mode)
      {
        UnreadIs();
        var ok;
        ghost var j;
        ghost var s1 := Run(s, k);
        ok, j := Step();
        ValidBuffers();
        if !ok { return; }
        MoreSteps(s, k, j);
        k := k + j;
      }
    }

    lemma ValidBuffers()
      requires Valid()
      ensures Buffers()
    {
      hide In, Coded, ModeOk;
    }

    lemma UnreadIs()
      requires Valid()
      ensures Unread() >= 0 && outPos <= output.Length
    {
    }

    lemma NoSteps(s: State)
      ensures Run(s, 0) == s
    {
    }

    lemma MoreSteps(s: State, k: nat, j: nat)
      ensures Run(s, k + j) == Run(Run(s, k), j)
    {
      hide Next;
      IterateAdd(lencode, lenbits, distcode, distbits, s, k, j);
    }

    // ----- inflate_fast

    /** At least 15 bits in hold, if there are two bytes to take them from. */
    method Refill()
      requires In() && (bits < 15 ==> inPos + 2 <= |input|)
      modifies this`hold, this`bits, this`inPos
      ensures In() && bits >= 15 && Unread() == old(Unread()) && inPos >= old(inPos)
    {
      hide Reads;
      if bits < 15 {
        PullByte();
        PullByte();
      }
    }

    /** The look-up without checks: the root table, and the sub-table if need be. */
    method FastCode(table: seq<Code>, root: nat, dist: bool) returns (op: nat, val: nat, ghost e: Code)
      requires In() && TableOk(table, root, dist) && bits >= 15
      modifies this`hold, this`bits, this`n
      ensures In() && e == Entry(table, root, old(n)) && Known(e, dist) && op == e.op && val == e.val
      ensures n == Hi(old(n), e.bits) && bits == old(bits) - e.bits && Unread() == old(Unread()) - e.bits
    {
      hide Reads, Entry, Known, Lo, Hi, Prefixed, LooksUp;
      assert LooksUp(table, root, dist, hold);
      SubBits(table, root, dist, hold);
      e := Entry(table, root, hold);
      FoundEntry(table, root, dist, e);
      FastBounds(table, root, dist, hold);
      var here := table[Lo(hold, root)];
      ghost var n0, h0 := n, hold;
      DropBits(here.bits);
      op := here.op;
      if IsLink(here) {
        here := table[here.val + Lo(hold, op)];
        DropBits(here.bits);
        HiHi(n0, root, here.bits);
        op := here.op;
      }
      val := here.val;
    }

    /** A length or a distance with its extra bits. */
    method FastExtra(base: nat, x: nat) returns (v: nat)
      requires In() && x <= 15 && bits >= x
      modifies this`hold, this`bits, this`n
      ensures In() && v == base + Lo(old(n), x) && n == Hi(old(n), x) && Unread() == old(Unread()) - x
    {
      hide Reads, Lo, Hi;
      v := Peek(x);
      v := base + v;
      DropBits(x);
    }

    /** The copy of inflate_fast: from the end of the window, from its start, and from the output, as need be. */
    method FastCopy(dist: nat, len0: nat)
      requires Buffers() && 1 <= dist <= w.whave + (outPos - outStart) && outPos + len0 <= output.Length
      modifies this`outPos, output
      ensures Buffers() && outPos == old(outPos) + len0 && dist <= |old(Reach())|
      ensures Reach() == CopyBack(old(Reach()), dist, len0)
    {
      hide CircularWindow.Content, CircularWindow.Shape, CircularWindow.Valid, CopyBack, Reach;
      WindowParts();
      ghost var v := Reach();
      var op := outPos - outStart;
      var len := len0;
      if dist <= op {
        FromOutput(dist, len);
        return;
      }
      op := dist - op;
      if w.wnext == 0 {
        var from := w.wsize - op;
        if op < len {
          len := len - op;
          FromWindow(from, op, op, dist);
          CopyTwice(v, dist, op, len);
          FromOutput(dist, len);
        } else {
          FromWindow(from, len, op, dist);
        }
      } else if w.wnext < op {
        var from := w.wsize + w.wnext - op;
        ghost var c := op;
        op := op - w.wnext;
        if op < len {
          len := len - op;
          FromWindow(from, op, c, dist);
          CopyTwice(v, dist, op, len);
          FastWrap(dist, len);
        } else {
          FromWindow(from, len, c, dist);
        }
      } else {
        var from := w.wnext - op;
        if op < len {
          len := len - op;
          FromWindow(from, op, op, dist);
          CopyTwice(v, dist, op, len);
          FromOutput(dist, len);
        } else {
          FromWindow(from, len, op, dist);
        }
      }
    }

    /** The rest of a copy that has come to the end of the window's storage. */
    method FastWrap(dist: nat, len0: nat)
      requires Buffers() && 1 <= w.wnext <= w.whave && dist == w.wnext + (outPos - outStart) && outPos + len0 <= output.Length
      modifies this`outPos, output
      ensures Buffers() && outPos == old(outPos) + len0 && dist <= |old(Reach())|
      ensures Reach() == CopyBack(old(Reach()), dist, len0)
    {
      hide CopyBack, CircularWindow.Valid, CircularWindow.Content;
      WindowParts();
      ghost var v := Reach();
      var len := len0;
      if w.wnext < len {
        var op := w.wnext;
        len := len - op;
        FromWindow(0, op, op, dist);
        CopyTwice(v, dist, op, len);
        FromOutput(dist, len);
      } else {
        FromWindow(0, len, w.wnext, dist);
      }
    }

    /** The extra bits of a length, after its code. */
    method FastLength(val: nat, op: nat, ghost s: State, ghost e: Code) returns (len: nat)
      requires In() && s.mode == LEN && Clean(s) == s && e == Entry(lencode, lenbits, s.n) && IsLength(e)
      requires n == Hi(s.n, e.bits) && Unread() == s.t - e.bits && Held() >= 33 && val == e.val && op == e.op
      modifies this`hold, this`bits, this`inPos, this`n
      ensures In() && MIN_MATCH <= len <= MAX_MATCH && Held() >= 28 && Unread() <= s.t - e.bits && n == Hi(s.n, s.t - Unread())
      ensures inPos >= old(inPos)
      ensures Run(s, 2) == s.(mode := DIST, n := n, t := Unread(), length := len)
    {
      hide Reads, Iterate, Next, Stepped, Entry, Lo, Hi, Pow2, IsLength;
      LengthRange(e);
      LengthSteps(lencode, lenbits, distcode, distbits, s, e);
      var x := op % 16;
      if x > 0 && bits < x { PullByte(); }
      BelowPower(n, x);
      len := FastExtra(val, x);
      HiHi(s.n, e.bits, x);
    }

    /** The extra bits of a distance, after its code. */
    method FastDistance(val: nat, op: nat, ghost s: State, ghost e: Code) returns (dist: nat)
      requires In() && s.mode == DIST && Clean(s) == s && e == Entry(distcode, distbits, s.n) && IsDistance(e)
      requires n == Hi(s.n, e.bits) && Unread() == s.t - e.bits && e.bits >= 1 && Held() >= 13 && val == e.val && op == e.op
      modifies this`hold, this`bits, this`inPos, this`n
      ensures In() && dist >= 1 && Unread() < s.t && n == Hi(s.n, s.t - Unread()) && inPos >= old(inPos)
      ensures Run(s, 2) == s.(mode := MATCH, n := n, t := Unread(), offset := dist)
    {
      hide Reads, Iterate, Next, Stepped, Entry, Lo, Hi, Pow2;
      DistanceSteps(lencode, lenbits, distcode, distbits, s, e);
      var x := op % 16;
      if bits < x {
        PullByte();
        if bits < x { PullByte(); }
      }
      dist := FastExtra(val, x);
      HiHi(s.n, e.bits, x);
    }

    /** The copy, when what it copies is within reach. */
    method FastFinish(dist: nat, len: nat, ghost s: State) returns (ghost k: nat)
      requires Buffers() && mode == LEN && output.Length - outPos >= MAX_MATCH && dist >= 1 && MIN_MATCH <= len <= MAX_MATCH
      requires s == State(MATCH, len, 0, dist, n, Unread(), Reach())
      modifies this`mode, this`outPos, output
      ensures Buffers() && mode in {LEN, BAD} && Abs() == Run(s, k)
    {
      hide CopyBack, Iterate, Next, Stepped, CircularWindow.Valid, CircularWindow.Content, Unread;
      WindowParts();
      if dist > w.whave + (outPos - outStart) {
        mode := BAD;
        TooFarStep(lencode, lenbits, distcode, distbits, s);
        k := 1;
      } else {
        FastCopy(dist, len);
        MatchSteps(lencode, lenbits, distcode, distbits, s, len);
        k := len;
      }
    }

    /** The distance of a match, and the copy. */
    method FastMatch(len: nat, ghost s: State) returns (ghost k: nat)
      requires Buffers() && In() && Coded() && mode == LEN && output.Length - outPos >= MAX_MATCH
      requires s == State(DIST, len, 0, 0, n, Unread(), Reach()) && Held() >= 28 && MIN_MATCH <= len <= MAX_MATCH
      modifies this`hold, this`bits, this`inPos, this`n, this`mode, this`outPos, output
      ensures Buffers() && In() && mode in {LEN, BAD} && Abs() == Run(s, k)
      ensures Unread() < s.t && n == Hi(s.n, s.t - Unread()) && inPos >= old(inPos)
    {
      hide Reads, TableOk, Iterate, Next, Stepped, Entry, Lo, Hi, Pow2, Known, Coded, Buffers, Reach, Run, Abs;
      CodedParts();
      RoomForTwo();
      Refill();
      var op, val;
      ghost var e;
      op, val, e := FastCode(distcode, distbits, true);
      FastDistKinds(e);
      if op / 16 % 2 == 1 {
        k := FastFar(val, op, len, s, e);
      } else {
        mode := BAD;
        BadDistance(s, e);
        k := 1;
      }
    }

    /** The distance's extra bits, and the copy. */
    method FastFar(val: nat, op: nat, len: nat, ghost s: State, ghost e: Code) returns (ghost k: nat)
      requires Buffers() && In() && mode == LEN && output.Length - outPos >= MAX_MATCH && MIN_MATCH <= len <= MAX_MATCH
      requires s == State(DIST, len, 0, 0, s.n, s.t, Reach()) && e == Entry(distcode, distbits, s.n) && IsDistance(e)
      requires n == Hi(s.n, e.bits) && Unread() == s.t - e.bits && e.bits >= 1 && Held() >= 13 && val == e.val && op == e.op
      modifies this`hold, this`bits, this`inPos, this`n, this`mode, this`outPos, output
      ensures Buffers() && In() && mode in {LEN, BAD} && Abs() == Run(s, k)
      ensures Unread() < s.t && n == Hi(s.n, s.t - Unread()) && inPos >= old(inPos)
    {
      hide Reads, Iterate, Next, Stepped, Entry, Lo, Hi, Pow2, Buffers, Reach, Run, Abs, In;
      var dist := FastDistance(val, op, s, e);
      ghost var s2 := Run(s, 2);
      k := FastFinish(dist, len, s2);
      MoreSteps(s, 2, k);
      k := 2 + k;
    }

    /** 28 bits are two bytes of input, or 15 bits in hold. */
    lemma RoomForTwo()
      requires In() && Held() >= 28
      ensures bits < 15 ==> inPos + 2 <= |input|
    {
      hide Reads;
    }

    lemma BadDistance(s: State, e: Code)
      requires s.mode == DIST && Clean(s) == s && e == Entry(distcode, distbits, s.n) && IsInvalid(e) && Buffers() && mode == BAD
      requires n == Hi(s.n, e.bits) && Unread() == s.t - e.bits && s.out == Reach()
      ensures Abs() == Run(s, 1)
    {
      hide Iterate, Next, Stepped, Entry, Lo, Hi, Buffers, Reach, Unread;
      NoDistance(lencode, lenbits, distcode, distbits, s, e);
    }

    /** One turn of inflate_fast: a literal, a match, or the end. Six bytes of input and 258 of room are enough for it. */
    method FastSymbol() returns (ghost k: nat)
      requires Valid() && mode == LEN && |input| - inPos >= 6 && output.Length - outPos >= MAX_MATCH
      modifies this`hold, this`bits, this`inPos, this`n, this`mode, this`outPos, output
      ensures Valid() && mode in {LEN, TYPE, BAD} && Abs() == Run(old(Abs()), k)
      ensures Unread() < old(Unread()) && n == Hi(old(n), old(Unread()) - Unread()) && inPos >= old(inPos)
      ensures Unread() <= old(Unread() - Entry(lencode, lenbits, n).bits) && k >= 1
    {
      hide Reads, TableOk, Iterate, Next, Stepped, Entry, Lo, Hi, Pow2, Known, Coded, IsLength, Buffers, Reach, Run,
        CircularWindow.Content, Abs, In, Clean;
      SymbolStart();
      ghost var s := Abs();
      RoomForTwo();
      Refill();
      var op, val;
      ghost var e;
      op, val, e := FastCode(lencode, lenbits, false);
      FastLenKinds(e);
      if op == 0 {
        FastLiteral(val, s, e);
        k := 2;
      } else if op / 16 % 2 == 1 {
        k := FastPair(val, op, s, e);
      } else {
        mode := if op / 32 % 2 == 1 then TYPE else BAD;
        BlockEnds(s, e);
        k := 1;
      }
      SymbolEnd();
    }

    lemma SymbolEnd()
      requires Buffers() && In() && Coded() && mode in {LEN, TYPE, BAD}
      ensures Valid()
    {
      hide Buffers, In, Coded;
    }

    /** A literal. */
    method FastLiteral(val: nat, ghost s: State, ghost e: Code)
      requires Buffers() && mode == LEN && output.Length - outPos >= MAX_MATCH
      requires s.mode == LEN && Clean(s) == s && e == Entry(lencode, lenbits, s.n) && IsLiteral(e) && s.out == Reach()
      requires n == Hi(s.n, e.bits) && Unread() == s.t - e.bits && val == e.val
      modifies this`outPos, output
      ensures Buffers() && Abs() == Run(s, 2)
    {
      hide Iterate, Next, Stepped, Entry, Lo, Hi, Buffers, Reach, Run, Abs, Unread;
      RoomForOne();
      PutByte(val % 256);
      OneLiteral(s, e);
    }

    lemma SymbolStart()
      requires Valid() && mode == LEN && |input| - inPos >= 6
      ensures Buffers() && In() && Coded() && TableOk(lencode, lenbits, false) && Held() >= 48 && bits <= 32 && inPos <= |input|
      ensures Abs() == State(LEN, 0, 0, 0, n, Unread(), Reach()) && Clean(Abs()) == Abs()
    {
      hide Reads, TableOk, Reach;
    }

    /** A match, after the code of its length. */
    method FastPair(val: nat, op: nat, ghost s: State, ghost e: Code) returns (ghost k: nat)
      requires Buffers() && In() && Coded() && mode == LEN && output.Length - outPos >= MAX_MATCH
      requires s.mode == LEN && Clean(s) == s && e == Entry(lencode, lenbits, s.n) && IsLength(e) && s.out == Reach()
      requires n == Hi(s.n, e.bits) && Unread() == s.t - e.bits && Held() >= 33 && val == e.val && op == e.op
      modifies this`hold, this`bits, this`inPos, this`n, this`mode, this`outPos, output
      ensures Buffers() && In() && mode in {LEN, BAD} && Abs() == Run(s, k) && k >= 1 && inPos >= old(inPos)
      ensures Unread() < s.t && Unread() <= s.t - e.bits && n == Hi(s.n, s.t - Unread())
    {
      hide Reads, Iterate, Next, Stepped, Entry, Lo, Hi, Pow2, Coded, IsLength, Buffers, Reach, Run, In, Abs;
      var len := FastLength(val, op, s, e);
      ghost var s2 := Run(s, 2);
      k := FastMatch(len, s2);
      HiHi(s.n, s.t - s2.t, s2.t - Unread());
      MoreSteps(s, 2, k);
      k := 2 + k;
    }

    lemma RoomForOne()
      requires Buffers() && output.Length - outPos >= MAX_MATCH
      ensures outPos < output.Length
    {
    }

    lemma OneLiteral(s: State, e: Code)
      requires s.mode == LEN && Clean(s) == s && e == Entry(lencode, lenbits, s.n) && IsLiteral(e) && Buffers() && mode == LEN
      requires n == Hi(s.n, e.bits) && Unread() == s.t - e.bits && Reach() == s.out + [e.val % 256]
      ensures Abs() == Run(s, 2)
    {
      hide Iterate, Next, Stepped, Entry, Lo, Hi, Buffers, Reach, Unread;
      LiteralSteps(lencode, lenbits, distcode, distbits, s, e);
    }

    lemma BlockEnds(s: State, e: Code)
      requires s.mode == LEN && Clean(s) == s && e == Entry(lencode, lenbits, s.n) && (IsEnd(e) || IsInvalid(e)) && Buffers()
      requires mode == (if IsEnd(e) then TYPE else BAD)
      requires n == Hi(s.n, e.bits) && Unread() == s.t - e.bits && Reach() == s.out
      ensures Abs() == Run(s, 1)
    {
      hide Iterate, Next, Stepped, Entry, Lo, Hi, Buffers, Reach, Unread;
      EndSteps(lencode, lenbits, distcode, distbits, s, e);
    }

    lemma FirstBits()
      requires Valid()
      ensures Hi(n, bits) == LE(stream[inPos..]) && inPos <= |stream|
    {
      hide Buffers, Coded, ModeOk, LE, Hi, Lo;
    }

    /** The whole bytes in hold go back to the input. */
    method GiveBack(ghost n0: nat, ghost t0: int, ghost bits0: nat, ghost in0: nat)
      requires Valid() && Buffers() && in0 <= inPos && Hi(n0, bits0) == LE(stream[in0..]) && bits0 < t0 - Unread() + 8
      requires t0 == bits0 + 8 * (|stream| - in0) && Unread() <= t0 && n == Hi(n0, t0 - Unread())
      modifies this`hold, this`bits, this`inPos
      ensures Valid() && Buffers() && Abs() == old(Abs()) && Unread() == old(Unread())
      ensures bits < 8 && in0 <= inPos && old(inPos) - inPos <= 4
    {
      hide Coded, ModeOk, LE, Hi, Lo, Reach, CircularWindow.Valid;
      GivenBack(n0, bits0, in0, n, t0 - Unread(), hold, bits, stream, inPos);
      var len := bits / 8;
      inPos := inPos - len;
      bits := bits - 8 * len;
      hold := Lo(hold, bits);
    }

    /** What is held when inflate_fast begins is less than 8 bits, or less than the first code. */
    lemma FirstCode()
      requires Valid() && mode == LEN && Tight()
      ensures bits < 8 || Entry(lencode, lenbits, n).bits > bits
    {
      hide Reads, Entry, Lo, Hi, TableOk, Buffers, ModeOk;
      if bits >= 8 { NotEnough(lencode, lenbits, false, n, hold, bits, stream, inPos); }
    }

    /** inflate_fast: symbol after symbol without a check in between, and the unused bytes given back. It takes the steps of
        the states, and leaves every bit that it has not used unread. */
    method InflateFast() returns (ghost k: nat)
      requires Valid() && mode == LEN && |input| - inPos >= 6 && output.Length - outPos >= MAX_MATCH && Tight()
      modifies this`hold, this`bits, this`inPos, this`n, this`mode, this`outPos, output
      ensures Valid() && mode in {LEN, TYPE, BAD} && Abs() == Run(old(Abs()), k)
      ensures bits < 8 && inPos >= old(inPos) && Unread() < old(Unread())
      ensures mode == LEN ==> |input| - inPos < 6 + 4 || output.Length - outPos < MAX_MATCH
    {
      hide Valid, Buffers, Iterate, Run, Abs, Hi, Entry, Tight;
      ValidBuffers();
      ghost var s, n0, t0 := Abs(), n, Unread();
      NoSteps(s);
      NoBits(n);
      FirstBits();
      FirstCode();
      ghost var first := Entry(lencode, lenbits, n).bits;
      k := 0;
      while true
        invariant Valid() && Buffers() && mode == LEN && Abs() == Run(s, k)
        invariant |input| - inPos >= 6 && output.Length - outPos >= MAX_MATCH && inPos >= old(inPos)
        invariant k == 0 ==> n == n0 && Unread() == t0
        invariant Unread() <= t0 && n == Hi(n0, t0 - Unread()) && (k > 0 ==> Unread() <= t0 - first && Unread() < t0)
        decreases Unread()
      {
        UnreadIs();
        ghost var n1, t1 := n, Unread();
        ghost var s1 := Run(s, k);
        ghost var j := FastSymbol();
        ValidBuffers();
        MoreSteps(s, k, j);
        k := k + j;
        HiHi(n0, t0 - t1, t1 - Unread());
        if mode != LEN { break; }
        if !(|input| - inPos >= 6 && output.Length - outPos >= MAX_MATCH) { break; }
      }
      UnreadIs();
      FirstBits();
      GiveBack(n0, t0, old(bits), old(inPos));
    }

    // ----- a call of inflate, and any run of calls

    /** Where the decoder is, with all the output that it has ever made. */
    ghost function Whole(): State
      reads this, output
      requires outStart <= outPos <= output.Length
    {
      Clean(State(mode, length, extra, offset, n, Unread(), before + output[outStart..outPos]))
    }

    /** A call's input: the bytes that are unread so far, as many as there are by now. And its output buffer. */
    method Provide(more: seq<octet>, out: array<octet>, from: nat)
      requires Valid() && Kept() && Tight() && outStart == outPos && more <= stream[inPos..] && out != w.data && from <= out.Length
      modifies this`input, this`stream, this`inPos, this`output, this`outStart, this`outPos
      ensures Valid() && Kept() && Tight() && Whole() == old(Whole()) && Abs() == old(Abs())
      ensures input == more && stream == old(stream[inPos..]) && inPos == 0 && output == out && outStart == outPos == from
    {
      hide Clean, Coded, Entry, LE, Reads, ModeOk, CircularWindow.Valid, CircularWindow.Content;
      WindowParts();
      SameReads(n, hold, bits, stream, inPos);
      NothingMade();
      input, stream, inPos := more, stream[inPos..], 0;
      output, outStart, outPos := out, from, from;
      NothingMade();
    }

    /** As long as symbols go on: fast where there is enough of everything, and otherwise state by state. */
    method Decode() returns (ghost k: nat)
      requires Valid() && Tight()
      modifies this`hold, this`bits, this`inPos, this`n, this`mode, this`length, this`extra, this`offset, this`outPos, output
      ensures Valid() && Tight() && Abs() == Run(old(Abs()), k)
      ensures mode in {TYPE, BAD} || inPos == |input| || outPos == output.Length
    {
      hide Tight, Valid, Buffers, Iterate, Run, Abs, Unread, Rank, Entry;
      k := 0;
      ValidBuffers();
      ghost var s := Abs();
      NoSteps(s);
      while mode != TYPE && mode != BAD
        invariant Valid() && Buffers() && Abs() == Run(s, k) && Tight()
        decreases Unread(), output.Length - outPos, Rank(mode)
      {
        UnreadIs();
        var ok := true;
        ghost var j;
        ghost var s1 := Run(s, k);
        if mode == LEN && |input| - inPos >= 6 && output.Length - outPos >= MAX_MATCH {
          j := InflateFast();
          FewBits();
        } else {
          ok, j := Step();
        }
        ValidBuffers();
        if !ok { return; }
        MoreSteps(s, k, j);
        k := k + j;
      }
    }

    lemma FewBits()
      requires bits < 8
      ensures Tight()
    {
      hide Entry;
    }

    /** inf_leave: the window gets the call's output. */
    method Leave()
      requires Valid() && Kept()
      modifies this`before, this`outStart, w`wsize, w`whave, w`wnext, w`history, w.data
      ensures Valid() && Kept() && outStart == outPos && Whole() == old(Whole())
      ensures before == old(before + output[outStart..outPos])
    {
      hide In, Coded, ModeOk, Clean, Unread, LastOf, CircularWindow.Valid, CircularWindow.Content, CircularWindow.Shape;
      ghost var made := output[outStart..outPos];
      if w.wsize != 0 || (outPos != outStart && mode != BAD) {
        w.Update(output, outPos, outPos - outStart);
      }
      before := before + made;
      outStart := outPos;
      assert before + output[outStart..outPos] == before;
    }

    /** The output of earlier calls that the window has no more. */
    lemma OutOfReach() returns (x: seq<octet>)
      requires Buffers() && w.history == before
      ensures before == x + w.Content() && (x == [] || |w.Content()| >= w.data.Length)
    {
      x := before[..|before| - |w.Content()|];
    }

    lemma WholeIs(x: seq<octet>)
      requires Buffers() && before == x + w.Content() && (x == [] || |w.Content()| >= w.data.Length)
      ensures Knows(Whole(), Abs(), x, w.data.Length)
      ensures Whole() == Abs().(out := x + Abs().out)
    {
      hide CircularWindow.Valid, CircularWindow.Content, Unread;
      WindowParts();
      Assoc(x, w.Content(), output[outStart..outPos]);
    }

    lemma NothingMade()
      requires Buffers() && outStart == outPos
      ensures Whole() == Clean(State(mode, length, extra, offset, n, Unread(), before))
      ensures Abs() == Clean(State(mode, length, extra, offset, n, Unread(), w.Content()))
    {
      hide Clean, CircularWindow.Content, Unread;
      assert before + output[outStart..outPos] == before;
      assert w.Content() + output[outStart..outPos] == w.Content();
    }

    /** The decoding of one call: the steps of the machine that has made all the output. */
    method Turn() returns (ghost k: nat)
      requires Valid() && Kept() && Tight()
      modifies this`hold, this`bits, this`inPos, this`n, this`mode, this`length, this`extra, this`offset, this`outPos, output
      ensures Valid() && Kept() && Tight() && old(outStart) <= outPos <= output.Length
      ensures mode in {TYPE, BAD} || inPos == |input| || outPos == output.Length
      ensures AllNear(lencode, lenbits, distcode, distbits, old(Whole()), k, w.data.Length) ==> Whole() == Run(old(Whole()), k)
      ensures Abs() == Run(old(Abs()), k)
    {
      hide Valid, Buffers, Iterate, Abs, Whole, Unread, Entry, Tight, AllNear, CircularWindow.Content, Knows;
      ValidBuffers();
      WindowParts();
      ghost var whole := Whole();
      k := 0;
      if mode == BAD {
        NoSteps(whole);
        NoSteps(Abs());
        return;
      }
      ghost var s, size, content := Abs(), w.data.Length, w.Content();
      ghost var x := OutOfReach();
      WholeIs(x);
      k := Decode();
      ValidBuffers();
      WindowParts();
      WholeIs(x);
      if AllNear(lencode, lenbits, distcode, distbits, whole, k, size) {
        KnowsRun(lencode, lenbits, distcode, distbits, whole, s, x, size, k);
        KnowsSame(Run(whole, k), Whole(), Abs(), x, size);
      }
    }

    /** One call of inflate. Whatever input and room each call gets, a run of calls takes the steps of one and the same machine
        over all the input, as long as no distance is greater than the window. And in any case a call takes the steps of the
        machine that has the window's content for all the output before the call. */
    method Inflate(more: seq<octet>, out: array<octet>, from: nat) returns (ghost k: nat)
      requires Valid() && Kept() && Tight() && outStart == outPos && more <= stream[inPos..] && out != w.data && from <= out.Length
      modifies this`hold, this`bits, this`inPos, this`n, this`mode, this`length, this`extra, this`offset, this`outPos, this`output,
               this`input, this`stream, this`outStart, this`before, out, w`wsize, w`whave, w`wnext, w`history, w.data
      ensures Valid() && Kept() && Tight() && outStart == outPos && from <= outPos <= output.Length && output == out
      ensures input == more && stream == old(stream[inPos..]) && before == old(before) + out[from..outPos]
      ensures mode in {TYPE, BAD} || inPos == |more| || outPos == out.Length
      ensures AllNear(lencode, lenbits, distcode, distbits, old(Whole()), k, w.data.Length) ==> Whole() == Run(old(Whole()), k)
      ensures Run(old(Abs()), k) ==
              Clean(State(mode, length, extra, offset, n, Unread(), old(w.Content()) + out[from..outPos]))
    {
      hide Valid, Buffers, Iterate, Run, Whole, Unread, Entry, Tight, AllNear, Kept;
      ValidBuffers();
      WindowParts();
      ghost var whole := Whole();
      Provide(more, out, from);
      k := Turn();
      ValidBuffers();
      ghost var made, windowed := out[from..outPos], Abs();
      assert windowed == Clean(State(mode, length, extra, offset, n, Unread(), old(w.Content()) + made));
      Leave();
    }
  }

  lemma KnowsSame(a: State, b: State, s: State, x: seq<octet>, size: nat)
    requires Knows(a, s, x, size) && Knows(b, s, x, size)
    ensures a == b
  {
  }

  lemma SameReads(n: nat, hold: nat, bits: nat, stream: seq<octet>, pos: nat)
    requires Reads(n, hold, bits, stream, pos)
    ensures Reads(n, hold, bits, stream[pos..], 0)
  {
    hide Lo, Hi, LE;
    assert stream[pos..][0..] == stream[pos..];
  }

  lemma CopyOneMore(v: seq<octet>, dist: nat, i: nat)
    requires 1 <= dist <= |v|
    ensures CopyBack(v, dist, i + 1) == CopyBack(v, dist, i) + [CopyBack(v, dist, i)[|v| + i - dist]]
  {
    CopyTwice(v, dist, i, 1);
    var r := CopyBack(v, dist, i);
    CopyOne(r, dist, 1);
    CopyNone(r + [r[|r| - dist]], dist);
  }

  lemma ReadsFirst(hold: nat, bits: nat, stream: seq<octet>)
    requires hold < Pow2(bits)
    ensures Reads(hold + Pow2(bits) * LE(stream), hold, bits, stream, 0)
  {
    hide Pow2, LE;
    ModPlus(hold, Pow2(bits), LE(stream));
    ModSmall(hold, Pow2(bits));
    assert stream[0..] == stream;
  }

  lemma ModSmall(x: nat, m: nat)
    requires x < m
    ensures x % m == x && x / m == 0
  {
  }

  /** A root entry stands for at most 15 bits, and is a link exactly when its op says so. */
  lemma RootEntryBits(table: seq<Code>, root: nat, dist: bool, h: nat)
    requires LooksUp(table, root, dist, h) && 1 <= root <= MAXBITS
    ensures table[Lo(h, root)].bits <= MAXBITS
    ensures IsLink(table[Lo(h, root)]) <==>
            if dist then NoHighBits(table[Lo(h, root)].op) else table[Lo(h, root)].op != 0 && NoHighBits(table[Lo(h, root)].op)
    ensures !IsLink(table[Lo(h, root)]) ==> Entry(table, root, h) == table[Lo(h, root)]
    ensures Entry(table, root, h).bits >= table[Lo(h, root)].bits
  {
    hide Lo, Hi, Pow2;
  }

  lemma LinkCertain(table: seq<Code>, root: nat, dist: bool, n: nat, hold: nat, bits: nat, input: seq<octet>, pos: nat)
    requires LooksUp(table, root, dist, hold) && IsLink(table[Lo(hold, root)])
    ensures table[Lo(hold, root)].bits == root
  {
    hide Lo, Hi, Pow2;
  }

  /** The index of a sub-table entry, as computed: within the table, and that of the look-up. */
  lemma SubIndex(table: seq<Code>, root: nat, dist: bool, h: nat)
    requires LooksUp(table, root, dist, h) && IsLink(table[Lo(h, root)])
    ensures var last := table[Lo(h, root)]; var i := last.val + Hi(Lo(h, last.bits + last.op), last.bits);
            && i < |table| && last.bits == root
            && Entry(table, root, h) == Code(table[i].op, last.bits + table[i].bits, table[i].val)
  {
    hide Lo, Hi, Pow2;
    var last := table[Lo(h, root)];
    SplitMod(h, last.bits, last.bits + last.op);
  }

  lemma SubBits(table: seq<Code>, root: nat, dist: bool, h: nat)
    requires LooksUp(table, root, dist, h)
    ensures Entry(table, root, h).bits <= MAXBITS
  {
    hide Lo, Hi, Pow2, Entry;
  }

  /** The kinds of length entries, as the decoder tells them apart. */
  lemma LenKinds(e: Code)
    requires Known(e, false)
    ensures e.op == 0 ==> e.val < 256
    ensures e.op != 0 && e.op / 32 % 2 == 1 ==> IsEnd(e)
    ensures e.op != 0 && e.op / 32 % 2 == 0 && e.op / 64 % 2 == 1 ==> IsInvalid(e) && !IsEnd(e)
    ensures e.op != 0 && e.op / 32 % 2 == 0 && e.op / 64 % 2 == 0 ==>
              16 <= e.op <= 21 && MIN_MATCH <= e.val && e.val + Pow2(e.op % 16) <= MAX_MATCH + 1
  {
    hide Pow2;
  }

  lemma DistKinds(e: Code)
    requires Known(e, true)
    ensures e.op / 64 % 2 == 1 <==> IsInvalid(e)
    ensures !IsInvalid(e) ==> 16 <= e.op <= 29 && e.val >= 1
  {
  }

  lemma NoBits(n: nat)
    ensures Hi(n, 0) == n && Lo(n, 0) == 0
  {
    assert Pow2(0) == 1;
  }

  lemma BelowPower(n: nat, k: nat)
    ensures Lo(n, k) < Pow2(k)
  {
  }

  /** What is left of a symbol, when no bits are used and no output is made. */
  function Rank(m: Mode): nat
  {
    match m
    case LENEXT => 5
    case DIST => 4
    case DISTEXT => 3
    case MATCH => 2
    case LIT => 2
    case LEN => 1
    case _ => 0
  }

  /** The entries that a look-up without checks reads. */
  lemma FastBounds(table: seq<Code>, root: nat, dist: bool, h: nat)
    requires LooksUp(table, root, dist, h)
    ensures Lo(h, root) < |table|
    ensures var here := table[Lo(h, root)]; var e := Entry(table, root, h);
            if IsLink(here) then
              var i := here.val + Lo(Hi(h, here.bits), here.op);
              here.bits == root && i < |table| && e == Code(table[i].op, root + table[i].bits, table[i].val)
            else e == here
  {
    hide Lo, Hi, Pow2;
  }

  lemma LengthRange(e: Code)
    requires IsLength(e)
    ensures 16 <= e.op <= 21 && MIN_MATCH <= e.val && e.val + Pow2(e.op - 16) <= MAX_MATCH + 1
  {
    hide Pow2;
  }

  /** The kinds of entries, as inflate_fast tells them apart. */
  lemma FastLenKinds(e: Code)
    requires Known(e, false)
    ensures 1 <= e.bits <= MAXBITS && (e.op == 0 ==> IsLiteral(e))
    ensures e.op != 0 ==> (e.op / 16 % 2 == 1 <==> IsLength(e))
    ensures e.op != 0 && e.op / 16 % 2 == 0 ==> (e.op / 32 % 2 == 1 <==> IsEnd(e)) && (IsEnd(e) || IsInvalid(e))
  {
    hide Pow2;
  }

  lemma FastDistKinds(e: Code)
    requires Known(e, true)
    ensures 1 <= e.bits <= MAXBITS && (if e.op / 16 % 2 == 1 then IsDistance(e) else IsInvalid(e))
  {
  }
}
