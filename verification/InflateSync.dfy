/** inflateSync: the search for the four bytes that end an empty stored block, over any number of pieces of input, the first of
    them the bytes still held. */
module InflateSync {
  import opened Octets
  import opened Bits
  import opened CanonicalCode

  const MARK: seq<octet> := [0, 0, 0xff, 0xff]

  /** s ends with the first k bytes of the mark. */
  predicate EndsWith(s: seq<octet>, k: nat)
    requires k <= 4
  {
    k <= |s| && s[|s| - k..] == MARK[..k]
  }

  /** The most bytes of the mark that s ends with. */
  function Longest(s: seq<octet>): nat
  {
    if EndsWith(s, 4) then 4 else if EndsWith(s, 3) then 3 else if EndsWith(s, 2) then 2 else if EndsWith(s, 1) then 1 else 0
  }

  /** The mark is not in s. */
  ghost predicate NotYet(s: seq<octet>)
  {
    forall i :: 0 <= i <= |s| ==> !EndsWith(s[..i], 4)
  }

  /** What the search makes of one more byte. */
  function After(got: nat, x: octet): nat
  {
    if x == (if got < 2 then 0 else 0xff) then got + 1 else if x != 0 then 0 else if got <= 4 then 4 - got else 0
  }

  lemma EndsMore(s: seq<octet>, x: octet, k: nat)
    requires 1 <= k <= 4
    ensures EndsWith(s + [x], k) <==> EndsWith(s, k - 1) && x == MARK[k - 1]
  {
    var t := s + [x];
    if k <= |t| {
      assert t[|t| - k..] == s[|s| - (k - 1)..] + [x];
      assert MARK[..k] == MARK[..k - 1] + [MARK[k - 1]];
      assert t[|t| - k..][..k - 1] == s[|s| - (k - 1)..] && t[|t| - k..][k - 1] == x;
    }
  }

  /** Two zeros end with one. */
  lemma Shorter(s: seq<octet>)
    ensures EndsWith(s, 0)
    ensures EndsWith(s, 2) ==> EndsWith(s, 1)
    ensures EndsWith(s, 3) ==> !EndsWith(s, 1) && !EndsWith(s, 2)
  {
    if EndsWith(s, 2) { assert s[|s| - 2..][1] == s[|s| - 1]; }
    if EndsWith(s, 3) { assert s[|s| - 3..][2] == s[|s| - 1]; }
  }

  lemma OneByte(s: seq<octet>, x: octet)
    requires !EndsWith(s, 4)
    ensures Longest(s + [x]) == After(Longest(s), x)
  {
    hide EndsWith;
    Shorter(s);
    EndsMore(s, x, 1);
    EndsMore(s, x, 2);
    EndsMore(s, x, 3);
    EndsMore(s, x, 4);
  }

  /** have is what was found of the mark in seen, all that has been searched before; the search goes on through buf and stops
      right behind the first mark, wherever the pieces of input were cut. */
  method SyncSearch(have: nat, buf: seq<octet>, ghost seen: seq<octet>) returns (got: nat, next: nat)
    requires have == Longest(seen) && (have < 4 ==> NotYet(seen))
    ensures next <= |buf| && got == Longest(seen + buf[..next])
    ensures got < 4 ==> next == |buf| && NotYet(seen + buf)
    ensures got == 4 && have < 4 ==> next > 0 && NotYet(seen + buf[..next - 1])
    ensures have == 4 ==> next == 0
  {
    hide Longest, EndsWith;
    got := have;
    next := 0;
    assert seen + buf[..0] == seen;
    while next < |buf| && got < 4
      invariant 0 <= next <= |buf| && got == Longest(seen + buf[..next]) && (have == 4 ==> next == 0)
      invariant got < 4 ==> NotYet(seen + buf[..next])
      invariant got == 4 && have < 4 ==> next > 0 && NotYet(seen + buf[..next - 1])
    {
      ghost var s := seen + buf[..next];
      assert s + [buf[next]] == seen + buf[..next + 1] && s[..|s|] == s;
      OneByte(s, buf[next]);
      if buf[next] == (if got < 2 then 0 else 0xff) {
        got := got + 1;
      } else if buf[next] != 0 {
        got := 0;
      } else {
        got := 4 - got;
      }
      Found(s, buf[next]);
      next := next + 1;
    }
    if next == |buf| { assert buf[..next] == buf; }
  }

  lemma Found(s: seq<octet>, x: octet)
    requires NotYet(s)
    ensures Longest(s + [x]) < 4 ==> NotYet(s + [x])
    ensures Longest(s + [x]) <= 4
  {
    hide EndsWith;
    var t := s + [x];
    forall i | 0 <= i <= |t| && Longest(t) < 4 ensures !EndsWith(t[..i], 4) {
      if i <= |s| { assert t[..i] == s[..i]; } else { assert t[..i] == t; }
    }
  }

  // ----- the bytes that are held

  /** The low m bytes of x, the lowest first. */
  function Bytes(x: nat, m: nat): (r: seq<octet>)
    ensures |r| == m
  {
    if m == 0 then [] else [x % 256] + Bytes(x / 256, m - 1)
  }

  function Up(x: nat, k: nat): nat { x * Pow2(k) }

  /** How inflateSync takes the whole bytes out of hold: it shifts the odd bits up, not out. */
  method HeldBytes(hold0: nat, bits0: nat) returns (buf: seq<octet>)
    requires bits0 <= 32
    ensures buf == Bytes(Up(hold0, bits0 % 8), bits0 / 8)
  {
    hide Up;
    var hold: nat, bits: nat := Up(hold0, bits0 % 8), bits0 - bits0 % 8;
    ghost var all := Bytes(hold, bits / 8);
    buf := [];
    while bits >= 8
      invariant bits % 8 == 0 && buf + Bytes(hold, bits / 8) == all
      decreases bits
    {
      assert buf + ([hold % 256] + Bytes(hold / 256, bits / 8 - 1)) == (buf + [hold % 256]) + Bytes(hold / 256, bits / 8 - 1);
      buf := buf + [hold % 256];
      hold := hold / 256;
      bits := bits - 8;
    }
    assert buf + [] == buf;
  }

  /** These are the next whole bytes of the stream: those behind the odd bits. */
  predicate Right(hold: nat, bits: nat)
  {
    Bytes(Up(hold, bits % 8), bits / 8) == Bytes(Hi(hold, bits % 8), bits / 8)
  }

  /** 9 bits of which the second is set: the byte held is 1, and 4 is searched. */
  lemma WrongByte()
    ensures Bytes(Up(2, 1), 1) == [4] && Bytes(Hi(2, 1), 1) == [1] && !Right(2, 9)
  {
    assert Pow2(1) == 2;
    assert Bytes(0, 0) == [];
    assert Bytes(4, 1)[0] == 4 && Bytes(1, 1)[0] == 1;
  }

  /** What is searched first is right for whatever is held exactly when it is a number of whole bytes. */
  lemma RightExactly(bits: nat)
    requires 8 <= bits <= 32
    ensures (forall hold: nat :: hold < Pow2(bits) ==> Right(hold, bits)) <==> bits % 8 == 0
  {
    hide Pow2;
    var k := bits % 8;
    if k == 0 {
      assert Pow2(0) == 1 by { PowZero(); }
      forall hold: nat | hold < Pow2(bits) ensures Right(hold, bits) { assert Up(hold, 0) == Hi(hold, 0) == hold; }
    } else {
      SmallPow(k);
      Pow2Add(k, bits - k);
      PowPositive(bits - k);
      var p := Pow2(k);
      assert p < Pow2(bits);
      FirstByte(p * p, bits / 8);
      assert Hi(p, k) == 1;
      FirstByte(1, bits / 8);
      assert !Right(p, bits);
    }
  }

  lemma PowZero()
    ensures Pow2(0) == 1
  {
  }

  lemma SmallPow(k: nat)
    requires 1 <= k <= 7
    ensures Pow2(k) > 0 && (Pow2(k) * Pow2(k)) % 256 != 1
  {
    if k == 1 { assert Pow2(k) == 2; }
    else if k == 2 { assert Pow2(k) == 4; }
    else if k == 3 { assert Pow2(k) == 8; }
    else if k == 4 { assert Pow2(k) == 16; }
    else if k == 5 { assert Pow2(k) == 32; }
    else if k == 6 { assert Pow2(k) == 64; }
    else { assert Pow2(k) == 128; }
  }

  lemma PowPositive(k: nat)
    requires k >= 8
    ensures Pow2(k) > 1
  {
    Pow2Add(1, k - 1);
  }

  lemma FirstByte(x: nat, m: nat)
    requires m >= 1
    ensures Bytes(x, m)[0] == x % 256
  {
  }
}
