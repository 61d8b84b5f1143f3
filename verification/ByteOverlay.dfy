/** The bytes of an array of 32-bit words, as the C code sees them through a UChar* over the same storage
    (low byte of each word first). */
module ByteOverlay {

  ghost predicate AllWords(w: seq<int>)
  {
    forall i :: 0 <= i < |w| ==> 0 <= w[i] < 0x1_0000_0000
  }

  function GetByte(word: int, k: nat): (r: int)
    requires k < 4
  {
    if k == 0 then word % 256
    else if k == 1 then word / 256 % 256
    else if k == 2 then word / 65536 % 256
    else word / 16777216 % 256
  }

  function SetByte(word: int, k: nat, v: int): (r: int)
    requires k < 4
  {
    if k == 0 then word - GetByte(word, 0) + v
    else if k == 1 then word + (v - GetByte(word, 1)) * 256
    else if k == 2 then word + (v - GetByte(word, 2)) * 65536
    else word + (v - GetByte(word, 3)) * 16777216
  }

  lemma SetByteDigits(d0: int, d1: int, d2: int, d3: int)
    requires 0 <= d0 < 256 && 0 <= d1 < 256 && 0 <= d2 < 256 && 0 <= d3 < 256
    ensures var w := d0 + 256 * d1 + 65536 * d2 + 16777216 * d3;
            GetByte(w, 0) == d0 && GetByte(w, 1) == d1 && GetByte(w, 2) == d2 && GetByte(w, 3) == d3
  {
    var w := d0 + 256 * d1 + 65536 * d2 + 16777216 * d3;
    assert w / 256 == d1 + 256 * d2 + 65536 * d3;
    assert w / 65536 == d2 + 256 * d3;
    assert w / 16777216 == d3;
  }

  lemma Digits(w: int)
    requires 0 <= w < 0x1_0000_0000
    ensures w == GetByte(w, 0) + 256 * GetByte(w, 1) + 65536 * GetByte(w, 2) + 16777216 * GetByte(w, 3)
    ensures forall k :: 0 <= k < 4 ==> 0 <= GetByte(w, k) < 256
  {
    var a := w / 256;
    var b := a / 256;
    DivDiv(w, 256);
    DivDiv(w, 65536);
    ThreeDigits(w, a, b);
    forall k | 0 <= k < 4 ensures 0 <= GetByte(w, k) < 256 {}
  }

  lemma ThreeDigits(w: int, a: int, b: int)
    requires 0 <= w < 0x1_0000_0000 && a == w / 256 && b == a / 256
    ensures w == w % 256 + 256 * (a % 256) + 65536 * (b % 256) + 16777216 * (b / 256) && b / 256 % 256 == b / 256
  {
    assert w == 256 * a + w % 256;
    assert a == 256 * b + a % 256;
    assert b == 256 * (b / 256) + b % 256;
  }

  lemma DivDiv(w: int, m: int)
    requires w >= 0 && m in {256, 65536}
    ensures w / m / 256 == w / (m * 256)
  {
  }

  lemma SetGet(w: int, k: nat, v: int)
    requires 0 <= w < 0x1_0000_0000 && k < 4 && 0 <= v < 256
    ensures 0 <= SetByte(w, k, v) < 0x1_0000_0000
    ensures GetByte(SetByte(w, k, v), k) == v
    ensures forall m :: 0 <= m < 4 && m != k ==> GetByte(SetByte(w, k, v), m) == GetByte(w, m)
  {
    Digits(w);
    var d0, d1, d2, d3 := GetByte(w, 0), GetByte(w, 1), GetByte(w, 2), GetByte(w, 3);
    if k == 0 { SetByteDigits(v, d1, d2, d3); }
    else if k == 1 { SetByteDigits(d0, v, d2, d3); }
    else if k == 2 { SetByteDigits(d0, d1, v, d3); }
    else { SetByteDigits(d0, d1, d2, v); }
  }

  /** Byte i of the storage. */
  function ByteAt(w: seq<int>, i: nat): int
    requires i < 4 * |w|
  {
    GetByte(w[i / 4], i % 4)
  }

  function WithByte(w: seq<int>, i: nat, v: int): (r: seq<int>)
    requires i < 4 * |w|
    ensures |r| == |w|
  {
    w[i / 4 := SetByte(w[i / 4], i % 4, v)]
  }

  /** Storing a byte changes that byte and no other. */
  lemma WithByteAt(w: seq<int>, i: nat, v: int)
    requires AllWords(w) && i < 4 * |w| && 0 <= v < 256
    ensures AllWords(WithByte(w, i, v))
    ensures ByteAt(WithByte(w, i, v), i) == v
    ensures forall m :: 0 <= m < 4 * |w| && m != i ==> ByteAt(WithByte(w, i, v), m) == ByteAt(w, m)
  {
    SetGet(w[i / 4], i % 4, v);
    forall m | 0 <= m < 4 * |w| && m != i ensures ByteAt(WithByte(w, i, v), m) == ByteAt(w, m) {
      if m / 4 == i / 4 { assert m % 4 != i % 4; }
    }
  }
}
