/** The rolling hash of three bytes. */
module DeflateHash {
  import opened Bits

  type word = bv32

  /** hash_mask, for each memLevel. */
  function Mask(m: nat): word
  {
    match m
    case 1 => 0xff
    case 2 => 0x1ff
    case 3 => 0x3ff
    case 4 => 0x7ff
    case 5 => 0xfff
    case 6 => 0x1fff
    case 7 => 0x3fff
    case 8 => 0x7fff
    case _ => 0xffff
  }

  function HashSize(m: nat): nat
  {
    match m
    case 1 => 0x100
    case 2 => 0x200
    case 3 => 0x400
    case 4 => 0x800
    case 5 => 0x1000
    case 6 => 0x2000
    case 7 => 0x4000
    case 8 => 0x8000
    case _ => 0x1_0000
  }

  /** h << hash_shift: a third of the hash's bits, rounded up. */
  function Shifted(m: nat, h: word): word
  {
    if m <= 2 then h << 3 else if m <= 5 then h << 4 else if m <= 8 then h << 5 else h << 6
  }

  /** UPDATE_HASH. */
  function Update(m: nat, h: word, c: bv8): word
  {
    (Shifted(m, h) ^ (c as word)) & Mask(m)
  }

  /** All of h that the next update will see. */
  function Kept(m: nat, h: word): word { Shifted(m, h) & Mask(m) }

  /** The hash after two bytes, and after three. */
  function Hash2(m: nat, a: bv8, b: bv8): word { Update(m, a as word, b) }

  function Hash3(m: nat, a: bv8, b: bv8, c: bv8): word { Update(m, Hash2(m, a, b), c) }

  /** The hash has memLevel + 7 bits. */
  lemma SizesAre(m: nat)
    requires 1 <= m <= 9
    ensures HashSize(m) == Pow2(m + 7)
  {
    assert Pow2(8) == 256 by { Pow2Values(); }
    assert Pow2(12) == 0x1000 by { Pow2Add(8, 4); }
    assert Pow2(16) == 0x1_0000 by { Pow2Add(8, 8); }
  }

  /** One more bit for each memLevel, and all of them set. */
  lemma MaskGrows(m: nat)
    ensures Mask(1) == 0xff && (1 <= m < 9 ==> Mask(m + 1) == (Mask(m) << 1) | 1)
  {
  }

  /** Three bytes, each shifted by a third of the hash's bits, rounded up, for every one that follows it, and added without
      carry. */
  function Blend(m: nat, a: bv8, b: bv8, c: bv8): word
  {
    var x, y, z := a as word, b as word, c as word;
    if m <= 2 then (x << 6) ^ (y << 3) ^ z
    else if m <= 5 then (x << 8) ^ (y << 4) ^ z
    else if m <= 8 then (x << 10) ^ (y << 5) ^ z
    else (x << 12) ^ (y << 6) ^ z
  }

  /** The hash of three bytes, without the steps in between. */
  lemma HashIs(m: nat, a: bv8, b: bv8, c: bv8)
    requires 1 <= m <= 9
    ensures Hash3(m, a, b, c) == Mask(m) & Blend(m, a, b, c)
  {
    if m == 1 { HashIs1(a, b, c); }
    else if m == 2 { HashIs2(a, b, c); }
    else if m == 3 { HashIs3(a, b, c); }
    else if m == 4 { HashIs4(a, b, c); }
    else if m == 5 { HashIs5(a, b, c); }
    else if m == 6 { HashIs6(a, b, c); }
    else if m == 7 { HashIs7(a, b, c); }
    else if m == 8 { HashIs8(a, b, c); }
    else { HashIs9(a, b, c); }
  }

  lemma HashIs1(a: bv8, b: bv8, c: bv8) ensures Hash3(1, a, b, c) == Mask(1) & Blend(1, a, b, c) {}

  lemma HashIs2(a: bv8, b: bv8, c: bv8) ensures Hash3(2, a, b, c) == Mask(2) & Blend(2, a, b, c) {}

  lemma HashIs3(a: bv8, b: bv8, c: bv8) ensures Hash3(3, a, b, c) == Mask(3) & Blend(3, a, b, c) {}

  lemma HashIs4(a: bv8, b: bv8, c: bv8) ensures Hash3(4, a, b, c) == Mask(4) & Blend(4, a, b, c) {}

  lemma HashIs5(a: bv8, b: bv8, c: bv8) ensures Hash3(5, a, b, c) == Mask(5) & Blend(5, a, b, c) {}

  lemma HashIs6(a: bv8, b: bv8, c: bv8) ensures Hash3(6, a, b, c) == Mask(6) & Blend(6, a, b, c) {}

  lemma HashIs7(a: bv8, b: bv8, c: bv8) ensures Hash3(7, a, b, c) == Mask(7) & Blend(7, a, b, c) {}

  lemma HashIs8(a: bv8, b: bv8, c: bv8) ensures Hash3(8, a, b, c) == Mask(8) & Blend(8, a, b, c) {}

  lemma HashIs9(a: bv8, b: bv8, c: bv8) ensures Hash3(9, a, b, c) == Mask(9) & Blend(9, a, b, c) {}

  lemma SameKept(m: nat, h: word, k: word, c: bv8)
    requires Kept(m, h) == Kept(m, k)
    ensures Update(m, h, c) == Update(m, k, c)
  {
    hide Shifted, Mask;
    KeptUpdate(m, h, c);
    KeptUpdate(m, k, c);
  }

  lemma KeptUpdate(m: nat, h: word, c: bv8)
    ensures Update(m, h, c) == Kept(m, h) ^ ((c as word) & Mask(m))
  {
    hide Shifted, Mask;
    Spread(Shifted(m, h), c as word, Mask(m));
  }

  lemma Spread(a: word, b: word, k: word)
    ensures (a ^ b) & k == (a & k) ^ (b & k)
  {
  }

  /** After three bytes the oldest is shifted out: the hash rolls on. */
  lemma Roll(m: nat, a: bv8, b: bv8, c: bv8)
    requires 1 <= m <= 9
    ensures Kept(m, Hash3(m, a, b, c)) == Kept(m, Hash2(m, b, c))
  {
    if m == 1 { Roll1(a, b, c); }
    else if m == 2 { Roll2(a, b, c); }
    else if m == 3 { Roll3(a, b, c); }
    else if m == 4 { Roll4(a, b, c); }
    else if m == 5 { Roll5(a, b, c); }
    else if m == 6 { Roll6(a, b, c); }
    else if m == 7 { Roll7(a, b, c); }
    else if m == 8 { Roll8(a, b, c); }
    else { Roll9(a, b, c); }
  }

  lemma Roll1(a: bv8, b: bv8, c: bv8) ensures Kept(1, Hash3(1, a, b, c)) == Kept(1, Hash2(1, b, c)) {}

  lemma Roll2(a: bv8, b: bv8, c: bv8) ensures Kept(2, Hash3(2, a, b, c)) == Kept(2, Hash2(2, b, c)) {}

  lemma Roll3(a: bv8, b: bv8, c: bv8) ensures Kept(3, Hash3(3, a, b, c)) == Kept(3, Hash2(3, b, c)) {}

  lemma Roll4(a: bv8, b: bv8, c: bv8) ensures Kept(4, Hash3(4, a, b, c)) == Kept(4, Hash2(4, b, c)) {}

  lemma Roll5(a: bv8, b: bv8, c: bv8) ensures Kept(5, Hash3(5, a, b, c)) == Kept(5, Hash2(5, b, c)) {}

  lemma Roll6(a: bv8, b: bv8, c: bv8) ensures Kept(6, Hash3(6, a, b, c)) == Kept(6, Hash2(6, b, c)) {}

  lemma Roll7(a: bv8, b: bv8, c: bv8) ensures Kept(7, Hash3(7, a, b, c)) == Kept(7, Hash2(7, b, c)) {}

  lemma Roll8(a: bv8, b: bv8, c: bv8) ensures Kept(8, Hash3(8, a, b, c)) == Kept(8, Hash2(8, b, c)) {}

  lemma Roll9(a: bv8, b: bv8, c: bv8) ensures Kept(9, Hash3(9, a, b, c)) == Kept(9, Hash2(9, b, c)) {}

  /** Where two bytes and the hash agree, the third byte agrees too. */
  lemma ThirdByte(m: nat, a: bv8, b: bv8, c: bv8, d: bv8)
    requires Hash3(m, a, b, c) == Hash3(m, a, b, d)
    ensures c == d
  {
    hide Shifted, Hash2, Mask;
    KeptUpdate(m, Hash2(m, a, b), c);
    KeptUpdate(m, Hash2(m, a, b), d);
    LowMask(m, c);
    LowMask(m, d);
    Cancel(Kept(m, Hash2(m, a, b)), c as word, d as word);
    SameByte(c, d);
  }

  lemma LowMask(m: nat, c: bv8)
    ensures (c as word) & Mask(m) == c as word
  {
  }

  lemma Cancel(k: word, a: word, b: word)
    requires k ^ a == k ^ b
    ensures a == b
  {
  }

  lemma SameByte(c: bv8, d: bv8)
    requires c as word == d as word
    ensures c == d
  {
  }

  lemma InTable(m: nat, h: word, c: bv8)
    ensures 0 <= Update(m, h, c) as int < HashSize(m) <= 0x1_0000
  {
    hide Shifted;
    MaskBelow(m, Shifted(m, h) ^ (c as word));
  }

  lemma MaskBelow(m: nat, x: word)
    ensures (x & Mask(m)) as int < HashSize(m)
  {
  }
}
