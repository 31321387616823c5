/** Bit i of a byte array, as src/bitmap.c tests, sets and clears it. */
module Bits {
  import opened Types

  function Mask(k: nat): Byte
    requires k < 8
  {
    1 << k
  }

  predicate TestBit(bytes: seq<Byte>, i: nat)
    requires i / 8 < |bytes|
  {
    bytes[i / 8] & Mask(i % 8) != 0
  }

  function SetBit(bytes: seq<Byte>, i: nat): (r: seq<Byte>)
    requires i / 8 < |bytes|
    ensures |r| == |bytes|
  {
    bytes[i / 8 := bytes[i / 8] | Mask(i % 8)]
  }

  function ClearBit(bytes: seq<Byte>, i: nat): (r: seq<Byte>)
    requires i / 8 < |bytes|
    ensures |r| == |bytes|
  {
    bytes[i / 8 := bytes[i / 8] & !Mask(i % 8)]
  }

  lemma SetInByte(b: Byte, k: nat, m: nat)
    requires k < 8 && m < 8
    ensures (b | Mask(k)) & Mask(m) != 0 <==> k == m || b & Mask(m) != 0
  {
  }

  lemma ClearInByte(b: Byte, k: nat, m: nat)
    requires k < 8 && m < 8
    ensures b & !Mask(k) & Mask(m) != 0 <==> k != m && b & Mask(m) != 0
  {
  }

  lemma SetBitAt(bytes: seq<Byte>, i: nat, m: nat)
    requires i / 8 < |bytes| && m / 8 < |bytes|
    ensures TestBit(SetBit(bytes, i), m) <==> m == i || TestBit(bytes, m)
  {
    if m / 8 == i / 8 {
      SetInByte(bytes[i / 8], i % 8, m % 8);
    }
  }

  lemma ClearBitAt(bytes: seq<Byte>, i: nat, m: nat)
    requires i / 8 < |bytes| && m / 8 < |bytes|
    ensures TestBit(ClearBit(bytes, i), m) <==> m != i && TestBit(bytes, m)
  {
    if m / 8 == i / 8 {
      ClearInByte(bytes[i / 8], i % 8, m % 8);
    }
  }

  lemma ZeroBits(bytes: seq<Byte>, i: nat)
    requires i / 8 < |bytes| && bytes[i / 8] == 0
    ensures !TestBit(bytes, i)
  {
  }
}
