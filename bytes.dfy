/** The byte layout of a filter's bit array.
    A filter of m bits (m a multiple of 8) is stored as m / 8 bytes: bit i of the
    filter is bit i % 8 of byte i / 8, least significant bit first, which is how a
    little-endian word array looks when it is viewed as bytes. */
module Bytes {

  newtype byte = x: int | 0 <= x < 256

  function Pow2(n: nat): (r: nat)
    ensures r >= 1
  {
    if n == 0 then 1 else 2 * Pow2(n - 1)
  }

  /** The w low bits of n, least significant first. */
  function NatToBits(n: nat, w: nat): (s: seq<bool>)
    ensures |s| == w
  {
    if w == 0 then [] else [n % 2 == 1] + NatToBits(n / 2, w - 1)
  }

  /** The number whose binary digits, least significant first, are s. */
  function BitsToNat(s: seq<bool>): (n: nat)
    ensures n < Pow2(|s|)
  {
    if s == [] then 0 else (if s[0] then 1 else 0) + 2 * BitsToNat(s[1..])
  }

  lemma {:induction false} BitsToNatToBits(s: seq<bool>)
    ensures NatToBits(BitsToNat(s), |s|) == s
  {
    if s != [] {
      var n := BitsToNat(s);
      assert n % 2 == (if s[0] then 1 else 0) && n / 2 == BitsToNat(s[1..]);
      BitsToNatToBits(s[1..]);
    }
  }

  lemma {:induction false} NatToBitsToNat(n: nat, w: nat)
    requires n < Pow2(w)
    ensures BitsToNat(NatToBits(n, w)) == n
  {
    if w > 0 {
      var s := NatToBits(n, w);
      assert s[1..] == NatToBits(n / 2, w - 1);
      NatToBitsToNat(n / 2, w - 1);
    }
  }

  function ByteToBits(b: byte): (s: seq<bool>)
    ensures |s| == 8
  {
    NatToBits(b as nat, 8)
  }

  function BitsToByte(s: seq<bool>): (b: byte)
    requires |s| == 8
    ensures ByteToBits(b) == s
  {
    assert Pow2(8) == 256;
    BitsToNatToBits(s);
    BitsToNat(s) as byte
  }

  lemma ByteToBitsToByte(b: byte)
    ensures BitsToByte(ByteToBits(b)) == b
  {
    assert Pow2(8) == 256;
    NatToBitsToNat(b as nat, 8);
  }

  /** The bit array a byte blob stores: 8 bits per byte, blob order. */
  function FromBytes(blob: seq<byte>): (bits: seq<bool>)
    ensures |bits| == 8 * |blob|
  {
    if blob == [] then [] else ByteToBits(blob[0]) + FromBytes(blob[1..])
  }

  /** The bytes that store a bit array whose length is a multiple of 8. */
  function ToBytes(bits: seq<bool>): (blob: seq<byte>)
    requires |bits| % 8 == 0
    ensures 8 * |blob| == |bits|
  {
    if bits == [] then [] else [BitsToByte(bits[..8])] + ToBytes(bits[8..])
  }

  /** Storing the bits a blob holds gives back the same blob. */
  lemma {:induction false} ToBytesFromBytes(blob: seq<byte>)
    ensures ToBytes(FromBytes(blob)) == blob
  {
    if blob != [] {
      var bits := FromBytes(blob);
      assert bits[..8] == ByteToBits(blob[0]);
      assert bits[8..] == FromBytes(blob[1..]);
      ByteToBitsToByte(blob[0]);
      ToBytesFromBytes(blob[1..]);
    }
  }

  /** Reading back the bytes that store a bit array gives the same bits. */
  lemma {:induction false} FromBytesToBytes(bits: seq<bool>)
    requires |bits| % 8 == 0
    ensures FromBytes(ToBytes(bits)) == bits
  {
    if bits != [] {
      var blob := ToBytes(bits);
      assert blob[0] == BitsToByte(bits[..8]);
      assert blob[1..] == ToBytes(bits[8..]);
      FromBytesToBytes(bits[8..]);
      assert bits == bits[..8] + bits[8..];
    }
  }
}
