/** Byte strings and the little-endian integers that are packed into them. */
module Bytes {
  type Byte = x: int | 0 <= x < 0x100

  function Power2(n: nat): nat {
    if n == 0 then 1 else 2 * Power2(n - 1)
  }

  /** Bitwise exclusive or of the `bits` low bits. */
  function XorBits(a: nat, b: nat, bits: nat): (r: nat)
    ensures r < Power2(bits)
  {
    if bits == 0 then 0 else (a + b) % 2 + 2 * XorBits(a / 2, b / 2, bits - 1)
  }

  lemma XorBit(a: nat, b: nat)
    ensures ((a + b) % 2 + b) % 2 == a % 2
  {
    assert a + b + b == a + 2 * b;
  }

  lemma Halves(bit: nat, rest: nat, b: nat)
    requires bit < 2
    ensures (bit + 2 * rest) / 2 == rest && (bit + 2 * rest + b) % 2 == (bit + b) % 2
  {}

  lemma {:induction false} XorBitsTwice(a: nat, b: nat, bits: nat)
    requires a < Power2(bits)
    ensures XorBits(XorBits(a, b, bits), b, bits) == a
  {
    if bits > 0 {
      var bit, rest := (a + b) % 2, XorBits(a / 2, b / 2, bits - 1);
      XorBitsTwice(a / 2, b / 2, bits - 1);
      XorBit(a, b);
      Halves(bit, rest, b);
      assert XorBits(a, b, bits) == bit + 2 * rest;
    }
  }

  lemma Powers()
    ensures Power2(8) == 0x100 && Power2(32) == 0x1_0000_0000
  {
    assert Power2(12) == 0x1000;
    assert Power2(22) == 0x40_0000;
  }

  function Xor(a: Byte, b: Byte): Byte {
    Powers();
    XorBits(a, b, 8)
  }

  lemma XorTwice(a: Byte, b: Byte)
    ensures Xor(Xor(a, b), b) == a
  {
    Powers();
    hide Power2;
    hide XorBits;
    XorBitsTwice(a, b, 8);
  }

  /** The value of a little-endian byte string. */
  function Decode(s: seq<Byte>): nat {
    if s == [] then 0 else s[0] + 0x100 * Decode(s[1..])
  }

  /** How many values `width` bytes can hold. */
  function Span(width: nat): nat
    ensures Span(width) > 0
  {
    if width == 0 then 1 else 0x100 * Span(width - 1)
  }

  /** The `width` low bytes of `value`, least significant first. */
  function Encode(value: nat, width: nat): (r: seq<Byte>)
    ensures |r| == width
  {
    if width == 0 then [] else [value % 0x100] + Encode(value / 0x100, width - 1)
  }

  /** Packing and unpacking an integer that fits gives it back. */
  lemma {:induction false} DecodeEncode(value: nat, width: nat)
    requires value < Span(width)
    ensures Decode(Encode(value, width)) == value
  {
    if width > 0 {
      DecodeEncode(value / 0x100, width - 1);
      assert Encode(value, width)[1..] == Encode(value / 0x100, width - 1);
    }
  }

  lemma {:induction false} DecodeBound(s: seq<Byte>)
    ensures Decode(s) < Span(|s|)
  {
    if s != [] {
      DecodeBound(s[1..]);
    }
  }

  lemma Spans()
    ensures Span(1) == 0x100 && Span(2) == 0x1_0000 && Span(4) == 0x1_0000_0000
  {
    assert Span(2) == 0x100 * Span(1);
    assert Span(3) == 0x100 * Span(2);
    assert Span(4) == 0x100 * Span(3);
  }

  /** The unsigned integer of `width` bytes at `offset`. */
  function Number(s: seq<Byte>, offset: nat, width: nat): nat
    requires offset + width <= |s|
  {
    Decode(s[offset..offset + width])
  }

  lemma NumberBound(s: seq<Byte>, offset: nat, width: nat)
    requires offset + width <= |s|
    ensures Number(s, offset, width) < Span(width)
  {
    DecodeBound(s[offset..offset + width]);
  }

  /** `s` with `piece` written over it at `offset`. */
  function Overwritten(s: seq<Byte>, offset: nat, piece: seq<Byte>): (r: seq<Byte>)
    requires offset + |piece| <= |s|
    ensures |r| == |s|
  {
    s[..offset] + piece + s[offset + |piece|..]
  }

  lemma OverwrittenHere(s: seq<Byte>, offset: nat, piece: seq<Byte>)
    requires offset + |piece| <= |s|
    ensures Overwritten(s, offset, piece)[offset..offset + |piece|] == piece
  {}

  lemma OverwrittenElsewhere(s: seq<Byte>, offset: nat, piece: seq<Byte>, from: nat, to: nat)
    requires offset + |piece| <= |s| && from <= to <= |s|
    requires to <= offset || offset + |piece| <= from
    ensures Overwritten(s, offset, piece)[from..to] == s[from..to]
  {}

  /** Writes `piece` into the buffer at `offset`. */
  method Store(buffer: array<Byte>, offset: nat, piece: seq<Byte>)
    requires offset + |piece| <= buffer.Length
    modifies buffer
    ensures buffer[..] == Overwritten(old(buffer[..]), offset, piece)
  {
    forall i | 0 <= i < |piece| {
      buffer[offset + i] := piece[i];
    }
  }

  /** A fresh buffer with the given contents. */
  method Copy(s: seq<Byte>) returns (buffer: array<Byte>)
    ensures fresh(buffer) && buffer[..] == s
  {
    buffer := new Byte[|s|](i requires 0 <= i < |s| => s[i]);
  }
}
