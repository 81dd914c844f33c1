/** What the checksum is: the remainder of a division of polynomials over the two-element field, as ECMA-182 defines its
    cyclic redundancy check. Nothing here is reflected, and there is no register. */
module Crc64Division {
  import opened Crc64

  /** The coefficients, by power. */
  type Polynomial = int -> bool

  /** The generator polynomial of ECMA-182 without its highest power. */
  const ECMA_182: bv64 := 0x42F0_E1EB_A9EA_3693

  predicate Low(v: bv64) {
    v & 1 == 1
  }

  predicate Bit(v: bv64, i: nat)
    decreases i
  {
    if i == 0 then Low(v) else Bit(Half(v), i - 1)
  }

  predicate Generator(k: int) {
    k == 64 || (0 <= k < 64 && Bit(ECMA_182, k))
  }

  /** A quotient, highest power first, times the generator. */
  predicate Product(quotient: seq<bool>, k: int)
    decreases |quotient|
  {
    if quotient == [] then false
    else
      var n := |quotient| - 1;
      Product(quotient[..n], k - 1) != (quotient[n] && Generator(k))
  }

  ghost predicate Divides(dividend: Polynomial, quotient: seq<bool>, remainder: Polynomial) {
    forall k :: dividend(k) == (Product(quotient, k) != remainder(k))
  }

  ghost predicate IsRemainder(dividend: Polynomial, remainder: Polynomial) {
    && (forall k :: k < 0 || k >= 64 ==> !remainder(k))
    && exists quotient :: Divides(dividend, quotient, remainder)
  }

  /** The bits of a message in the order in which they are sent: the low bit of a byte first. */
  predicate MessageBit(data: seq<bv8>, t: nat)
    requires t < 8 * |data|
  {
    Bit(data[t / 8] as bv64, t % 8)
  }

  /** The message with 64 zero bits behind it, where the first 64 bits are inverted. */
  predicate Dividend(data: seq<bv8>, k: int) {
    var n := 8 * |data|;
    (n <= k < n + 64) != (64 <= k < 64 + n && MessageBit(data, n + 63 - k))
  }

  // ---------------------------------------------------------------------------------------------
  // Bits.

  lemma LowXor(a: bv64, b: bv64)
    ensures Low(Xor(a, b)) == (Low(a) != Low(b))
  {
    LowBitXor(a, b);
  }

  lemma {:induction false} BitXor(a: bv64, b: bv64, i: nat)
    ensures Bit(Xor(a, b), i) == (Bit(a, i) != Bit(b, i))
    decreases i
  {
    hide Xor;
    hide Half;
    hide Low;
    if i == 0 {
      LowXor(a, b);
    } else {
      HalfXor(a, b);
      BitXor(Half(a), Half(b), i - 1);
    }
  }

  lemma {:induction false} BitSplit(v: bv64, i: nat, j: nat)
    ensures Bit(v, i + j) == Bit(Halves(v, i), j)
    decreases i
  {
    hide Half;
    if i > 0 {
      BitSplit(Half(v), i - 1, j);
    }
  }

  function Halves(v: bv64, i: nat): bv64
    decreases i
  {
    if i == 0 then v else Halves(Half(v), i - 1)
  }

  lemma EightHalves(v: bv64)
    ensures Halves(v, 8) == v >> 8
  {
    assert Halves(v, 8) == Half(Half(Half(Half(Half(Half(Half(Half(v)))))))) by { hide Half; }
  }

  lemma {:induction false} HalvesTwice(v: bv64, i: nat, j: nat)
    ensures Halves(v, i + j) == Halves(Halves(v, i), j)
    decreases i
  {
    hide Half;
    if i > 0 {
      HalvesTwice(Half(v), i - 1, j);
    }
  }

  lemma {:induction false} ZeroHasNoBit(i: nat)
    ensures !Bit(0, i)
    decreases i
  {
    if i > 0 {
      assert Half(0) == 0;
      ZeroHasNoBit(i - 1);
    }
  }

  lemma NextByte(v: bv64, i: nat)
    ensures Halves(v, i + 8) == DropByte(Halves(v, i))
  {
    HalvesTwice(v, i, 8);
    EightHalves(Halves(v, i));
  }

  // ---------------------------------------------------------------------------------------------
  // The register holds the coefficients in reverse.

  /** The polynomial in the register: its high bit is the constant term. */
  predicate Coefficient(v: bv64, k: int) {
    0 <= k < 64 && Bit(v, 63 - k)
  }

  /** The word without its low `m` bytes. */
  function ByteOf(v: bv64, m: nat): bv64 {
    if m == 0 then v else DropByte(ByteOf(v, m - 1))
  }

  lemma {:induction false} HalvesToByte(v: bv64, m: nat)
    ensures Halves(v, 8 * m) == ByteOf(v, m)
  {
    if m > 0 {
      HalvesToByte(v, m - 1);
      NextByte(v, 8 * (m - 1));
    }
  }

  lemma EightDrops(v: bv64)
    ensures DropByte(DropByte(DropByte(DropByte(DropByte(DropByte(DropByte(DropByte(v)))))))) == 0
  {}

  lemma TwoBytesLess(v: bv64, m: nat)
    ensures ByteOf(v, m + 2) == DropByte(DropByte(ByteOf(v, m)))
  {
    hide DropByte;
  }

  lemma SixtyFourHalves(v: bv64)
    ensures Halves(v, 64) == 0
  {
    EightDrops(v);
    HalvesToByte(v, 8);
    hide DropByte;
    hide Halves;
    TwoBytesLess(v, 0);
    TwoBytesLess(v, 2);
    TwoBytesLess(v, 4);
    TwoBytesLess(v, 6);
    assert ByteOf(v, 0) == v;
    hide ByteOf;
  }

  lemma NoBitBeyond(v: bv64, i: nat)
    requires i >= 64
    ensures !Bit(v, i)
  {
    hide Half;
    BitSplit(v, 64, i - 64);
    SixtyFourHalves(v);
    ZeroHasNoBit(i - 64);
  }

  /** Two bytes are opposite in a word and its reflection. */
  predicate Opposite(a: bv64, b: bv64) {
    && Bit(a, 0) == Bit(b, 7) && Bit(a, 1) == Bit(b, 6) && Bit(a, 2) == Bit(b, 5) && Bit(a, 3) == Bit(b, 4)
    && Bit(a, 4) == Bit(b, 3) && Bit(a, 5) == Bit(b, 2) && Bit(a, 6) == Bit(b, 1) && Bit(a, 7) == Bit(b, 0)
  }

  lemma OppositeLowBytes(m: nat)
    requires m < 4
    ensures Opposite(ByteOf(POLYNOMIAL, m), ByteOf(ECMA_182, 7 - m))
  {
    match m {
      case 0 => assert ByteOf(POLYNOMIAL, 0) == 0xC96C_5795_D787_0F42 && ByteOf(ECMA_182, 7) == 0x42;
      case 1 => assert ByteOf(POLYNOMIAL, 1) == 0xC9_6C57_95D7_870F && ByteOf(ECMA_182, 6) == 0x42F0;
      case 2 => assert ByteOf(POLYNOMIAL, 2) == 0xC96C_5795_D787 && ByteOf(ECMA_182, 5) == 0x42_F0E1;
      case _ => assert ByteOf(POLYNOMIAL, 3) == 0xC9_6C57_95D7 && ByteOf(ECMA_182, 4) == 0x42F0_E1EB;
    }
  }

  lemma OppositeHighBytes(m: nat)
    requires 4 <= m < 8
    ensures Opposite(ByteOf(POLYNOMIAL, m), ByteOf(ECMA_182, 7 - m))
  {
    match m {
      case 4 => assert ByteOf(POLYNOMIAL, 4) == 0xC96C_5795 && ByteOf(ECMA_182, 3) == 0x42_F0E1_EBA9;
      case 5 => assert ByteOf(POLYNOMIAL, 5) == 0xC9_6C57 && ByteOf(ECMA_182, 2) == 0x42F0_E1EB_A9EA;
      case 6 => assert ByteOf(POLYNOMIAL, 6) == 0xC96C && ByteOf(ECMA_182, 1) == 0x42_F0E1_EBA9_EA36;
      case _ => assert ByteOf(POLYNOMIAL, 7) == 0xC9 && ByteOf(ECMA_182, 0) == 0x42F0_E1EB_A9EA_3693;
    }
  }

  lemma OppositeBit(a: bv64, b: bv64, j: nat)
    requires Opposite(a, b) && j < 8
    ensures Bit(a, j) == Bit(b, 7 - j)
  {
    hide Bit;
  }

  /** Eight bits of the polynomial of the code are those of the standard's at the other end. */
  lemma ReflectedByte(m: nat, j: nat)
    requires m < 8 && j < 8
    ensures Bit(POLYNOMIAL, 8 * m + j) == Bit(ECMA_182, 8 * (7 - m) + (7 - j))
  {
    hide Halves;
    hide Bit;
    hide ByteOf;
    hide Opposite;
    if m < 4 {
      OppositeLowBytes(m);
    } else {
      OppositeHighBytes(m);
    }
    OppositeBit(ByteOf(POLYNOMIAL, m), ByteOf(ECMA_182, 7 - m), j);
    BitSplit(POLYNOMIAL, 8 * m, j);
    BitSplit(ECMA_182, 8 * (7 - m), 7 - j);
    HalvesToByte(POLYNOMIAL, m);
    HalvesToByte(ECMA_182, 7 - m);
  }

  lemma Reflected(k: int)
    requires 0 <= k < 64
    ensures Coefficient(POLYNOMIAL, k) == Generator(k)
  {
    var i := 63 - k;
    ReflectedByte(i / 8, i % 8);
  }

  lemma XorCoefficient(a: bv64, b: bv64, k: int)
    ensures Coefficient(Xor(a, b), k) == (Coefficient(a, k) != Coefficient(b, k))
  {
    if 0 <= k < 64 {
      BitXor(a, b, 63 - k);
    }
  }

  /** One step multiplies by x and, if that gave the power 64, subtracts the generator. */
  lemma StepDivides(v: bv64, k: int)
    ensures Coefficient(v, k - 1) == (Coefficient(BitStep(v), k) != (Low(v) && Generator(k)))
  {
    assert Feedback(v) == if Low(v) then POLYNOMIAL else 0;
    hide Half;
    hide Low;
    hide Feedback;
    XorCoefficient(Half(v), Feedback(v), k);
    hide Xor;
    if 0 <= k < 64 {
      Reflected(k);
      assert Bit(Half(v), 63 - k) == Bit(v, 64 - k);
      if k == 0 { NoBitBeyond(v, 64); }
      if !Low(v) { ZeroHasNoBit(63 - k); }
    }
  }

  // ---------------------------------------------------------------------------------------------
  // Products.

  lemma {:induction false} ProductConcat(a: seq<bool>, b: seq<bool>, k: int)
    ensures Product(a + b, k) == (Product(a, k - |b|) != Product(b, k))
    decreases |b|
  {
    hide Generator;
    if b == [] {
      assert a + b == a;
    } else {
      var n := |b| - 1;
      ProductConcat(a, b[..n], k - 1);
      assert (a + b)[..|a + b| - 1] == a + b[..n];
    }
  }

  // ---------------------------------------------------------------------------------------------
  // The division, step by step.

  /** Several steps divide by the generator; the quotient is read off the low bits. */
  lemma {:induction false} BitsDivide(v: bv64, n: nat) returns (quotient: seq<bool>)
    ensures |quotient| == n
    ensures forall k: int :: Coefficient(v, k - n) == (Product(quotient, k) != Coefficient(Bits(v, n), k))
  {
    hide Coefficient;
    hide Low;
    hide Generator;
    if n == 0 {
      quotient := [];
    } else {
      hide BitStep;
      var front := BitsDivide(v, n - 1);
      var w := Bits(v, n - 1);
      quotient := front + [Low(w)];
      forall k: int
        ensures Coefficient(v, k - n) == (Product(quotient, k) != Coefficient(Bits(v, n), k))
      {
        assert quotient[..n - 1] == front;
        assert Coefficient(v, (k - 1) - (n - 1)) == (Product(front, k - 1) != Coefficient(w, k - 1));
        StepDivides(w, k);
      }
    }
  }

  /** The bits of a byte sit at the top of the polynomial. */
  lemma ByteCoefficient(b: bv8, k: int)
    ensures Coefficient(b as bv64, k) <==> 56 <= k < 64 && Bit(b as bv64, 63 - k)
  {
    if 0 <= k < 56 {
      BitSplit(b as bv64, 8, 63 - k - 8);
      NextByte(b as bv64, 0);
      assert DropByte(b as bv64) == 0;
      ZeroHasNoBit(63 - k - 8);
    }
  }

  /** The same with any word in the register at first. */
  predicate DividendFrom(v: bv64, data: seq<bv8>, k: int) {
    var n := 8 * |data|;
    Coefficient(v, k - n) != (64 <= k < 64 + n && MessageBit(data, n + 63 - k))
  }

  lemma DividendGrows(v: bv64, data: seq<bv8>, b: bv8, k: int)
    ensures DividendFrom(v, data + [b], k) == (DividendFrom(v, data, k - 8) != Coefficient(b as bv64, k - 8))
  {
    ByteCoefficient(b, k - 8);
    hide Coefficient;
    hide Bit;
    var n, t := 8 * |data|, 8 * |data| + 71 - k;
    if 0 <= t < n {
      assert (data + [b])[t / 8] == data[t / 8];
    } else if n <= t < n + 8 {
      assert t / 8 == |data| && t % 8 == 71 - k;
    }
  }

  /** One byte more. */
  lemma ByteDivides(v: bv64, front: seq<bv8>, b: bv8, u: bv64, first: seq<bool>, last: seq<bool>, k: int)
    requires |last| == 8
    requires DividendFrom(v, front, k - 8) == (Product(first, k - 8) != Coefficient(u, k - 8))
    requires Coefficient(Xor(u, b as bv64), k - 8) == (Product(last, k) != Coefficient(ByteStep(u, b), k))
    ensures DividendFrom(v, front + [b], k) == (Product(first + last, k) != Coefficient(ByteStep(u, b), k))
  {
    hide Xor;
    hide Coefficient;
    hide DividendFrom;
    hide ByteStep;
    hide Product;
    DividendGrows(v, front, b, k);
    XorCoefficient(u, b as bv64, k - 8);
    ProductConcat(first, last, k);
  }

  lemma ByteQuotient(u: bv64, b: bv8) returns (quotient: seq<bool>)
    ensures |quotient| == 8
    ensures forall k: int ::
              Coefficient(Xor(u, b as bv64), k - 8) == (Product(quotient, k) != Coefficient(ByteStep(u, b), k))
  {
    hide Xor;
    hide Coefficient;
    hide Product;
    hide Bits;
    quotient := BitsDivide(Xor(u, b as bv64), 8);
  }

  ghost predicate IsQuotient(v: bv64, data: seq<bv8>, quotient: seq<bool>) {
    forall k: int :: DividendFrom(v, data, k) == (Product(quotient, k) != Coefficient(Update(v, data), k))
  }

  lemma OneByteMore(v: bv64, front: seq<bv8>, b: bv8, first: seq<bool>) returns (quotient: seq<bool>)
    requires IsQuotient(v, front, first)
    ensures IsQuotient(v, front + [b], quotient)
  {
    hide ByteStep;
    hide Xor;
    hide Coefficient;
    hide DividendFrom;
    var u := Update(v, front);
    assert (front + [b])[..|front|] == front;
    assert Update(v, front + [b]) == ByteStep(u, b);
    hide Update;
    hide Product;
    var last := ByteQuotient(u, b);
    quotient := first + last;
    forall k: int
      ensures DividendFrom(v, front + [b], k) == (Product(quotient, k) != Coefficient(ByteStep(u, b), k))
    {
      ByteDivides(v, front, b, u, first, last, k);
    }
  }

  lemma {:induction false} UpdateDivides(v: bv64, data: seq<bv8>) returns (quotient: seq<bool>)
    ensures IsQuotient(v, data, quotient)
  {
    if data == [] {
      quotient := [];
    } else {
      hide IsQuotient;
      var n := |data| - 1;
      var first := UpdateDivides(v, data[..n]);
      quotient := OneByteMore(v, data[..n], data[n], first);
      assert data == data[..n] + [data[n]];
    }
  }

  // ---------------------------------------------------------------------------------------------
  // The remainder is unique.

  function Mixed(a: seq<bool>, b: seq<bool>): seq<bool>
    requires |a| == |b|
  {
    seq(|a|, i requires 0 <= i < |a| => a[i] != b[i])
  }

  lemma {:induction false} ProductMixed(a: seq<bool>, b: seq<bool>, k: int)
    requires |a| == |b|
    ensures Product(Mixed(a, b), k) == (Product(a, k) != Product(b, k))
    decreases |a|
  {
    hide Generator;
    if a != [] {
      var n := |a| - 1;
      ProductMixed(a[..n], b[..n], k - 1);
      assert Mixed(a, b)[..n] == Mixed(a[..n], b[..n]);
    }
  }

  lemma {:induction false} ProductOfZeros(a: seq<bool>, k: int)
    requires forall i :: 0 <= i < |a| ==> !a[i]
    ensures !Product(a, k)
    decreases |a|
  {
    if a != [] {
      ProductOfZeros(a[..|a| - 1], k - 1);
    }
  }

  /** The highest power of a product. */
  lemma {:induction false} ProductLeads(a: seq<bool>, i: nat)
    requires i < |a| && a[i] && forall j :: 0 <= j < i ==> !a[j]
    ensures Product(a, 63 + |a| - i)
    decreases |a|
  {
    var n := |a| - 1;
    if i == n {
      ProductOfZeros(a[..n], 63);
    } else {
      ProductLeads(a[..n], i);
    }
  }

  lemma {:induction false} FirstOne(a: seq<bool>, i: nat) returns (first: nat)
    requires i < |a| && a[i]
    ensures first < |a| && a[first] && forall j :: 0 <= j < first ==> !a[j]
    decreases i
  {
    if j: nat :| j < i && a[j] {
      first := FirstOne(a, j);
    } else {
      first := i;
    }
  }

  function Zeros(n: nat): seq<bool> {
    seq(n, i => false)
  }

  lemma Padded(n: nat, a: seq<bool>, k: int)
    ensures Product(Zeros(n) + a, k) == Product(a, k)
  {
    ProductConcat(Zeros(n), a, k);
    ProductOfZeros(Zeros(n), k - |a|);
  }

  lemma SameRemainder(dividend: Polynomial, p: seq<bool>, q: seq<bool>, r: Polynomial, s: Polynomial, k: int)
    requires Divides(dividend, p, r) && Divides(dividend, q, s)
    requires forall k :: k < 0 || k >= 64 ==> !r(k) && !s(k)
    ensures r(k) == s(k)
  {
    var a, b := Zeros(|q|) + p, Zeros(|p|) + q;
    var both := Mixed(a, b);
    forall j: int ensures Product(both, j) == (r(j) != s(j)) {
      Padded(|q|, p, j);
      Padded(|p|, q, j);
      ProductMixed(a, b, j);
      hide Product;
      assert dividend(j) == (Product(p, j) != r(j)) && dividend(j) == (Product(q, j) != s(j));
    }
    hide Product;
    if i: nat :| i < |both| && both[i] {
      var first := FirstOne(both, i);
      ProductLeads(both, first);
    }
    ProductOfZeros(both, k);
  }

  // ---------------------------------------------------------------------------------------------
  // Main results.

  predicate LowByteFull(a: bv64) {
    Bit(a, 0) && Bit(a, 1) && Bit(a, 2) && Bit(a, 3) && Bit(a, 4) && Bit(a, 5) && Bit(a, 6) && Bit(a, 7)
  }

  lemma FullBytes(m: nat)
    requires m < 8
    ensures LowByteFull(ByteOf(ALL_ONES, m))
  {
    match m {
      case 0 => assert ByteOf(ALL_ONES, 0) == 0xFFFF_FFFF_FFFF_FFFF;
      case 1 => assert ByteOf(ALL_ONES, 1) == 0xFF_FFFF_FFFF_FFFF;
      case 2 => assert ByteOf(ALL_ONES, 2) == 0xFFFF_FFFF_FFFF;
      case 3 => assert ByteOf(ALL_ONES, 3) == 0xFF_FFFF_FFFF;
      case 4 => assert ByteOf(ALL_ONES, 4) == 0xFFFF_FFFF;
      case 5 => assert ByteOf(ALL_ONES, 5) == 0xFF_FFFF;
      case 6 => assert ByteOf(ALL_ONES, 6) == 0xFFFF;
      case _ => assert ByteOf(ALL_ONES, 7) == 0xFF;
    }
  }

  lemma FullBit(a: bv64, j: nat)
    requires LowByteFull(a) && j < 8
    ensures Bit(a, j)
  {
    hide Bit;
  }

  lemma AllOnes(k: int)
    ensures Coefficient(ALL_ONES, k) <==> 0 <= k < 64
  {
    if 0 <= k < 64 {
      var m, j := (63 - k) / 8, (63 - k) % 8;
      FullBytes(m);
      hide Bit;
      hide LowByteFull;
      FullBit(ByteOf(ALL_ONES, m), j);
      hide ByteOf;
      BitSplit(ALL_ONES, 8 * m, j);
      HalvesToByte(ALL_ONES, m);
    }
  }

  lemma RegisterIsRemainder(data: seq<bv8>) returns (quotient: seq<bool>)
    ensures Divides(k => Dividend(data, k), quotient, k => Coefficient(Update(ALL_ONES, data), k))
  {
    quotient := UpdateDivides(ALL_ONES, data);
    forall k: int ensures Dividend(data, k) == DividendFrom(ALL_ONES, data, k) {
      AllOnes(k - 8 * |data|);
    }
    hide Dividend;
    hide DividendFrom;
    hide Coefficient;
    hide Product;
    hide Update;
  }

  /** The checksum with all bits inverted, read from its low end, is the remainder of the message, and nothing else is. */
  lemma ChecksumIsTheRemainder(data: seq<bv8>, remainder: Polynomial)
    ensures IsRemainder(k => Dividend(data, k), remainder) <==>
            forall k: int :: remainder(k) == Coefficient(Xor(Checksum(data), ALL_ONES), k)
  {
    var u := Update(ALL_ONES, data);
    assert Xor(Checksum(data), ALL_ONES) == u by { XorCancel(u, ALL_ONES); }
    hide Xor;
    hide Update;
    hide Bit;
    hide Dividend;
    hide Product;
    var quotient := RegisterIsRemainder(data);
    var dividend, register: Polynomial := (k: int) => Dividend(data, k), (k: int) => Coefficient(u, k);
    assert Divides(dividend, quotient, register);
    if IsRemainder(dividend, remainder) {
      var other :| Divides(dividend, other, remainder);
      forall k: int ensures remainder(k) == register(k) {
        SameRemainder(dividend, other, quotient, remainder, register, k);
      }
    }
    if forall k: int :: remainder(k) == Coefficient(u, k) {
      assert Divides(dividend, quotient, remainder);
    }
  }

  lemma {:induction false} UpdateOne(v: bv64, front: seq<bv8>, b: bv8)
    ensures Update(v, front + [b]) == ByteStep(Update(v, front), b)
  {
    assert (front + [b])[..|front|] == front;
  }

  lemma CheckByte1()
    ensures ByteStep(0xFFFF_FFFF_FFFF_FFFF, 0x31) == 0xD5D0_F17A_6B6A_3512
  {
    assert Xor(0xFFFF_FFFF_FFFF_FFFF, 0x31) == 0xFFFF_FFFF_FFFF_FFCE;
    assert Bits(0xFFFF_FFFF_FFFF_FFCE, 4) == 0x5912_C1D0_61DD_BB8D;
  }

  lemma CheckByte2()
    ensures ByteStep(0xD5D0_F17A_6B6A_3512, 0x32) == 0xFBE2_9281_D80D_A6A7
  {
    assert Xor(0xD5D0_F17A_6B6A_3512, 0x32) == 0xD5D0_F17A_6B6A_3520;
    assert Bits(0xD5D0_F17A_6B6A_3520, 4) == 0xD5D_0F17_A6B6_A352;
  }

  lemma CheckByte3()
    ensures ByteStep(0xFBE2_9281_D80D_A6A7, 0x33) == 0xCFDC_D7BB_F8E3_3A9E
  {
    assert Xor(0xFBE2_9281_D80D_A6A7, 0x33) == 0xFBE2_9281_D80D_A694;
    assert Bits(0xFBE2_9281_D80D_A694, 4) == 0x6B08_02E2_F643_5DC8;
  }

  lemma CheckByte4()
    ensures ByteStep(0xCFDC_D7BB_F8E3_3A9E, 0x34) == 0x31B1_786C_9947_3CD7
  {
    assert Xor(0xCFDC_D7BB_F8E3_3A9E, 0x34) == 0xCFDC_D7BB_F8E3_3AAA;
    assert Bits(0xCFDC_D7BB_F8E3_3AAA, 4) == 0x3EA6_D89E_CA6F_F07A;
  }

  lemma CheckByte5()
    ensures ByteStep(0x31B1_786C_9947_3CD7, 0x35) == 0xA258_B900_5AFB_A316
  {
    assert Xor(0x31B1_786C_9947_3CD7, 0x35) == 0x31B1_786C_9947_3CE2;
    assert Bits(0x31B1_786C_9947_3CE2, 4) == 0xF82C_55F6_6BF2_BF5C;
  }

  lemma CheckByte6()
    ensures ByteStep(0xA258_B900_5AFB_A316, 0x36) == 0xFB95_1AC9_A23C_3731
  {
    assert Xor(0xA258_B900_5AFB_A316, 0x36) == 0xA258_B900_5AFB_A320;
    assert Bits(0xA258_B900_5AFB_A320, 4) == 0xA25_8B90_05AF_BA32;
  }

  lemma CheckByte7()
    ensures ByteStep(0xFB95_1AC9_A23C_3731, 0x37) == 0x8FAF_60C9_9E6D_C25F
  {
    assert Xor(0xFB95_1AC9_A23C_3731, 0x37) == 0xFB95_1AC9_A23C_3706;
    assert Bits(0xFB95_1AC9_A23C_3706, 4) == 0x9038_3816_D386_8843;
  }

  lemma CheckByte8()
    ensures ByteStep(0x8FAF_60C9_9E6D_C25F, 0x38) == 0xA374_7FB7_D453_87F6
  {
    assert Xor(0x8FAF_60C9_9E6D_C25F, 0x38) == 0x8FAF_60C9_9E6D_C267;
    assert Bits(0x8FAF_60C9_9E6D_C267, 4) == 0xEAE0_3E8E_8170_F15C;
  }

  lemma CheckByte9()
    ensures ByteStep(0xA374_7FB7_D453_87F6, 0x39) == 0x66A2_3644_20E6_C605
  {
    assert Xor(0xA374_7FB7_D453_87F6, 0x39) == 0xA374_7FB7_D453_87CF;
    assert Bits(0xA374_7FB7_D453_87CF, 4) == 0x2141_D8EC_B254_1A44;
  }

  lemma NextRegister(front: seq<bv8>, b: bv8, before: bv64, after: bv64)
    requires Update(ALL_ONES, front) == before && ByteStep(before, b) == after
    ensures Update(ALL_ONES, front + [b]) == after
  {
    UpdateOne(ALL_ONES, front, b);
  }

  /** The check value of the standard: the checksum of "123456789". */
  lemma CheckValue()
    ensures Checksum([0x31, 0x32, 0x33, 0x34, 0x35, 0x36, 0x37, 0x38, 0x39]) == 0x995D_C9BB_DF19_39FA
  {
    assert Update(ALL_ONES, []) == ALL_ONES;
    hide Update;
    hide ByteStep;
    CheckByte1();
    NextRegister([], 0x31, 0xFFFF_FFFF_FFFF_FFFF, 0xD5D0_F17A_6B6A_3512);
    var m1: seq<bv8> := [] + [0x31];
    CheckByte2();
    NextRegister(m1, 0x32, 0xD5D0_F17A_6B6A_3512, 0xFBE2_9281_D80D_A6A7);
    var m2: seq<bv8> := m1 + [0x32];
    CheckByte3();
    NextRegister(m2, 0x33, 0xFBE2_9281_D80D_A6A7, 0xCFDC_D7BB_F8E3_3A9E);
    var m3: seq<bv8> := m2 + [0x33];
    CheckByte4();
    NextRegister(m3, 0x34, 0xCFDC_D7BB_F8E3_3A9E, 0x31B1_786C_9947_3CD7);
    var m4: seq<bv8> := m3 + [0x34];
    CheckByte5();
    NextRegister(m4, 0x35, 0x31B1_786C_9947_3CD7, 0xA258_B900_5AFB_A316);
    var m5: seq<bv8> := m4 + [0x35];
    CheckByte6();
    NextRegister(m5, 0x36, 0xA258_B900_5AFB_A316, 0xFB95_1AC9_A23C_3731);
    var m6: seq<bv8> := m5 + [0x36];
    CheckByte7();
    NextRegister(m6, 0x37, 0xFB95_1AC9_A23C_3731, 0x8FAF_60C9_9E6D_C25F);
    var m7: seq<bv8> := m6 + [0x37];
    CheckByte8();
    NextRegister(m7, 0x38, 0x8FAF_60C9_9E6D_C25F, 0xA374_7FB7_D453_87F6);
    var m8: seq<bv8> := m7 + [0x38];
    CheckByte9();
    NextRegister(m8, 0x39, 0xA374_7FB7_D453_87F6, 0x66A2_3644_20E6_C605);
    assert m8 + [0x39] == [0x31, 0x32, 0x33, 0x34, 0x35, 0x36, 0x37, 0x38, 0x39];
  }
}
