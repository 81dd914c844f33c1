/** CRC-64/XZ as `binary_hashing.py` computes it: bit by bit, reflected, over a file read in chunks. See section 6 of
    The .xz File Format; the polynomial is the reversed one of ECMA-182. */
module Crc64 {
  type Register = bv64

  const POLYNOMIAL: bv64 := 0xC96C_5795_D787_0F42

  const ALL_ONES: bv64 := 0xFFFF_FFFF_FFFF_FFFF

  // ---------------------------------------------------------------------------------------------
  // Specification.

  function Xor(a: bv64, b: bv64): bv64 {
    a ^ b
  }

  function Half(v: bv64): bv64 {
    v >> 1
  }

  function Feedback(v: bv64): bv64 {
    if v & 1 == 1 then POLYNOMIAL else 0
  }

  function BitStep(v: bv64): bv64 {
    Xor(Half(v), Feedback(v))
  }

  function Bits(v: bv64, n: nat): bv64 {
    if n == 0 then v else BitStep(Bits(v, n - 1))
  }

  function ByteStep(v: bv64, b: bv8): bv64 {
    Bits(Xor(v, b as bv64), 8)
  }

  /** The register after the bytes of `data`. */
  function Update(v: bv64, data: seq<bv8>): bv64 {
    if data == [] then v else ByteStep(Update(v, data[..|data| - 1]), data[|data| - 1])
  }

  /** The checksum of a whole file. */
  function Checksum(data: seq<bv8>): bv64 {
    Xor(Update(ALL_ONES, data), ALL_ONES)
  }

  // ---------------------------------------------------------------------------------------------
  // The code.

  method UpdateChunk(checksum: bv64, data: seq<bv8>) returns (value: bv64)
    ensures value == Update(checksum, data)
  {
    hide BitStep;
    hide Xor;
    value := checksum;
    for i := 0 to |data|
      invariant value == Update(checksum, data[..i])
    {
      assert data[..i + 1][..i] == data[..i];
      value := Xor(value, data[i] as bv64);
      ghost var start := value;
      for n := 0 to 8
        invariant value == Bits(start, n)
      {
        value := BitStep(value);
      }
    }
    assert data[..|data|] == data;
  }

  function Joined(chunks: seq<seq<bv8>>): seq<bv8> {
    if chunks == [] then [] else Joined(chunks[..|chunks| - 1]) + chunks[|chunks| - 1]
  }

  /** `chunks` is what successive reads return until the first empty one. */
  method HashFile(chunks: seq<seq<bv8>>) returns (crc64: bv64, size: nat)
    ensures crc64 == Checksum(Joined(chunks))
    ensures size == |Joined(chunks)|
  {
    hide Xor;
    hide ByteStep;
    var value := ALL_ONES;
    size := 0;
    for i := 0 to |chunks|
      invariant value == Update(ALL_ONES, Joined(chunks[..i]))
      invariant size == |Joined(chunks[..i])|
    {
      assert chunks[..i + 1][..i] == chunks[..i];
      UpdateConcat(ALL_ONES, Joined(chunks[..i]), chunks[i]);
      value := UpdateChunk(value, chunks[i]);
      size := size + |chunks[i]|;
    }
    assert chunks[..|chunks|] == chunks;
    crc64 := Xor(value, ALL_ONES);
  }

  /** Chunk boundaries do not matter. */
  lemma {:induction false} UpdateConcat(v: bv64, a: seq<bv8>, b: seq<bv8>)
    ensures Update(v, a + b) == Update(Update(v, a), b)
  {
    if b == [] {
      assert a + b == a;
    } else {
      UpdateConcat(v, a, b[..|b| - 1]);
      assert (a + b)[..|a + b| - 1] == a + b[..|b| - 1];
    }
  }

  // ---------------------------------------------------------------------------------------------
  // Linearity and invertibility.

  lemma HalfXor(a: bv64, b: bv64)
    ensures Half(Xor(a, b)) == Xor(Half(a), Half(b))
  {}

  lemma XorAssociative(a: bv64, b: bv64, c: bv64)
    ensures Xor(Xor(a, b), c) == Xor(a, Xor(b, c))
  {}

  lemma XorCommutes(a: bv64, b: bv64)
    ensures Xor(a, b) == Xor(b, a)
  {}

  lemma XorSwap(a: bv64, b: bv64, c: bv64, d: bv64)
    ensures Xor(Xor(a, b), Xor(c, d)) == Xor(Xor(a, c), Xor(b, d))
  {
    hide Xor;
    XorAssociative(a, b, Xor(c, d));
    XorAssociative(b, c, d);
    XorCommutes(b, c);
    XorAssociative(c, b, d);
    XorAssociative(a, c, Xor(b, d));
  }

  lemma XorCancel(a: bv64, b: bv64)
    ensures Xor(a, a) == 0 && Xor(a, 0) == a && Xor(0, a) == a && Xor(Xor(a, b), b) == a
    ensures Xor(a, b) == 0 <==> a == b
  {}

  lemma LowBitXor(a: bv64, b: bv64)
    ensures ((a ^ b) & 1 == 1) <==> ((a & 1 == 1) != (b & 1 == 1))
  {}

  lemma FeedbackXor(a: bv64, b: bv64)
    ensures Feedback(Xor(a, b)) == Xor(Feedback(a), Feedback(b))
  {
    LowBitXor(a, b);
  }

  lemma BitStepXor(a: bv64, b: bv64)
    ensures BitStep(Xor(a, b)) == Xor(BitStep(a), BitStep(b))
  {
    hide Xor;
    hide Half;
    hide Feedback;
    HalfXor(a, b);
    FeedbackXor(a, b);
    XorSwap(Half(a), Half(b), Feedback(a), Feedback(b));
  }

  lemma {:induction false} BitsXor(a: bv64, b: bv64, n: nat)
    ensures Bits(Xor(a, b), n) == Xor(Bits(a, n), Bits(b, n))
  {
    hide Xor;
    hide BitStep;
    if n > 0 {
      BitsXor(a, b, n - 1);
      BitStepXor(Bits(a, n - 1), Bits(b, n - 1));
    }
  }

  /** The top bit of the polynomial is set, so the step loses nothing. */
  lemma BitStepZero(v: bv64)
    requires BitStep(v) == 0
    ensures v == 0
  {}

  lemma {:induction false} BitsZero(v: bv64, n: nat)
    requires Bits(v, n) == 0
    ensures v == 0
  {
    hide BitStep;
    if n > 0 {
      BitStepZero(Bits(v, n - 1));
      BitsZero(v, n - 1);
    }
  }

  // ---------------------------------------------------------------------------------------------
  // Error detection.

  /** The xor of two messages, byte by byte. */
  function Difference(a: seq<bv8>, b: seq<bv8>): (d: seq<bv8>)
    requires |a| == |b|
    ensures |d| == |a|
  {
    seq(|a|, i requires 0 <= i < |a| => a[i] ^ b[i])
  }

  lemma WidenXor(x: bv8, y: bv8)
    ensures (x ^ y) as bv64 == Xor(x as bv64, y as bv64)
  {}

  /** The checksums of two equally long messages differ by the register that their difference leaves from zero. */
  lemma {:induction false} UpdateXor(u: bv64, v: bv64, a: seq<bv8>, b: seq<bv8>)
    requires |a| == |b|
    ensures Xor(Update(u, a), Update(v, b)) == Update(Xor(u, v), Difference(a, b))
  {
    hide Xor;
    hide BitStep;
    if a != [] {
      var n := |a| - 1;
      UpdateXor(u, v, a[..n], b[..n]);
      assert Difference(a, b)[..n] == Difference(a[..n], b[..n]);
      ByteStepXor(Update(u, a[..n]), Update(v, b[..n]), a[n], b[n]);
    }
  }

  lemma ByteStepXor(u: bv64, v: bv64, x: bv8, y: bv8)
    ensures Xor(ByteStep(u, x), ByteStep(v, y)) == ByteStep(Xor(u, v), x ^ y)
  {
    WidenXor(x, y);
    hide Xor;
    hide BitStep;
    XorSwap(u, x as bv64, v, y as bv64);
    BitsXor(Xor(u, x as bv64), Xor(v, y as bv64), 8);
  }

  /** A register that is not zero stays so while equal bytes are read. */
  lemma {:induction false} ZerosKeep(v: bv64, zeros: seq<bv8>)
    requires forall i :: 0 <= i < |zeros| ==> zeros[i] == 0
    ensures Update(v, zeros) == 0 <==> v == 0
  {
    hide BitStep;
    if zeros != [] {
      var n := |zeros| - 1;
      ZerosKeep(v, zeros[..n]);
      ZeroByte(Update(v, zeros[..n]));
    }
  }

  lemma ZeroByte(v: bv64)
    ensures ByteStep(v, 0) == 0 <==> v == 0
  {
    XorCancel(v, v);
    hide Xor;
    if ByteStep(v, 0) == 0 {
      BitsZero(v, 8);
    } else {
      ZeroBits(8);
    }
  }

  lemma {:induction false} ZeroBits(n: nat)
    ensures Bits(0, n) == 0
  {
    if n > 0 {
      ZeroBits(n - 1);
    }
  }

  const TOP_BYTE_CLEAR: bv64 := 0x0100_0000_0000_0000

  function ShiftByte(y: bv64): bv64 {
    y << 8
  }

  function Double(x: bv64): bv64 {
    x << 1
  }

  function Doubled(y: bv64, m: nat): bv64 {
    if m == 0 then y else Double(Doubled(y, m - 1))
  }

  predicate TopBitClear(x: bv64) {
    x < 0x8000_0000_0000_0000
  }

  /** No feedback happens while the low bit is clear. */
  lemma StepUndoesDouble(x: bv64)
    requires TopBitClear(x)
    ensures BitStep(Double(x)) == x
  {}

  /** At least `k + 1` of the top bits are clear. */
  predicate Room(x: bv64, k: nat)
    requires k < 8
  {
    x < [0x8000_0000_0000_0000, 0x4000_0000_0000_0000, 0x2000_0000_0000_0000, 0x1000_0000_0000_0000,
         0x0800_0000_0000_0000, 0x0400_0000_0000_0000, 0x0200_0000_0000_0000, 0x0100_0000_0000_0000][k]
  }

  lemma DoubleRoom(x: bv64, k: nat)
    requires k < 7 && Room(x, k + 1)
    ensures Room(Double(x), k)
  {
    if k == 0 {
    } else if k == 1 {
    } else if k == 2 {
    } else if k == 3 {
    } else if k == 4 {
    } else if k == 5 {
    } else {
      assert k == 6;
    }
  }

  lemma RoomIsClear(x: bv64, k: nat)
    requires k < 8 && Room(x, k)
    ensures TopBitClear(x)
  {}

  lemma ByteIsRoom(y: bv64)
    requires y < TOP_BYTE_CLEAR
    ensures Room(y, 7)
  {}

  /** A word with `k + 1` clear top bits can be doubled `k` times before a bit reaches the top. */
  lemma {:induction false} DoubledHasRoom(y: bv64, k: nat, m: nat)
    requires m <= k < 8 && Room(y, k)
    ensures Room(Doubled(y, m), k - m) && TopBitClear(Doubled(y, m))
  {
    hide Room;
    hide Double;
    hide TopBitClear;
    if m > 0 {
      DoubledHasRoom(y, k, m - 1);
      DoubleRoom(Doubled(y, m - 1), k - m);
    }
    RoomIsClear(Doubled(y, m), k - m);
  }

  lemma FourDoubles(y: bv64)
    ensures Double(Double(Double(Double(y)))) == y << 4
  {}

  lemma EightDoubles(y: bv64)
    ensures Double(Double(Double(Double(Double(Double(Double(Double(y)))))))) == ShiftByte(y)
  {
    FourDoubles(y);
    FourDoubles(y << 4);
  }

  lemma DoubledTwice(y: bv64, m: nat)
    ensures Doubled(y, m + 2) == Double(Double(Doubled(y, m)))
    ensures Doubled(y, 0) == y
  {
    hide Double;
    assert Doubled(y, m + 1) == Double(Doubled(y, m));
  }

  lemma DoubledEight(y: bv64)
    ensures Doubled(y, 8) == ShiftByte(y)
  {
    EightDoubles(y);
    hide Double;
    hide ShiftByte;
    DoubledTwice(y, 0);
    DoubledTwice(y, 2);
    DoubledTwice(y, 4);
    DoubledTwice(y, 6);
  }

  lemma {:induction false} StepsUndoDoubling(y: bv64, m: nat, n: nat)
    requires n <= m && forall j :: 0 <= j < m ==> TopBitClear(Doubled(y, j))
    ensures Bits(Doubled(y, m), n) == Doubled(y, m - n)
  {
    hide BitStep;
    hide Double;
    hide TopBitClear;
    if n > 0 {
      StepsUndoDoubling(y, m, n - 1);
      StepUndoesDouble(Doubled(y, m - n));
    }
  }

  /** Eight steps undo a shift by one byte. */
  lemma BitsBack(y: bv64)
    requires y < TOP_BYTE_CLEAR
    ensures Bits(ShiftByte(y), 8) == y
  {
    DoubledEight(y);
    ByteIsRoom(y);
    hide Double;
    hide TopBitClear;
    hide BitStep;
    hide ShiftByte;
    hide Room;
    forall j | 0 <= j < 8
      ensures TopBitClear(Doubled(y, j))
    {
      DoubledHasRoom(y, 7, j);
    }
    StepsUndoDoubling(y, 8, 8);
  }

  /** The only register that one byte turns into `y`. */
  lemma ByteStepBack(v: bv64, b: bv8, y: bv64)
    requires y < TOP_BYTE_CLEAR && ByteStep(v, b) == y
    ensures v == Xor(ShiftByte(y), b as bv64)
  {
    BitsBack(y);
    var x, z := Xor(v, b as bv64), ShiftByte(y);
    XorCancel(v, b as bv64);
    XorCancel(x, z);
    XorCancel(y, y);
    hide Xor;
    hide BitStep;
    BitsXor(x, z, 8);
    BitsZero(Xor(x, z), 8);
  }

  /** Up to eight bytes as a little-endian word. */
  function Packed(w: seq<bv8>): bv64 {
    if w == [] then 0 else Xor(ShiftByte(Packed(w[1..])), w[0] as bv64)
  }

  /** `y` fits in `k` bytes. */
  predicate Fits(y: bv64, k: nat)
    requires k < 8
  {
    y < [0x1, 0x100, 0x1_0000, 0x100_0000, 0x1_0000_0000, 0x100_0000_0000, 0x1_0000_0000_0000, 0x100_0000_0000_0000][k]
  }

  lemma ZeroFits()
    ensures Fits(0, 0)
  {}

  lemma PackOne(y: bv64, b: bv8, k: nat)
    requires k < 7 && Fits(y, k)
    ensures Fits(Xor(ShiftByte(y), b as bv64), k + 1)
  {
    if k == 0 {
    } else if k == 1 {
    } else if k == 2 {
    } else if k == 3 {
    } else if k == 4 {
    } else if k == 5 {
    } else {
      assert k == 6;
    }
  }

  lemma {:induction false} PackedSmall(w: seq<bv8>)
    requires |w| < 8
    ensures Fits(Packed(w), |w|)
  {
    hide Xor;
    hide ShiftByte;
    hide Fits;
    if w == [] {
      ZeroFits();
    } else {
      PackedSmall(w[1..]);
      PackOne(Packed(w[1..]), w[0], |w| - 1);
    }
  }

  /** Only their own little-endian word is cleared by the bytes. */
  lemma {:induction false} ClearedIsPacked(v: bv64, w: seq<bv8>)
    requires |w| <= 8 && Update(v, w) == 0
    ensures v == Packed(w)
    decreases |w|
  {
    hide Fits;
    hide Xor;
    hide ShiftByte;
    hide ByteStep;
    if w != [] {
      var tail := w[1..];
      assert w == [w[0]] + tail;
      UpdateConcat(v, [w[0]], tail);
      assert [w[0]][..0] == [];
      assert Update(v, [w[0]]) == ByteStep(v, w[0]);
      ClearedIsPacked(ByteStep(v, w[0]), tail);
      PackedSmall(tail);
      SmallIsClear(Packed(tail), |tail|);
      ByteStepBack(v, w[0], Packed(tail));
    }
  }

  lemma SmallIsClear(y: bv64, k: nat)
    requires k < 8 && Fits(y, k)
    ensures y < TOP_BYTE_CLEAR
  {}

  lemma PackZero(y: bv64, b: bv8)
    requires y < TOP_BYTE_CLEAR && Xor(ShiftByte(y), b as bv64) == 0
    ensures y == 0 && b == 0
  {}

  lemma {:induction false} PackedZero(w: seq<bv8>)
    requires |w| <= 8 && Packed(w) == 0
    ensures forall i :: 0 <= i < |w| ==> w[i] == 0
  {
    if w != [] {
      PackedSmall(w[1..]);
      SmallIsClear(Packed(w[1..]), |w| - 1);
      PackZero(Packed(w[1..]), w[0]);
      PackedZero(w[1..]);
    }
  }

  /** Two files of equal length that differ only inside one window of eight consecutive bytes have
      different checksums. */
  lemma WindowErrorDetected(before: seq<bv8>, x: seq<bv8>, y: seq<bv8>, after: seq<bv8>)
    requires |x| == |y| <= 8 && x != y
    ensures Checksum(before + x + after) != Checksum(before + y + after)
  {
    var v := Update(ALL_ONES, before);
    var u, w := Update(v, x), Update(v, y);
    UpdateConcat(ALL_ONES, before, x);
    UpdateConcat(ALL_ONES, before, y);
    UpdateConcat(ALL_ONES, before + x, after);
    UpdateConcat(ALL_ONES, before + y, after);
    WindowDiffers(v, x, y);
    SuffixKeeps(u, w, after);
    ChecksumInjective(Update(u, after), Update(w, after));
  }

  /** The same for any way of reading the two files in chunks. */
  lemma ChunkedWindowErrorDetected(a: seq<seq<bv8>>, b: seq<seq<bv8>>, before: seq<bv8>, x: seq<bv8>, y: seq<bv8>,
                                   after: seq<bv8>)
    requires Joined(a) == before + x + after && Joined(b) == before + y + after
    requires |x| == |y| <= 8 && x != y
    ensures Checksum(Joined(a)) != Checksum(Joined(b))
  {
    WindowErrorDetected(before, x, y, after);
  }

  lemma WindowDiffers(v: bv64, x: seq<bv8>, y: seq<bv8>)
    requires |x| == |y| <= 8 && x != y
    ensures Update(v, x) != Update(v, y)
  {
    XorCancel(v, v);
    XorCancel(Update(v, x), Update(v, y));
    UpdateXor(v, v, x, y);
    hide Xor;
    hide BitStep;
    if Update(v, x) == Update(v, y) {
      ClearedIsPacked(0, Difference(x, y));
      PackedZero(Difference(x, y));
      ZeroDifference(x, y);
    }
  }

  lemma ZeroDifference(x: seq<bv8>, y: seq<bv8>)
    requires |x| == |y| && forall i :: 0 <= i < |x| ==> Difference(x, y)[i] == 0
    ensures x == y
  {
    forall i | 0 <= i < |x| ensures x[i] == y[i] {
      assert Difference(x, y)[i] == 0;
      SameByte(x[i], y[i]);
    }
  }

  lemma SameByte(a: bv8, b: bv8)
    requires a ^ b == 0
    ensures a == b
  {}

  lemma SuffixKeeps(u: bv64, w: bv64, after: seq<bv8>)
    requires u != w
    ensures Update(u, after) != Update(w, after)
  {
    XorCancel(u, w);
    XorCancel(Update(u, after), Update(w, after));
    UpdateXor(u, w, after, after);
    SelfDifference(after);
    hide Xor;
    ZerosKeep(Xor(u, w), Difference(after, after));
  }

  lemma SelfDifference(a: seq<bv8>)
    ensures forall i :: 0 <= i < |a| ==> Difference(a, a)[i] == 0
  {}

  lemma ChecksumInjective(u: bv64, w: bv64)
    requires u != w
    ensures Xor(u, ALL_ONES) != Xor(w, ALL_ONES)
  {
    XorCancel(u, ALL_ONES);
    XorCancel(w, ALL_ONES);
  }

  // Bursts over nine bytes

  lemma {:induction false} BitsSplit(v: bv64, m: nat, n: nat)
    ensures Bits(v, m + n) == Bits(Bits(v, m), n)
  {
    hide BitStep;
    if n > 0 {
      BitsSplit(v, m, n - 1);
    }
  }

  /** `n` steps undo `n` doublings of a word with room for them. */
  lemma StepsUndo(y: bv64, n: nat)
    requires 1 <= n <= 8 && Room(y, n - 1)
    ensures Bits(Doubled(y, n), n) == y
  {
    hide Room;
    hide Double;
    hide TopBitClear;
    hide BitStep;
    forall j | 0 <= j < n
      ensures TopBitClear(Doubled(y, j))
    {
      DoubledHasRoom(y, n - 1, j);
    }
    StepsUndoDoubling(y, n, n);
  }

  lemma BitsInjective(a: bv64, b: bv64, n: nat)
    requires Bits(a, n) == Bits(b, n)
    ensures a == b
  {
    XorCancel(a, b);
    XorCancel(Bits(a, n), Bits(b, n));
    BitsXor(a, b, n);
    hide Xor;
    hide BitStep;
    BitsZero(Xor(a, b), n);
  }

  /** The `k` low bits are clear. */
  predicate LowClear(x: bv64, k: nat)
    requires k < 8
  {
    x & [0, 1, 3, 7, 15, 31, 63, 127][k] == 0
  }

  /** The word has at most `k` bits. */
  predicate Narrow(x: bv64, k: nat)
    requires k <= 8
  {
    x < [1, 2, 4, 8, 16, 32, 64, 128, 256][k]
  }

  lemma DoubleLowClear(x: bv64, k: nat)
    requires k < 7 && LowClear(x, k)
    ensures LowClear(Double(x), k + 1)
  {
    if k == 0 {
    } else if k == 1 {
    } else if k == 2 {
    } else if k == 3 {
    } else if k == 4 {
    } else if k == 5 {
    } else {
      assert k == 6;
    }
  }

  lemma {:induction false} DoubledLowClear(x: bv64, k: nat)
    requires k < 8
    ensures LowClear(Doubled(x, k), k)
  {
    hide Double;
    if k > 0 {
      DoubledLowClear(x, k - 1);
      hide LowClear;
      DoubleLowClear(Doubled(x, k - 1), k - 1);
    }
  }

  lemma NarrowAndClear(x: bv64, k: nat)
    requires k < 8 && Narrow(x, k) && LowClear(x, k)
    ensures x == 0
  {
    if k == 0 {
    } else if k == 1 {
    } else if k == 2 {
    } else if k == 3 {
    } else if k == 4 {
    } else if k == 5 {
    } else if k == 6 {
    } else {
      assert k == 7;
    }
  }

  lemma HalfNarrow(x: bv64, k: nat)
    requires 1 <= k <= 8 && Narrow(x, k)
    ensures Narrow(Half(x), k - 1)
  {
    if k == 1 {
    } else if k == 2 {
    } else if k == 3 {
    } else if k == 4 {
    } else if k == 5 {
    } else if k == 6 {
    } else if k == 7 {
    } else {
      assert k == 8;
    }
  }

  lemma EvenHalves(x: bv64)
    requires x & 1 == 0
    ensures Double(Half(x)) == x
  {}

  lemma LowClearIsEven(x: bv64, s: nat)
    requires 1 <= s < 8 && LowClear(x, s)
    ensures x & 1 == 0
  {
    if s == 1 {
    } else if s == 2 {
    } else if s == 3 {
    } else if s == 4 {
    } else if s == 5 {
    } else if s == 6 {
    } else {
      assert s == 7;
    }
  }

  lemma HalfMasked(x: bv64, low: bv64)
    requires low < 0x80 && x & (2 * low + 1) == 0
    ensures Half(x) & low == 0
  {}

  lemma HalfLowClear(x: bv64, s: nat)
    requires 1 <= s < 8 && LowClear(x, s)
    ensures Double(Half(x)) == x && LowClear(Half(x), s - 1)
  {
    hide Half;
    hide Double;
    assert Double(Half(x)) == x by {
      LowClearIsEven(x, s);
      EvenHalves(x);
    }
    assert LowClear(Half(x), s - 1) by {
      var low: bv64 := [0, 1, 3, 7, 15, 31, 63][s - 1];
      assert 2 * low + 1 == [0, 1, 3, 7, 15, 31, 63, 127][s];
      HalfMasked(x, low);
    }
  }

  /** A word with `s` clear low bits is one that was doubled `s` times. */
  lemma {:induction false} Undouble(x: bv64, s: nat, k: nat) returns (e: bv64)
    requires s < 8 && s <= k <= 8 && LowClear(x, s) && Narrow(x, k)
    ensures Doubled(e, s) == x && Narrow(e, k - s)
    decreases s
  {
    hide LowClear;
    hide Narrow;
    hide Half;
    hide Double;
    if s == 0 {
      e := x;
    } else {
      HalfNarrow(x, k);
      HalfLowClear(x, s);
      e := Undouble(Half(x), s - 1, k - 1);
    }
  }

  lemma NarrowHasRoom(x: bv64, k: nat)
    requires k <= 8 && Narrow(x, k)
    ensures forall r :: 0 <= r < 8 ==> Room(x, r)
  {
    if k == 0 {
    } else if k == 1 {
    } else if k == 2 {
    } else if k == 3 {
    } else if k == 4 {
    } else if k == 5 {
    } else if k == 6 {
    } else if k == 7 {
    } else {
      assert k == 8;
    }
  }

  function DropByte(y: bv64): bv64 {
    y >> 8
  }

  /** The last of `n` packed bytes, and what lies above it. */
  function Top(y: bv64, n: nat): bv64 {
    if n <= 1 then y else Top(DropByte(y), n - 1)
  }

  lemma DropPacked(y: bv64, b: bv8)
    requires y < TOP_BYTE_CLEAR
    ensures DropByte(Xor(ShiftByte(y), b as bv64)) == y
  {}

  lemma TopStep(y: bv64, b: bv8, n: nat)
    requires 1 <= n && y < TOP_BYTE_CLEAR
    ensures Top(Xor(ShiftByte(y), b as bv64), n + 1) == Top(y, n)
  {
    DropPacked(y, b);
    hide Xor;
    hide ShiftByte;
    hide DropByte;
  }

  lemma TwoDrops(y: bv64, n: nat)
    ensures Top(y, n + 3) == Top(DropByte(DropByte(y)), n + 1)
  {
    hide DropByte;
  }

  lemma DropsAre(y: bv64)
    ensures DropByte(DropByte(y)) == y >> 16 && DropByte(DropByte(y >> 16)) == y >> 32
    ensures DropByte(DropByte(y >> 32)) == y >> 48 && DropByte(y >> 48) == y >> 56
  {}

  lemma TopEight(y: bv64)
    ensures Top(y, 8) == y >> 56
  {
    DropsAre(y);
    hide DropByte;
    TwoDrops(y, 5);
    TwoDrops(y >> 16, 3);
    TwoDrops(y >> 32, 1);
  }

  lemma {:induction false} PackedTop(w: seq<bv8>)
    requires 1 <= |w| <= 8
    ensures Top(Packed(w), |w|) == w[|w| - 1] as bv64
  {
    if |w| == 1 {
      assert Packed(w[1..]) == 0;
      ZeroShift(w[0]);
    } else {
      hide Xor;
      hide ShiftByte;
      hide Top;
      hide Fits;
      PackedTop(w[1..]);
      PackedSmall(w[1..]);
      SmallIsClear(Packed(w[1..]), |w| - 1);
      TopStep(Packed(w[1..]), w[0], |w| - 1);
    }
  }

  lemma ZeroShift(b: bv8)
    ensures Xor(ShiftByte(0), b as bv64) == b as bv64
  {}

  /** Eight bytes of which the last has at most `s` bits leave the other top bits clear. */
  lemma TopHasRoom(y: bv64, s: nat)
    requires 1 <= s <= 7 && Narrow(Top(y, 8), s)
    ensures Room(y, 7 - s)
  {
    TopEight(y);
    hide Top;
    if s == 1 {
    } else if s == 2 {
    } else if s == 3 {
    } else if s == 4 {
    } else if s == 5 {
    } else if s == 6 {
    } else {
      assert s == 7;
    }
  }

  lemma DoubledZero(k: nat)
    ensures Doubled(0, k) == 0
  {
    if k > 0 {
      DoubledZero(k - 1);
    }
  }

  /** A difference of nine bytes whose first has `s` clear low bits and whose last has at most `s` bits. */
  ghost predicate Burst(d: seq<bv8>, s: nat) {
    |d| == 9 && 1 <= s <= 7 && LowClear(d[0] as bv64, s) && Narrow(d[8] as bv64, s)
  }

  /** The register behind the first byte of a burst, seen from both sides, is zero. */
  lemma BurstMeets(first: bv64, s: nat, y: bv64)
    requires 1 <= s <= 7 && LowClear(first, s) && Narrow(first, 8) && Room(y, 7 - s) && Bits(first, 8) == y
    ensures first == 0 && y == 0
  {
    hide LowClear;
    hide Narrow;
    hide Room;
    hide BitStep;
    hide Double;
    var e := Undouble(first, s, 8);
    BitsSplit(first, s, 8 - s);
    NarrowHasRoom(e, 8 - s);
    StepsUndo(e, s);
    StepsUndo(y, 8 - s);
    BitsInjective(e, Doubled(y, 8 - s), 8 - s);
    DoubledLowClear(y, 8 - s);
    NarrowAndClear(e, 8 - s);
    DoubledZero(s);
    ZeroBits(8);
  }

  lemma ByteIsNarrow(b: bv8)
    ensures Narrow(b as bv64, 8) && (b as bv64 == 0 ==> b == 0)
  {}

  lemma BurstIsZero(d: seq<bv8>, s: nat)
    requires Burst(d, s) && Update(0, d) == 0
    ensures forall i :: 0 <= i < |d| ==> d[i] == 0
  {
    hide LowClear;
    hide Narrow;
    hide BitStep;
    hide Xor;
    hide Packed;
    hide Room;
    hide Top;
    var tail := d[1..];
    assert d == [d[0]] + tail && [d[0]][..0] == [];
    UpdateConcat(0, [d[0]], tail);
    FirstByte(d[0]);
    ClearedIsPacked(Bits(d[0] as bv64, 8), tail);
    PackedTop(tail);
    TopHasRoom(Packed(tail), s);
    ByteIsNarrow(d[0]);
    BurstMeets(d[0] as bv64, s, Packed(tail));
    PackedZero(tail);
    forall i | 0 <= i < |d|
      ensures d[i] == 0
    {
      if i > 0 {
        assert d[i] == tail[i - 1];
      }
    }
  }

  lemma FirstByte(b: bv8)
    ensures Update(0, [b]) == Bits(b as bv64, 8)
  {
    XorCancel(b as bv64, 0);
    hide Xor;
    hide BitStep;
    assert [b][..0] == [];
    assert Update(0, [b]) == ByteStep(0, b);
  }

  /** Every burst of at most 64 bits is detected, also when it spans nine bytes: two files of equal length that differ in
      nine consecutive bytes, not in the first `s` bits of the first nor behind the first `s` bits of the last (bits are
      counted from the low end, as the register takes them), have different checksums. */
  lemma BurstErrorDetected(before: seq<bv8>, x: seq<bv8>, y: seq<bv8>, after: seq<bv8>, s: nat)
    requires |x| == |y| == 9 && x != y && Burst(Difference(x, y), s)
    ensures Checksum(before + x + after) != Checksum(before + y + after)
  {
    var v := Update(ALL_ONES, before);
    var u, w := Update(v, x), Update(v, y);
    UpdateConcat(ALL_ONES, before, x);
    UpdateConcat(ALL_ONES, before, y);
    UpdateConcat(ALL_ONES, before + x, after);
    UpdateConcat(ALL_ONES, before + y, after);
    hide Burst;
    BurstDiffers(v, x, y, s);
    SuffixKeeps(u, w, after);
    ChecksumInjective(Update(u, after), Update(w, after));
  }

  lemma BurstDiffers(v: bv64, x: seq<bv8>, y: seq<bv8>, s: nat)
    requires |x| == |y| && x != y && Burst(Difference(x, y), s)
    ensures Update(v, x) != Update(v, y)
  {
    hide Burst;
    XorCancel(v, v);
    XorCancel(Update(v, x), Update(v, y));
    UpdateXor(v, v, x, y);
    hide Xor;
    hide BitStep;
    if Update(v, x) == Update(v, y) {
      BurstIsZero(Difference(x, y), s);
      ZeroDifference(x, y);
    }
  }
}
