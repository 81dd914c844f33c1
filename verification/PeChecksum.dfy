/** The checksum of a PE file: a 16-bit one's-complement sum plus the file size. */
module PeChecksum {
  import opened Bytes

  const CHECKSUM_OFFSET: nat := 0xD8
  const WORDS: nat := 0x1_0000

  predicate InField(offset: nat) {
    CHECKSUM_OFFSET <= offset < CHECKSUM_OFFSET + 4
  }

  /** The little-endian word at an offset, with the checksum field read as zero. */
  function WordAt(data: seq<Byte>, offset: nat): (w: nat)
    requires offset + 1 < |data|
    ensures w < WORDS
  {
    var low: int, high: int := data[offset], data[offset + 1];
    if InField(offset) then 0 else low + 0x100 * high
  }

  /** The sum of the first `n` words. */
  function WordSum(data: seq<Byte>, n: nat): nat
    requires 2 * n <= |data|
  {
    if n == 0 then 0 else WordSum(data, n - 1) + WordAt(data, 2 * n - 2)
  }

  /** Everything that is summed: all whole words, and the last byte of an odd file. */
  function FileSum(data: seq<Byte>): nat {
    WordSum(data, |data| / 2) + if |data| % 2 == 1 then data[|data| - 1] else 0
  }

  /** The sum reduced to 16 bits with end-around carry: zero only for zero, else in `1..0xFFFF`. */
  function OnesComplement(n: nat): (r: nat)
    ensures r < WORDS
    ensures r % 0xFFFF == n % 0xFFFF
    ensures r == 0 <==> n == 0
  {
    if n == 0 then 0 else (n - 1) % 0xFFFF + 1
  }

  function Fold(total: nat): nat {
    total % WORDS + total / WORDS
  }

  lemma FoldKeeps(total: nat)
    ensures OnesComplement(Fold(total)) == OnesComplement(total)
    ensures total < 2 * WORDS - 1 ==> Fold(total) < WORDS
  {
    var q := total / WORDS;
    assert total == Fold(total) + 0xFFFF * q;
    if total > 0 {
      ModuloShift(Fold(total) - 1, q);
    }
  }

  lemma ModuloShift(x: int, q: int)
    ensures (x + 0xFFFF * q) % 0xFFFF == x % 0xFFFF
  {}

  lemma SameRemainder(x: nat, y: nat)
    requires x % 0xFFFF == y % 0xFFFF
    ensures y == x + 0xFFFF * (y / 0xFFFF - x / 0xFFFF)
  {}

  lemma SumStep(total: nat, sum: nat, more: nat)
    requires OnesComplement(total) == OnesComplement(sum)
    ensures OnesComplement(total + more) == OnesComplement(sum + more)
  {
    SameRemainder(total, sum);
    if total + more > 0 {
      ModuloShift(total + more - 1, sum / 0xFFFF - total / 0xFFFF);
    }
  }

  lemma Settled(total: nat)
    requires total < WORDS
    ensures OnesComplement(total) == total
  {}

  method Checksum(data: seq<Byte>) returns (r: nat)
    ensures r == (OnesComplement(FileSum(data)) + |data|) % 0x1_0000_0000
  {
    hide OnesComplement;
    hide Fold;
    var size := |data|;
    var total: nat := 0;
    var off: nat := 0;
    ghost var n: nat := 0;
    while off < size - 1
      invariant off == 2 * n <= size
      invariant total < WORDS
      invariant OnesComplement(total) == OnesComplement(WordSum(data, n))
    {
      var low: int, high: int := data[off], data[off + 1];
      var val := if InField(off) then 0 else low + 0x100 * high;
      SumStep(total, WordSum(data, n), val);
      total := total + val;
      FoldKeeps(total);
      total := Fold(total);
      off, n := off + 2, n + 1;
    }
    HalfSize(size, n);
    if size % 2 == 1 {
      SumStep(total, WordSum(data, n), data[size - 1]);
      total := total + data[size - 1];
    }
    FoldKeeps(total);
    total := Fold(total);
    FoldKeeps(total);
    total := Fold(total);
    Settled(total);
    r := (total + size) % 0x1_0000_0000;
  }

  lemma HalfSize(size: nat, n: nat)
    requires size - 1 <= 2 * n <= size
    ensures n == size / 2 && size == 2 * n + size % 2
  {}

  /** Files that differ only in the checksum field. */
  predicate SameButField(a: seq<Byte>, b: seq<Byte>) {
    |a| == |b| && forall i: nat :: i < |a| && !InField(i) ==> a[i] == b[i]
  }

  /** Some counted byte lies in the field: the odd last byte of a file cut inside it. */
  predicate CutInField(size: nat) {
    size == CHECKSUM_OFFSET + 1 || size == CHECKSUM_OFFSET + 3
  }

  lemma {:induction false} WordsIgnoreField(a: seq<Byte>, b: seq<Byte>, n: nat)
    requires SameButField(a, b) && 2 * n <= |a|
    ensures WordSum(a, n) == WordSum(b, n)
  {
    if n > 0 {
      WordsIgnoreField(a, b, n - 1);
    }
  }

  /** The stored checksum does not disturb the sum, unless the file ends inside the field. */
  lemma SumIgnoresField(a: seq<Byte>, b: seq<Byte>)
    requires SameButField(a, b) && !CutInField(|a|)
    ensures FileSum(a) == FileSum(b)
  {
    WordsIgnoreField(a, b, |a| / 2);
  }

  function Zeros(n: nat): (s: seq<Byte>)
    ensures |s| == n
  {
    seq(n, _ => 0)
  }

  /** Exactly the two odd sizes that end inside the field let its contents change the checksum. */
  lemma FieldMattersExactlyWhenCut(size: nat)
    ensures (exists a: seq<Byte>, b: seq<Byte> :: |a| == size && SameButField(a, b) && FileSum(a) != FileSum(b))
       <==> CutInField(size)
  {
    if CutInField(size) {
      var a := Zeros(size);
      var b := a[size - 1 := 1];
      WordsIgnoreField(a, b, size / 2);
      assert |a| == size && SameButField(a, b) && FileSum(a) != FileSum(b);
    } else {
      forall a: seq<Byte>, b: seq<Byte> | |a| == size && SameButField(a, b)
        ensures FileSum(a) == FileSum(b)
      {
        SumIgnoresField(a, b);
      }
    }
  }

  // The sum as a number

  /** The file with zeros in the checksum field. */
  function Blanked(data: seq<Byte>): (s: seq<Byte>)
    ensures |s| == |data|
  {
    seq(|data|, i requires 0 <= i < |data| => if InField(i) then 0 else data[i])
  }

  lemma {:induction false} DecodeConcat(a: seq<Byte>, b: seq<Byte>)
    ensures Decode(a + b) == Decode(a) + Span(|a|) * Decode(b)
  {
    if a == [] {
      assert a + b == b;
    } else {
      DecodeConcat(a[1..], b);
      assert (a + b)[1..] == a[1..] + b;
      Regroup(a[0], Decode(a[1..]), Span(|a| - 1), Decode(b));
    }
  }

  lemma Regroup(x: nat, y: nat, p: nat, z: nat)
    ensures x + 0x100 * (y + p * z) == (x + 0x100 * y) + 0x100 * p * z
  {}

  /** A power of 65536 is one more than a multiple of 65535. */
  lemma {:induction false} EvenSpan(n: nat) returns (k: nat)
    ensures Span(2 * n) == 0xFFFF * k + 1
  {
    if n == 0 {
      k := 0;
    } else {
      var j := EvenSpan(n - 1);
      assert Span(2 * n) == 0x100 * Span(2 * n - 1) == 0x100 * (0x100 * Span(2 * n - 2));
      k := 0x1_0000 * j + 1;
    }
  }

  lemma Word(s: seq<Byte>)
    requires |s| == 2
    ensures Decode(s) == s[0] as nat + 0x100 * (s[1] as nat)
  {
    assert s[1..] == [s[1]] && s[1..][1..] == [];
    assert Decode(s[1..]) == s[1] as nat;
  }

  lemma {:induction false} WordsAsNumber(data: seq<Byte>, n: nat) returns (k: nat)
    requires 2 * n <= |data|
    ensures Decode(Blanked(data)[..2 * n]) == WordSum(data, n) + 0xFFFF * k
    ensures WordSum(data, n) == 0 ==> k == 0
  {
    if n == 0 {
      k := 0;
    } else {
      var j := WordsAsNumber(data, n - 1);
      var p := EvenSpan(n - 1);
      var s := Blanked(data);
      var front, last := s[..2 * n - 2], s[2 * n - 2..2 * n];
      assert s[..2 * n] == front + last;
      DecodeConcat(front, last);
      Word(last);
      var w := WordAt(data, 2 * n - 2);
      assert Decode(last) == w;
      Distribute(p, w);
      k := j + p * w;
    }
  }

  lemma Distribute(p: nat, w: nat)
    ensures (0xFFFF * p + 1) * w == w + 0xFFFF * (p * w)
  {}

  /** What is summed is, modulo 65535, the whole file as one little-endian number; and only zeros sum to zero. */
  lemma FileAsNumber(data: seq<Byte>)
    requires !CutInField(|data|)
    ensures FileSum(data) % 0xFFFF == Decode(Blanked(data)) % 0xFFFF
    ensures FileSum(data) == 0 <==> Decode(Blanked(data)) == 0
  {
    var n := |data| / 2;
    var s := Blanked(data);
    var j := WordsAsNumber(data, n);
    if |data| % 2 == 1 {
      var p := EvenSpan(n);
      var front, last := s[..2 * n], s[2 * n..];
      assert s == front + last && last == [s[2 * n]];
      DecodeConcat(front, last);
      assert last[1..] == [];
      OddByte(WordSum(data, n), j, p, s[2 * n]);
    } else {
      assert s[..2 * n] == s;
      ModuloShift(FileSum(data), j);
    }
  }

  lemma OddByte(sum: nat, j: nat, p: nat, b: nat)
    requires sum == 0 ==> j == 0
    ensures (sum + 0xFFFF * j + (0xFFFF * p + 1) * b) % 0xFFFF == (sum + b) % 0xFFFF
    ensures sum + 0xFFFF * j + (0xFFFF * p + 1) * b == 0 <==> sum + b == 0
  {
    var k := j + p * b;
    Distribute(p, b);
    assert sum + 0xFFFF * j + (0xFFFF * p + 1) * b == sum + b + 0xFFFF * k;
    ModuloShift(sum + b, k);
  }
}
