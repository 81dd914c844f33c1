/** A parsed blob, byte by byte and bit by bit, with the numbers of the format. */
module BlobBytes {
  import opened Bytes
  import opened Outcomes
  import opened BlobFormat
  import StreamCipher

  predicate BitOf(n: nat, i: nat)
    decreases i
  {
    if i == 0 then n % 2 == 1 else BitOf(n / 2, i - 1)
  }

  /** `n` is the exclusive or of `a` and `b`, bit by bit. */
  ghost predicate IsXor(n: nat, a: nat, b: nat, bits: nat) {
    n < Power2(bits) && forall i: nat :: i < bits ==> BitOf(n, i) == (BitOf(a, i) != BitOf(b, i))
  }

  lemma XorStep(a: nat, b: nat, bits: nat)
    requires bits > 0
    ensures XorBits(a, b, bits) % 2 == (a + b) % 2 && XorBits(a, b, bits) / 2 == XorBits(a / 2, b / 2, bits - 1)
  {
    Halves((a + b) % 2, XorBits(a / 2, b / 2, bits - 1), 0);
  }

  lemma Parity(a: nat, b: nat)
    ensures (a + b) % 2 == 1 <==> (a % 2 == 1) != (b % 2 == 1)
  {}

  lemma {:induction false} XorBitwise(a: nat, b: nat, bits: nat, i: nat)
    requires i < bits
    ensures BitOf(XorBits(a, b, bits), i) == (BitOf(a, i) != BitOf(b, i))
  {
    XorStep(a, b, bits);
    Parity(a, b);
    hide XorBits;
    if i > 0 {
      XorBitwise(a / 2, b / 2, bits - 1, i - 1);
    }
  }

  lemma XorIsXor(a: nat, b: nat, bits: nat)
    ensures IsXor(XorBits(a, b, bits), a, b, bits)
  {
    forall i: nat | i < bits ensures BitOf(XorBits(a, b, bits), i) == (BitOf(a, i) != BitOf(b, i)) {
      XorBitwise(a, b, bits, i);
    }
  }

  // The payload

  /** The running key: 0x57 at first, and after each byte the sum of the key, the plain byte and 0x57. */
  function RunningKey(plain: seq<Byte>, start: nat, j: nat): Byte
    requires start <= j <= |plain|
  {
    if j == start then 0x57 else (RunningKey(plain, start, j - 1) + plain[j - 1] + 0x57) % 0x100
  }

  lemma {:induction false} KeyRuns(plain: seq<Byte>, start: nat, j: nat)
    requires start <= j <= |plain|
    ensures StreamCipher.Key(plain[..j], start) == RunningKey(plain, start, j)
    decreases j
  {
    if j == start {
      StreamCipher.StartKey(plain[..j]);
    } else {
      KeyRuns(plain, start, j - 1);
      assert plain[..j] == plain[..j - 1] + [plain[j - 1]];
      StreamCipher.NextKey(plain[..j - 1], start, plain[j - 1]);
      hide StreamCipher.Key;
    }
  }

  /** Everything behind the marker is masked with the running key, and nothing else is. */
  ghost predicate Unmasked(data: seq<Byte>, plain: seq<Byte>, start: nat) {
    && |plain| == |data|
    && (forall j :: 0 <= j < start && j < |data| ==> plain[j] == data[j])
    && (forall j :: start <= j < |data| ==> IsXor(plain[j], data[j], RunningKey(plain, start, j), 8))
  }

  lemma DecryptedUnmasked(data: seq<Byte>, start: nat)
    ensures Unmasked(data, StreamCipher.Decrypted(data, start), start)
  {
    var plain := StreamCipher.Decrypted(data, start);
    forall j | 0 <= j < |data|
      ensures j < start ==> plain[j] == data[j]
      ensures start <= j ==> IsXor(plain[j], data[j], RunningKey(plain, start, j), 8)
    {
      StreamCipher.DecryptedAt(data, start, j);
      if start <= j {
        KeyRuns(plain, start, j);
        XorIsXor(data[j], RunningKey(plain, start, j), 8);
      }
      hide StreamCipher.Decrypted;
      hide IsXor;
    }
  }

  // The header and the section table

  /** Two or four bytes, the low byte first. */
  function Short(s: seq<Byte>, at: nat): nat
    requires at + 2 <= |s|
  {
    s[at] as nat + 0x100 * (s[at + 1] as nat)
  }

  function Long(s: seq<Byte>, at: nat): nat
    requires at + 4 <= |s|
  {
    s[at] as nat + 0x100 * (s[at + 1] as nat) + 0x1_0000 * (s[at + 2] as nat) + 0x100_0000 * (s[at + 3] as nat)
  }

  lemma ShortNumber(s: seq<Byte>, at: nat)
    requires at + 2 <= |s|
    ensures Number(s, at, 2) == Short(s, at)
  {
    var t := s[at..at + 2];
    assert t[1..] == [s[at + 1]] && t[1..][1..] == [];
    assert Decode(t[1..]) == s[at + 1];
  }

  lemma LongNumber(s: seq<Byte>, at: nat)
    requires at + 4 <= |s|
    ensures Number(s, at, 4) == Long(s, at)
  {
    var t := s[at..at + 4];
    ShortNumber(s, at + 2);
    assert t[2..] == s[at + 2..at + 4];
    assert t[1..][1..] == t[2..];
    assert Decode(t) == t[0] + 0x100 * Decode(t[1..]);
    assert Decode(t[1..]) == t[1] + 0x100 * Decode(t[2..]);
  }

  ghost predicate HeaderIs(plain: seq<Byte>, at: nat, h: Header)
    requires at + 24 <= |plain|
  {
    && h.checkSum == Long(plain, at) && h.sectionCount == Short(plain, at + 4)
    && IsXor(h.exportPoint, Long(plain, at + 8), 0x7A32_BC85, 32)
    && IsXor(h.imageBase, Long(plain, at + 12), 0x49C0_42D1, 32)
    && (h.entryPoint == Long(plain, at + 16) - 12 || h.entryPoint == Long(plain, at + 16) - 12 + 0x1_0000_0000)
    && IsXor(h.importTable, Long(plain, at + 20), 0x872C_3D47, 32)
  }

  lemma WordIsLong(s: seq<Byte>, at: nat)
    requires at + 4 <= |s|
    ensures WordAt(s, at) == Long(s, at)
  {
    LongNumber(s, at);
  }

  lemma MaskedWord(s: seq<Byte>, at: nat, mask: Word)
    requires at + 4 <= |s|
    ensures IsXor(Unmask(WordAt(s, at), mask), Long(s, at), mask, 32)
  {
    WordIsLong(s, at);
    XorIsXor(WordAt(s, at), mask, 32);
    hide IsXor;
    hide XorBits;
    hide WordAt;
  }

  lemma HeaderDecoded(plain: seq<Byte>, at: nat)
    requires at + 24 <= |plain|
    ensures HeaderIs(plain, at, DecodeHeader(plain, at))
  {
    hide Number;
    hide Long;
    hide Short;
    hide IsXor;
    hide Unmask;
    hide WordAt;
    ShortNumber(plain, at + 4);
    WordIsLong(plain, at);
    WordIsLong(plain, at + 16);
    MaskedWord(plain, at + 8, EXPORT_OBFUSCATION);
    MaskedWord(plain, at + 12, IMAGEBASE_OBFUSCATION);
    MaskedWord(plain, at + 20, IMPORT_OBFUSCATION);
  }

  ghost predicate SectionIs(plain: seq<Byte>, at: nat, s: Section)
    requires at + 20 <= |plain|
  {
    && s.virtualAddress == Long(plain, at) && s.virtualSize == Long(plain, at + 4)
    && s.dataSize == Long(plain, at + 8) && s.dataAddress == Long(plain, at + 12)
    && s.special == Long(plain, at + 16) - (if Long(plain, at + 16) < 0x8000_0000 then 0 else 0x1_0000_0000)
  }

  lemma SectionDecoded(plain: seq<Byte>, at: nat)
    requires at + 20 <= |plain|
    ensures SectionIs(plain, at, DecodeSection(plain, at))
  {
    LongNumber(plain, at);
    LongNumber(plain, at + 4);
    LongNumber(plain, at + 8);
    LongNumber(plain, at + 12);
    LongNumber(plain, at + 16);
    hide Number;
    hide Long;
  }

  /** Sixty-four bytes in front of the first marker, a header and one more section entry than it counts. */
  ghost predicate Holds(data: seq<Byte>, blob: ParsedBlob) {
    var start := blob.infoOffset + 68;
    && start + 24 <= |data|
    && FirstMarkerAt(data, start - 4)
    && Unmasked(data, blob.buffer, start)
    && HeaderIs(blob.buffer, start, blob.header)
    && |blob.sections| == blob.header.sectionCount + 1
    && start + 24 + |blob.sections| * 20 <= |data|
    && forall j :: 0 <= j < |blob.sections| ==> SectionIs(blob.buffer, start + 24 + j * 20, blob.sections[j])
  }

  predicate MarkerBytes(data: seq<Byte>, at: nat)
    requires at + 4 <= |data|
  {
    data[at] == 0x78 && data[at + 1] == 0x56 && data[at + 2] == 0x34 && data[at + 3] == 0x12
  }

  predicate FirstMarkerAt(data: seq<Byte>, at: nat) {
    at + 4 <= |data| && MarkerBytes(data, at) && forall k: nat :: k < at ==> !MarkerBytes(data, k)
  }

  lemma MarkerExactly(data: seq<Byte>, at: nat)
    requires at + 4 <= |data|
    ensures MarkerAt(data, at) <==> MarkerBytes(data, at)
  {
    if MarkerBytes(data, at) {
      assert data[at..at + 4] == MARKER;
    }
    if MarkerAt(data, at) {
      var m := data[at..at + 4];
      assert m[0] == data[at] && m[1] == data[at + 1] && m[2] == data[at + 2] && m[3] == data[at + 3];
    }
  }

  lemma FirstMarkerFound(data: seq<Byte>)
    requires FindBlobInfoOffset(data).Some?
    ensures FirstMarkerAt(data, FindBlobInfoOffset(data).value + 64)
  {
    var at := FindBlobInfoOffset(data).value + 64;
    forall k: nat | k <= at ensures MarkerAt(data, k) <==> MarkerBytes(data, k) {
      MarkerExactly(data, k);
    }
  }

  lemma Parts(data: seq<Byte>, blob: ParsedBlob)
    requires ReadAs(data, blob)
    ensures FindBlobInfoOffset(data) == Some(blob.infoOffset)
    ensures var start := blob.infoOffset + 68;
            && start + 24 <= |data| && blob.buffer == StreamCipher.Decrypted(data, start)
            && blob.header == DecodeHeader(blob.buffer, start)
            && |blob.sections| == blob.header.sectionCount + 1
            && start + 24 + |blob.sections| * 20 <= |data|
            && blob.sections == DecodeSections(blob.buffer, start + 24, |blob.sections|)
  {
    hide FindBlobInfoOffset;
    hide DecodeHeader;
    hide DecodeSections;
    hide StreamCipher.Decrypted;
  }

  lemma TableDecoded(plain: seq<Byte>, at: nat, count: nat, j: nat)
    requires at + count * 20 <= |plain| && j < count
    ensures at + j * 20 + 20 <= |plain| && SectionIs(plain, at + j * 20, DecodeSections(plain, at, count)[j])
  {
    SectionDecoded(plain, at + j * 20);
    hide SectionIs;
    hide DecodeSection;
  }

  /** What the parser has read is what the bytes of the file say. */
  lemma ReadMeans(data: seq<Byte>, blob: ParsedBlob)
    requires ReadAs(data, blob)
    ensures Holds(data, blob)
  {
    hide ReadAs;
    hide FindBlobInfoOffset;
    hide FirstMarkerAt;
    hide Unmasked;
    hide HeaderIs;
    hide SectionIs;
    hide DecodeHeader;
    hide DecodeSections;
    hide StreamCipher.Decrypted;
    var start := blob.infoOffset + 68;
    Parts(data, blob);
    FirstMarkerFound(data);
    DecryptedUnmasked(data, start);
    HeaderDecoded(blob.buffer, start);
    forall j | 0 <= j < |blob.sections|
      ensures start + 24 + j * 20 + 20 <= |data| && SectionIs(blob.buffer, start + 24 + j * 20, blob.sections[j])
    {
      TableDecoded(blob.buffer, start + 24, |blob.sections|, j);
    }
  }

  // The conditions

  /** The point is not in front of the image, and some section reaches beyond it. */
  ghost predicate Reached(header: Header, sections: seq<Section>, point: Word) {
    && header.imageBase <= point
    && exists i :: 0 <= i < |sections| && point < sections[i].virtualAddress + sections[i].virtualSize
  }

  ghost predicate Accepts(header: Header, sections: seq<Section>, size: nat) {
    && 1 <= header.sectionCount <= 64 && |sections| > 0
    && header.imageBase % 4096 == 0 && 0x10_0000 <= header.imageBase < 0x8000_0000
    && (forall i :: 0 <= i < |sections| ==>
          && header.imageBase <= sections[i].virtualAddress && sections[i].virtualAddress % 4096 == 0
          && sections[i].dataAddress + sections[i].dataSize <= size)
    && Reached(header, sections, header.entryPoint) && Reached(header, sections, header.exportPoint)
    && Reached(header, sections, header.importTable)
  }

  lemma {:induction false} BelowEnd(sections: seq<Section>, n: nat, point: nat)
    requires n <= |sections|
    ensures point < ImageEnd(sections, n) <==>
            exists i :: 0 <= i < n && point < sections[i].virtualAddress + sections[i].virtualSize
  {
    if n > 0 {
      BelowEnd(sections, n - 1, point);
    }
  }

  /** A blob is acceptable exactly under these conditions. */
  lemma AcceptableExactly(header: Header, sections: seq<Section>, size: nat)
    ensures Acceptable(header, sections, size) <==> Accepts(header, sections, size)
  {
    BelowEnd(sections, |sections|, header.entryPoint);
    BelowEnd(sections, |sections|, header.exportPoint);
    BelowEnd(sections, |sections|, header.importTable);
    hide ImageEnd;
  }
}
