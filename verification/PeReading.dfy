/** Reading a rebuilt image back, the way a PE reader does. */
module PeReading {
  import opened Bytes
  import opened BlobFormat
  import opened SectionKinds
  import opened PeLayout
  import opened PeImage

  // Every field but the checksum reads back as it was packed

  lemma ClearOfChecksum(fields: seq<Field>, size: nat, c: nat, k: nat)
    requires Laid(fields, 0, size) && c < |fields| && k < |fields|
    requires fields[c] == Field(CHECKSUM_FIELD, 4, 0) && fields[k].offset != CHECKSUM_FIELD
    ensures fields[k].End() <= CHECKSUM_FIELD || CHECKSUM_FIELD + 4 <= fields[k].offset
    ensures fields[k].End() <= size
  {}

  lemma ChecksumIsFixed(blob: ParsedBlob, imports: nat)
    requires Buildable(blob)
    ensures Field(CHECKSUM_FIELD, 4, 0) in FixedFields(blob, imports)
  {
    hide DosFields;
    hide CoffFields;
    hide StandardFields;
    hide VersionFields;
    hide DirectoryFields;
    hide ImageSize;
    hide HeadersSize;
    assert SizeFields(blob)[2] == Field(CHECKSUM_FIELD, 4, 0);
  }

  lemma {:induction false} FixedRemain(blob: ParsedBlob, imports: nat, f: Field, n: nat)
    requires Buildable(blob) && n <= |blob.sections| && f in FixedFields(blob, imports)
    ensures f in HeaderFields(blob, imports, n)
  {
    hide FixedFields;
    hide SectionFields;
    if n > 0 {
      FixedRemain(blob, imports, f, n - 1);
    }
  }

  lemma {:induction false} SectionRemains(blob: ParsedBlob, imports: nat, i: nat, f: Field, n: nat)
    requires Buildable(blob) && i < n <= |blob.sections| && f in SectionFields(blob, i)
    ensures f in HeaderFields(blob, imports, n)
  {
    hide FixedFields;
    hide SectionFields;
    if i < n - 1 {
      SectionRemains(blob, imports, i, f, n - 1);
    }
  }

  lemma HeadersReads(blob: ParsedBlob, imports: nat, f: Field)
    requires Buildable(blob) && HeadersFit(blob, imports)
    requires f in HeaderFields(blob, imports, |blob.sections|) && f.offset != CHECKSUM_FIELD
    ensures f.End() <= HeadersSize(|blob.sections|)
    ensures f.End() <= CHECKSUM_FIELD || CHECKSUM_FIELD + 4 <= f.offset
    ensures Number(Headers(blob, imports, |blob.sections|), f.offset, f.width) == f.value
  {
    hide HeaderFields;
    hide HeadersSize;
    hide Packed;
    hide Number;
    var n := |blob.sections|;
    var fields := HeaderFields(blob, imports, n);
    ChecksumIsFixed(blob, imports);
    FixedRemain(blob, imports, Field(CHECKSUM_FIELD, 4, 0), n);
    RoomForHeaders(blob, imports, n);
    var k :| 0 <= k < |fields| && fields[k] == f;
    var c :| 0 <= c < |fields| && fields[c] == Field(CHECKSUM_FIELD, 4, 0);
    ClearOfChecksum(fields, HeadersSize(n), c, k);
    PackedReads(Zeros(HeadersSize(n)), fields, k);
  }

  lemma SummedElsewhere(front: seq<Byte>, back: seq<Byte>, at: nat, width: nat)
    requires |front| >= SECTION_TABLE && at + width <= |front|
    requires at + width <= CHECKSUM_FIELD || CHECKSUM_FIELD + 4 <= at
    ensures Number(Summed(front + back), at, width) == Number(front, at, width)
  {
    hide Decode;
    hide ChecksumOf;
    hide Encode;
    hide Overwritten;
    var whole := front + back;
    OverwrittenElsewhere(whole, CHECKSUM_FIELD, Encode(ChecksumOf(whole), 4), at, at + width);
    assert whole[at..at + width] == front[at..at + width];
  }

  lemma FieldReads(blob: ParsedBlob, imports: nat, f: Field)
    requires Buildable(blob) && HeadersFit(blob, imports)
    requires f in HeaderFields(blob, imports, |blob.sections|) && f.offset != CHECKSUM_FIELD
    ensures f.End() <= |ImageOf(blob, imports)|
    ensures Number(ImageOf(blob, imports), f.offset, f.width) == f.value
  {
    HeadersReads(blob, imports, f);
    hide HeaderFields;
    hide Headers;
    hide HeadersSize;
    hide Number;
    hide Summed;
    RoomForHeaders(blob, imports, |blob.sections|);
    SummedElsewhere(Headers(blob, imports, |blob.sections|), Body(blob, |blob.sections|), f.offset, f.width);
  }

  lemma FixedReads(blob: ParsedBlob, imports: nat, f: Field)
    requires Buildable(blob) && HeadersFit(blob, imports)
    requires f in FixedFields(blob, imports) && f.offset != CHECKSUM_FIELD
    ensures f.End() <= |ImageOf(blob, imports)|
    ensures Number(ImageOf(blob, imports), f.offset, f.width) == f.value
  {
    hide FixedFields;
    hide HeaderFields;
    hide ImageOf;
    FixedRemain(blob, imports, f, |blob.sections|);
    FieldReads(blob, imports, f);
  }

  // The stored checksum is the checksum of the file that holds it

  lemma StoredChecksum(blob: ParsedBlob, imports: nat)
    requires Buildable(blob) && HeadersFit(blob, imports)
    ensures |ImageOf(blob, imports)| >= SECTION_TABLE
    ensures Number(ImageOf(blob, imports), CHECKSUM_FIELD, 4) == ChecksumOf(ImageOf(blob, imports))
  {
    hide Headers;
    hide HeadersSize;
    hide Body;
    hide FileOffset;
    hide PeChecksum.FileSum;
    hide PeChecksum.OnesComplement;
    RoomForHeaders(blob, imports, |blob.sections|);
    SummedIsStable(Unsummed(blob, imports));
  }

  lemma SummedIsStable(data: seq<Byte>)
    requires |data| >= SECTION_TABLE
    ensures Number(Summed(data), CHECKSUM_FIELD, 4) == ChecksumOf(Summed(data))
  {
    hide PeChecksum.FileSum;
    hide PeChecksum.OnesComplement;
    var piece := Encode(ChecksumOf(data), 4);
    OverwrittenHere(data, CHECKSUM_FIELD, piece);
    Spans();
    DecodeEncode(ChecksumOf(data), 4);
    assert PeChecksum.SameButField(data, Summed(data));
    PeChecksum.SumIgnoresField(data, Summed(data));
  }

  // Where the sections' bytes are

  lemma {:induction false} OffsetAligned(sections: seq<Section>, i: nat)
    requires i <= |sections|
    ensures FileOffset(sections, i) % ALIGNMENT == 0
  {
    hide HeadersSize;
    hide RawSize;
    if i == 0 {
      HeadersAligned(|sections|);
    } else {
      OffsetAligned(sections, i - 1);
      RawAligned(sections[i - 1]);
      SumAligned(FileOffset(sections, i - 1), RawSize(sections[i - 1]));
    }
  }

  lemma HeadersAligned(count: nat)
    ensures HeadersSize(count) % ALIGNMENT == 0
  {}

  lemma SumAligned(a: nat, b: nat)
    requires a % ALIGNMENT == 0 && b % ALIGNMENT == 0
    ensures (a + b) % ALIGNMENT == 0
  {}

  /** Section `i`'s bytes, and zeros up to its raw size, sit at its file offset among the first `n`. */
  lemma {:induction false} BodyHolds(blob: ParsedBlob, i: nat, n: nat)
    requires InFile(blob) && i < n <= |blob.sections|
    ensures
      var from := FileOffset(blob.sections, i) - HeadersSize(|blob.sections|);
      && from + RawSize(blob.sections[i]) <= |Body(blob, n)|
      && Body(blob, n)[from..from + RawSize(blob.sections[i])]
      == Stored(blob.buffer, blob.sections[i]) + Zeros(RawSize(blob.sections[i]) - blob.sections[i].dataSize)
  {
    hide HeadersSize;
    hide RawSize;
    RawCovers(blob.sections[i]);
    if i < n - 1 {
      RawCovers(blob.sections[n - 1]);
      BodyHolds(blob, i, n - 1);
      Slice(Body(blob, n - 1), Body(blob, n), FileOffset(blob.sections, i) - HeadersSize(|blob.sections|),
            RawSize(blob.sections[i]));
    }
  }

  lemma Slice(a: seq<Byte>, b: seq<Byte>, from: nat, size: nat)
    requires from + size <= |a| <= |b| && b[..|a|] == a
    ensures b[from..from + size] == a[from..from + size]
  {
    assert b[..|a|][from..from + size] == b[from..from + size];
  }

  /** `data`, zero-padded to `size`, sits at `from`. */
  ghost predicate Holds(pe: seq<Byte>, from: nat, data: seq<Byte>, size: nat) {
    |data| <= size && from + size <= |pe| && pe[from..from + size] == data + Zeros(size - |data|)
  }

  /** The late checksum write leaves everything behind the headers alone. */
  lemma ImageHolds(blob: ParsedBlob, imports: nat, i: nat)
    requires Buildable(blob) && HeadersFit(blob, imports) && i < |blob.sections|
    ensures Holds(ImageOf(blob, imports), FileOffset(blob.sections, i), Stored(blob.buffer, blob.sections[i]), RawSize(blob.sections[i]))
  {
    hide Headers;
    hide HeadersSize;
    hide Body;
    hide RawSize;
    hide FileOffset;
    hide HeaderFields;
    hide AllFit;
    hide Stored;
    hide Summed;
    hide ImageEnd;
    var n := |blob.sections|;
    BodyHolds(blob, i, n);
    RawCovers(blob.sections[i]);
    RoomForHeaders(blob, imports, n);
    BehindHeaders(Headers(blob, imports, n), Body(blob, n), FileOffset(blob.sections, i), RawSize(blob.sections[i]));
  }

  lemma BehindHeaders(headers: seq<Byte>, body: seq<Byte>, from: nat, size: nat)
    requires |headers| >= SECTION_TABLE && |headers| <= from && from + size <= |headers| + |body|
    ensures Summed(headers + body)[from..from + size] == body[from - |headers|..from - |headers| + size]
  {
    hide ChecksumOf;
    hide Encode;
    hide Overwritten;
    var whole := headers + body;
    OverwrittenElsewhere(whole, CHECKSUM_FIELD, Encode(ChecksumOf(whole), 4), from, from + size);
    BehindFront(headers, body, from, size);
  }

  lemma BehindFront(front: seq<Byte>, back: seq<Byte>, from: nat, size: nat)
    requires |front| <= from && from + size <= |front| + |back|
    ensures (front + back)[from..from + size] == back[from - |front|..from - |front| + size]
  {
    var whole, at := (front + back)[from..from + size], from - |front|;
    forall k | 0 <= k < size
      ensures whole[k] == back[at..at + size][k]
    {
      assert whole[k] == (front + back)[from + k];
    }
  }

  // The section table, as the PE format has it

  function HeaderAt(pe: seq<Byte>): nat
    requires |pe| >= 0x40
  {
    Number(pe, 0x3C, 4)
  }

  predicate HasCoffHeader(pe: seq<Byte>) {
    |pe| >= 0x40 && HeaderAt(pe) + 24 <= |pe|
  }

  function SectionCount(pe: seq<Byte>): nat
    requires HasCoffHeader(pe)
  {
    Number(pe, HeaderAt(pe) + 6, 2)
  }

  function TableAt(pe: seq<Byte>): nat
    requires HasCoffHeader(pe)
  {
    HeaderAt(pe) + 24 + Number(pe, HeaderAt(pe) + 20, 2)
  }

  predicate HasSectionTable(pe: seq<Byte>) {
    HasCoffHeader(pe) && TableAt(pe) + SectionCount(pe) * 40 <= |pe|
  }

  datatype SectionHeader = SectionHeader(
    name: nat,
    virtualSize: nat,
    virtualAddress: int,
    rawSize: nat,
    rawPointer: nat,
    flags: nat)

  function ReadSection(pe: seq<Byte>, i: nat): SectionHeader
    requires HasSectionTable(pe) && i < SectionCount(pe)
  {
    var at := TableAt(pe) + i * 40;
    SectionHeader(
      Number(pe, at, 8), Number(pe, at + 8, 4), Number(pe, at + 12, 4), Number(pe, at + 16, 4), Number(pe, at + 20, 4),
      Number(pe, at + 36, 4))
  }

  lemma TableReads(blob: ParsedBlob, imports: nat)
    requires Buildable(blob) && HeadersFit(blob, imports)
    ensures HasSectionTable(ImageOf(blob, imports))
    ensures HeaderAt(ImageOf(blob, imports)) == PE_OFFSET
    ensures TableAt(ImageOf(blob, imports)) == SECTION_TABLE
    ensures SectionCount(ImageOf(blob, imports)) == |blob.sections|
  {
    hide Number;
    hide ImageOf;
    hide StandardFields;
    hide VersionFields;
    hide SizeFields;
    hide DirectoryFields;
    hide HeadersFit;
    var n := |blob.sections|;
    assert DosFields()[1] == Field(0x3C, 4, PE_OFFSET);
    assert CoffFields(n)[1] == Field(0x86, 2, n) && CoffFields(n)[5] == Field(0x94, 2, 0xE0);
    FixedReads(blob, imports, Field(0x3C, 4, PE_OFFSET));
    FixedReads(blob, imports, Field(0x86, 2, n));
    FixedReads(blob, imports, Field(0x94, 2, 0xE0));
    ImageLength(blob, imports);
  }

  lemma ImageLength(blob: ParsedBlob, imports: nat)
    requires Buildable(blob) && HeadersFit(blob, imports)
    ensures |ImageOf(blob, imports)| >= HeadersSize(|blob.sections|)
    ensures |ImageOf(blob, imports)| >= SECTION_TABLE + |blob.sections| * 40
  {
    hide ImageOf;
    hide HeadersSize;
    OffsetsGrow(blob.sections, 0, |blob.sections|);
    RoomForHeaders(blob, imports, |blob.sections|);
  }

  /** The table of `pe` holds the header packed for section `i`. */
  ghost predicate SectionRead(blob: ParsedBlob, pe: seq<Byte>, i: nat)
    requires InFile(blob) && i < |blob.sections|
  {
    && HasSectionTable(pe)
    && i < SectionCount(pe)
    && var section, kind := blob.sections[i], KindOf(blob, i);
    ReadSection(pe, i)
    == SectionHeader(Decode(Name(kind)), section.virtualSize, Rva(blob, i), RawSize(section), FileOffset(blob.sections, i),
                     Flags(kind))
  }

  ghost predicate FieldRead(pe: seq<Byte>, f: Field) {
    f.End() <= |pe| && Number(pe, f.offset, f.width) == f.value
  }

  lemma SectionReadsIn(blob: ParsedBlob, pe: seq<Byte>, i: nat)
    requires InFile(blob) && i < |blob.sections|
    requires HasSectionTable(pe) && TableAt(pe) == SECTION_TABLE && SectionCount(pe) == |blob.sections|
    requires forall f :: f in SectionFields(blob, i) ==> FieldRead(pe, f)
    ensures SectionRead(blob, pe, i)
  {
    hide Number;
    hide KindOf;
    hide Name;
    hide Flags;
    hide RawSize;
    hide FileOffset;
    hide HasSectionTable;
    hide TableAt;
    hide SectionCount;
    hide Decode;
    var fields := SectionFields(blob, i);
    assert fields[0] in fields && fields[1] in fields && fields[2] in fields;
    assert fields[3] in fields && fields[4] in fields && fields[9] in fields;
  }

  lemma SectionReads(blob: ParsedBlob, imports: nat, i: nat)
    requires Buildable(blob) && HeadersFit(blob, imports) && i < |blob.sections|
    ensures SectionRead(blob, ImageOf(blob, imports), i)
  {
    hide Number;
    hide ImageOf;
    hide SectionFields;
    hide HeadersFit;
    hide SectionRead;
    TableReads(blob, imports);
    hide TableAt;
    hide HasSectionTable;
    hide SectionCount;
    forall f | f in SectionFields(blob, i)
      ensures FieldRead(ImageOf(blob, imports), f)
    {
      SectionFieldReads(blob, imports, i, f);
    }
    SectionReadsIn(blob, ImageOf(blob, imports), i);
  }

  lemma SectionFieldReads(blob: ParsedBlob, imports: nat, i: nat, f: Field)
    requires Buildable(blob) && HeadersFit(blob, imports) && i < |blob.sections| && f in SectionFields(blob, i)
    ensures f.End() <= |ImageOf(blob, imports)|
    ensures Number(ImageOf(blob, imports), f.offset, f.width) == f.value
  {
    hide SectionFields;
    hide HeaderFields;
    hide ImageOf;
    hide HeadersFit;
    SectionLaid(blob, i);
    SectionRemains(blob, imports, i, f, |blob.sections|);
    FieldReads(blob, imports, f);
  }

  // Image preservation

  /** What the section table and the bytes of `pe` say about section `i` of the blob. */
  ghost predicate SectionPreserved(blob: ParsedBlob, pe: seq<Byte>, i: nat)
    requires InFile(blob) && i < |blob.sections|
  {
    && HasSectionTable(pe)
    && i < SectionCount(pe)
    && var section, header := blob.sections[i], ReadSection(pe, i);
    && header.virtualAddress == section.virtualAddress - blob.header.imageBase
    && header.virtualSize == section.virtualSize
    && header.name == Decode(Name(KindOf(blob, i)))
    && header.flags == Flags(KindOf(blob, i))
    && header.rawPointer % 0x1000 == 0 && header.rawSize % 0x1000 == 0
    && TableAt(pe) + SectionCount(pe) * 40 <= header.rawPointer
    && section.dataSize <= header.rawSize
    && header.rawPointer + header.rawSize <= |pe|
    && pe[header.rawPointer..header.rawPointer + section.dataSize] == Stored(blob.buffer, section)
    && forall k :: header.rawPointer + section.dataSize <= k < header.rawPointer + header.rawSize ==> pe[k] == 0
  }

  /** No two sections share a byte of the file. */
  ghost predicate RawRangesDisjoint(pe: seq<Byte>)
    requires HasSectionTable(pe)
  {
    forall i, j :: 0 <= i < j < SectionCount(pe) ==>
      ReadSection(pe, i).rawPointer + ReadSection(pe, i).rawSize <= ReadSection(pe, j).rawPointer
  }

  lemma DataThenZeros(pe: seq<Byte>, from: nat, data: seq<Byte>, size: nat)
    requires Holds(pe, from, data, size)
    ensures |data| <= size && from + size <= |pe|
    ensures pe[from..from + |data|] == data
    ensures forall k :: from + |data| <= k < from + size ==> pe[k] == 0
  {
    assert pe[from..from + |data|] == pe[from..from + size][..|data|];
    forall k | from + |data| <= k < from + size
      ensures pe[k] == 0
    {
      assert pe[k] == pe[from..from + size][k - from];
    }
  }

  lemma Preserved(blob: ParsedBlob, pe: seq<Byte>, i: nat)
    requires InFile(blob) && i < |blob.sections| && SectionRead(blob, pe, i)
    requires Holds(pe, FileOffset(blob.sections, i), Stored(blob.buffer, blob.sections[i]), RawSize(blob.sections[i]))
    requires TableAt(pe) + SectionCount(pe) * 40 <= FileOffset(blob.sections, i)
    ensures SectionPreserved(blob, pe, i)
  {
    hide RawSize;
    hide FileOffset;
    hide HeadersSize;
    hide KindOf;
    hide Flags;
    hide Name;
    hide Decode;
    hide Stored;
    hide TableAt;
    hide ReadSection;
    hide HasSectionTable;
    hide SectionCount;
    hide Holds;
    OffsetAligned(blob.sections, i);
    RawAligned(blob.sections[i]);
    DataThenZeros(pe, FileOffset(blob.sections, i), Stored(blob.buffer, blob.sections[i]), RawSize(blob.sections[i]));
  }

  lemma SectionIsPreserved(blob: ParsedBlob, imports: nat, i: nat)
    requires Buildable(blob) && HeadersFit(blob, imports) && i < |blob.sections|
    ensures SectionPreserved(blob, ImageOf(blob, imports), i)
  {
    hide HeadersSize;
    hide RawSize;
    hide FileOffset;
    hide HeadersFit;
    hide ImageOf;
    hide SectionPreserved;
    hide SectionRead;
    hide Holds;
    hide Stored;
    TableReads(blob, imports);
    RoomForHeaders(blob, imports, |blob.sections|);
    SectionReads(blob, imports, i);
    ImageHolds(blob, imports, i);
    Preserved(blob, ImageOf(blob, imports), i);
  }

  lemma RawAligned(section: Section)
    ensures RawSize(section) % ALIGNMENT == 0
  {}

  /** Reading the section table back gives every section, with its bytes, at aligned and disjoint places behind the headers. */
  lemma ImagePreserved(blob: ParsedBlob, imports: nat)
    requires Buildable(blob) && HeadersFit(blob, imports)
    ensures HasSectionTable(ImageOf(blob, imports))
    ensures SectionCount(ImageOf(blob, imports)) == |blob.sections|
    ensures forall i :: 0 <= i < |blob.sections| ==> SectionPreserved(blob, ImageOf(blob, imports), i)
    ensures RawRangesDisjoint(ImageOf(blob, imports))
  {
    hide SectionPreserved;
    hide HeadersFit;
    hide ImageOf;
    hide ReadSection;
    hide RawSize;
    hide FileOffset;
    TableReads(blob, imports);
    hide TableAt;
    hide HasSectionTable;
    forall i | 0 <= i < |blob.sections|
      ensures SectionPreserved(blob, ImageOf(blob, imports), i)
    {
      SectionIsPreserved(blob, imports, i);
    }
    var pe := ImageOf(blob, imports);
    forall i, j | 0 <= i < j < SectionCount(pe)
      ensures ReadSection(pe, i).rawPointer + ReadSection(pe, i).rawSize <= ReadSection(pe, j).rawPointer
    {
      SectionReads(blob, imports, i);
      SectionReads(blob, imports, j);
      OffsetsGrow(blob.sections, i, j);
    }
  }
}
