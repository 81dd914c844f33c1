/** Every header field of the rebuilt image, as the list of integers packed into it. */
module PeLayout {
  import opened Bytes
  import opened Outcomes
  import opened BlobFormat
  import opened SectionKinds

  const ALIGNMENT: nat := 0x1000
  const PE_OFFSET: nat := 0x80
  const OPTIONAL_HEADER: nat := 0x98
  const SECTION_TABLE: nat := 0x178
  const SECTION_HEADER_SIZE: nat := 40
  const CHECKSUM_FIELD: nat := 0xD8

  // Packing

  /** An integer packed little-endian at an offset. */
  datatype Field = Field(offset: nat, width: nat, value: int) {
    function End(): nat {
      offset + width
    }

    /** Packing raises an error unless the value fits. */
    predicate Fits() {
      0 <= value < Span(width)
    }
  }

  predicate AllFit(fields: seq<Field>) {
    forall k :: 0 <= k < |fields| ==> fields[k].Fits()
  }

  /** The fields lie between `from` and `to`, in ascending order and without overlap. */
  predicate Laid(fields: seq<Field>, from: nat, to: nat) {
    && from <= to
    && (forall k :: 0 <= k < |fields| ==> from <= fields[k].offset && fields[k].End() <= to)
    && (forall j, k :: 0 <= j < k < |fields| ==> fields[j].End() <= fields[k].offset)
  }

  lemma LaidConcat(a: seq<Field>, b: seq<Field>, from: nat, middle: nat, to: nat)
    requires Laid(a, from, middle) && Laid(b, middle, to)
    ensures Laid(a + b, from, to)
  {}

  lemma FitConcat(a: seq<Field>, b: seq<Field>)
    ensures AllFit(a + b) <==> AllFit(a) && AllFit(b)
  {
    if AllFit(a + b) {
      forall k | 0 <= k < |a|
        ensures a[k].Fits()
      {
        assert (a + b)[k] == a[k];
      }
      forall k | 0 <= k < |b|
        ensures b[k].Fits()
      {
        assert (a + b)[|a| + k] == b[k];
      }
    }
  }

  /** The buffer after the fields were packed into it one by one. */
  function Packed(s: seq<Byte>, fields: seq<Field>): (r: seq<Byte>)
    requires AllFit(fields) && Laid(fields, 0, |s|)
    ensures |r| == |s|
  {
    if fields == [] then s
    else
      var n := |fields| - 1;
      Overwritten(Packed(s, fields[..n]), fields[n].offset, Encode(fields[n].value, fields[n].width))
  }

  lemma {:induction false} PackedConcat(s: seq<Byte>, a: seq<Field>, b: seq<Field>)
    requires AllFit(a) && Laid(a, 0, |s|) && AllFit(b) && Laid(b, 0, |s|)
    requires AllFit(a + b) && Laid(a + b, 0, |s|)
    ensures Packed(s, a + b) == Packed(Packed(s, a), b)
    decreases |b|
  {
    hide Laid;
    hide AllFit;
    if b == [] {
      assert a + b == a;
    } else {
      var n := |b| - 1;
      Front(b, |s|);
      Front(a + b, |s|);
      assert (a + b)[..|a| + n] == a + b[..n];
      PackedConcat(s, a, b[..n]);
    }
  }

  lemma Front(fields: seq<Field>, size: nat)
    requires fields != [] && AllFit(fields) && Laid(fields, 0, size)
    ensures AllFit(fields[..|fields| - 1]) && Laid(fields[..|fields| - 1], 0, size)
  {}

  /** Each packed field reads back as its value. */
  lemma {:induction false} PackedReads(s: seq<Byte>, fields: seq<Field>, k: nat)
    requires AllFit(fields) && Laid(fields, 0, |s|) && k < |fields|
    ensures Number(Packed(s, fields), fields[k].offset, fields[k].width) == fields[k].value
    decreases |fields|
  {
    var n := |fields| - 1;
    var before, piece := Packed(s, fields[..n]), Encode(fields[n].value, fields[n].width);
    if k == n {
      OverwrittenHere(before, fields[n].offset, piece);
      DecodeEncode(fields[n].value, fields[n].width);
    } else {
      PackedReads(s, fields[..n], k);
      OverwrittenElsewhere(before, fields[n].offset, piece, fields[k].offset, fields[k].End());
    }
  }

  // Sizes

  function Aligned(n: nat): (r: nat)
    ensures n <= r < n + ALIGNMENT && r % ALIGNMENT == 0
  {
    (n + ALIGNMENT - 1) / ALIGNMENT * ALIGNMENT
  }

  function RawSize(section: Section): nat {
    Aligned(section.dataSize)
  }

  function HeadersSize(count: nat): nat {
    Aligned(SECTION_TABLE + count * SECTION_HEADER_SIZE)
  }

  /** Where the stored bytes of section `i` begin in the file. */
  function FileOffset(sections: seq<Section>, i: nat): (offset: nat)
    requires i <= |sections|
    ensures offset >= HeadersSize(|sections|)
  {
    if i == 0 then HeadersSize(|sections|) else FileOffset(sections, i - 1) + RawSize(sections[i - 1])
  }

  function ImageSize(blob: ParsedBlob): nat
    requires blob.header.imageBase <= ImageEnd(blob.sections, |blob.sections|)
  {
    Aligned(ImageEnd(blob.sections, |blob.sections|) - blob.header.imageBase)
  }

  /** Relative virtual address. */
  function Rva(blob: ParsedBlob, i: nat): int
    requires i < |blob.sections|
  {
    blob.sections[i].virtualAddress - blob.header.imageBase
  }

  predicate InFile(blob: ParsedBlob) {
    forall i :: 0 <= i < |blob.sections| ==>
      blob.sections[i].dataAddress + blob.sections[i].dataSize <= |blob.buffer|
  }

  function KindOf(blob: ParsedBlob, i: nat): Kind
    requires InFile(blob) && i < |blob.sections|
  {
    Classify(i, blob.sections[i], Stored(blob.buffer, blob.sections[i]))
  }

  /** The raw sizes of the first `n` sections that hold code, or of those that hold data. */
  function KindTotal(blob: ParsedBlob, code: bool, n: nat): nat
    requires InFile(blob) && n <= |blob.sections|
  {
    if n == 0 then 0
    else KindTotal(blob, code, n - 1)
         + if KindOf(blob, n - 1).Text? == code then RawSize(blob.sections[n - 1]) else 0
  }

  /** The first section at or after `i` above the image base, optionally skipping those at section 0's address. */
  function BaseOf(blob: ParsedBlob, skipFirst: bool, i: nat): int
    requires i <= |blob.sections|
    decreases |blob.sections| - i
  {
    if i == |blob.sections| then 0
    else if Rva(blob, i) > 0 && (skipFirst ==> blob.sections[i].virtualAddress != blob.sections[0].virtualAddress)
    then Rva(blob, i)
    else BaseOf(blob, skipFirst, i + 1)
  }

  predicate IsResource(blob: ParsedBlob, i: nat)
    requires InFile(blob) && i < |blob.sections|
  {
    Rva(blob, i) != 0 && KindOf(blob, i) == Rsrc
  }

  /** The resource section that the data directory exposes. */
  function ResourceFrom(blob: ParsedBlob, i: nat): (found: Option<nat>)
    requires InFile(blob) && i <= |blob.sections|
    ensures found.Some? ==> i <= found.value < |blob.sections| && IsResource(blob, found.value)
    ensures forall k :: i <= k < (if found.Some? then found.value else |blob.sections|) ==> !IsResource(blob, k)
    decreases |blob.sections| - i
  {
    if i == |blob.sections| then None
    else if IsResource(blob, i) then Some(i)
    else ResourceFrom(blob, i + 1)
  }

  function ResourceDirectory(blob: ParsedBlob): (int, nat)
    requires InFile(blob)
  {
    var found := ResourceFrom(blob, 0);
    if found.None? then (0, 0) else (Rva(blob, found.value), RawSize(blob.sections[found.value]))
  }

  // The fields, in the order in which they are packed

  function DosFields(): seq<Field> {
    [Field(0, 2, 0x5A4D), Field(0x3C, 4, PE_OFFSET), Field(PE_OFFSET, 4, 0x4550)]
  }

  function CoffFields(count: nat): seq<Field> {
    [Field(0x84, 2, 0x14C), Field(0x86, 2, count), Field(0x88, 4, 0), Field(0x8C, 4, 0), Field(0x90, 4, 0),
     Field(0x94, 2, 0xE0), Field(0x96, 2, 0x2102)]
  }

  ghost predicate Buildable(blob: ParsedBlob) {
    && InFile(blob)
    && blob.header.imageBase <= ImageEnd(blob.sections, |blob.sections|)
  }

  function StandardFields(blob: ParsedBlob): seq<Field>
    requires InFile(blob)
  {
    var n, base := |blob.sections|, blob.header.imageBase;
    [Field(0x98, 2, 0x10B), Field(0x9A, 1, 8), Field(0x9B, 1, 0),
     Field(0x9C, 4, KindTotal(blob, true, n)), Field(0xA0, 4, KindTotal(blob, false, n)), Field(0xA4, 4, 0),
     Field(0xA8, 4, blob.header.entryPoint - base), Field(0xAC, 4, BaseOf(blob, false, 0)),
     Field(0xB0, 4, BaseOf(blob, true, 0)), Field(0xB4, 4, base)]
  }

  function VersionFields(): seq<Field> {
    [Field(0xB8, 4, ALIGNMENT), Field(0xBC, 4, ALIGNMENT), Field(0xC0, 2, 4), Field(0xC2, 2, 0), Field(0xC4, 2, 0),
     Field(0xC6, 2, 0), Field(0xC8, 2, 4), Field(0xCA, 2, 0), Field(0xCC, 4, 0)]
  }

  function SizeFields(blob: ParsedBlob): seq<Field>
    requires blob.header.imageBase <= ImageEnd(blob.sections, |blob.sections|)
  {
    [Field(0xD0, 4, ImageSize(blob)), Field(0xD4, 4, HeadersSize(|blob.sections|)), Field(CHECKSUM_FIELD, 4, 0),
     Field(0xDC, 2, 2), Field(0xDE, 2, 0), Field(0xE0, 4, 0x10_0000), Field(0xE4, 4, 0x1000),
     Field(0xE8, 4, 0x10_0000), Field(0xEC, 4, 0x1000), Field(0xF0, 4, 0), Field(0xF4, 4, 16)]
  }

  /** The data directories: no exports, the import table with its terminator, the resource section. */
  function DirectoryFields(blob: ParsedBlob, imports: nat): seq<Field>
    requires InFile(blob)
  {
    [Field(0xF8, 4, 0), Field(0xFC, 4, 0),
     Field(0x100, 4, blob.header.importTable - blob.header.imageBase), Field(0x104, 4, (imports + 1) * 20),
     Field(0x108, 4, ResourceDirectory(blob).0), Field(0x10C, 4, ResourceDirectory(blob).1)]
  }

  function SectionFields(blob: ParsedBlob, i: nat): seq<Field>
    requires InFile(blob) && i < |blob.sections|
  {
    var at, section, kind := SECTION_TABLE + i * SECTION_HEADER_SIZE, blob.sections[i], KindOf(blob, i);
    [Field(at, 8, Decode(Name(kind))), Field(at + 8, 4, section.virtualSize), Field(at + 12, 4, Rva(blob, i)),
     Field(at + 16, 4, RawSize(section)), Field(at + 20, 4, FileOffset(blob.sections, i)), Field(at + 24, 4, 0),
     Field(at + 28, 4, 0), Field(at + 32, 2, 0), Field(at + 34, 2, 0), Field(at + 36, 4, Flags(kind))]
  }

  function FixedFields(blob: ParsedBlob, imports: nat): seq<Field>
    requires Buildable(blob)
  {
    DosFields() + CoffFields(|blob.sections|) + StandardFields(blob) + VersionFields() + SizeFields(blob)
    + DirectoryFields(blob, imports)
  }

  /** The fixed headers and the first `n` section headers. */
  function HeaderFields(blob: ParsedBlob, imports: nat, n: nat): seq<Field>
    requires Buildable(blob) && n <= |blob.sections|
  {
    if n == 0 then FixedFields(blob, imports) else HeaderFields(blob, imports, n - 1) + SectionFields(blob, n - 1)
  }

  lemma SmallGroupsLaid(count: nat)
    ensures Laid(DosFields(), 0, 0x84) && Laid(CoffFields(count), 0x84, 0x98) && Laid(VersionFields(), 0xB8, 0xD0)
  {}

  lemma StandardLaid(blob: ParsedBlob)
    requires InFile(blob)
    ensures Laid(StandardFields(blob), 0x98, 0xB8)
  {}

  lemma SizesLaid(blob: ParsedBlob)
    requires Buildable(blob)
    ensures Laid(SizeFields(blob), 0xD0, 0xF8)
  {}

  lemma DirectoriesLaid(blob: ParsedBlob, imports: nat)
    requires InFile(blob)
    ensures Laid(DirectoryFields(blob, imports), 0xF8, SECTION_TABLE)
  {}

  lemma SectionLaid(blob: ParsedBlob, i: nat)
    requires InFile(blob) && i < |blob.sections|
    ensures Laid(SectionFields(blob, i), SECTION_TABLE + i * SECTION_HEADER_SIZE, SECTION_TABLE + (i + 1) * SECTION_HEADER_SIZE)
  {
    hide KindOf;
    hide Name;
    hide Flags;
    hide Decode;
    hide Rva;
    hide RawSize;
    hide FileOffset;
    hide Field.Fits;
    var at, fields := SECTION_TABLE + i * SECTION_HEADER_SIZE, SectionFields(blob, i);
    assert |fields| == 10;
    assert fields[0].offset == at && fields[0].End() == fields[1].offset;
    assert fields[1].End() == fields[2].offset && fields[2].End() == fields[3].offset;
    assert fields[3].End() == fields[4].offset && fields[4].End() == fields[5].offset;
    assert fields[5].End() == fields[6].offset && fields[6].End() == fields[7].offset;
    assert fields[7].End() == fields[8].offset && fields[8].End() == fields[9].offset;
    assert fields[9].End() == at + SECTION_HEADER_SIZE;
  }

  lemma FixedLaid(blob: ParsedBlob, imports: nat)
    requires Buildable(blob)
    ensures Laid(FixedFields(blob, imports), 0, SECTION_TABLE)
  {
    hide Laid;
    hide DosFields;
    hide CoffFields;
    hide StandardFields;
    hide VersionFields;
    hide SizeFields;
    hide DirectoryFields;
    var n := |blob.sections|;
    SmallGroupsLaid(n);
    StandardLaid(blob);
    SizesLaid(blob);
    DirectoriesLaid(blob, imports);
    var a := DosFields() + CoffFields(n);
    LaidConcat(DosFields(), CoffFields(n), 0, 0x84, 0x98);
    LaidConcat(a, StandardFields(blob), 0, 0x98, 0xB8);
    LaidConcat(a + StandardFields(blob), VersionFields(), 0, 0xB8, 0xD0);
    LaidConcat(a + StandardFields(blob) + VersionFields(), SizeFields(blob), 0, 0xD0, 0xF8);
    LaidConcat(a + StandardFields(blob) + VersionFields() + SizeFields(blob), DirectoryFields(blob, imports),
               0, 0xF8, SECTION_TABLE);
  }

  /** No two header fields overlap. */
  lemma {:induction false} HeaderLaid(blob: ParsedBlob, imports: nat, n: nat)
    requires Buildable(blob) && n <= |blob.sections|
    ensures Laid(HeaderFields(blob, imports, n), 0, SECTION_TABLE + n * SECTION_HEADER_SIZE)
  {
    hide Laid;
    hide FixedFields;
    hide SectionFields;
    if n == 0 {
      FixedLaid(blob, imports);
    } else {
      HeaderLaid(blob, imports, n - 1);
      SectionLaid(blob, n - 1);
      LaidConcat(HeaderFields(blob, imports, n - 1), SectionFields(blob, n - 1), 0,
                 SECTION_TABLE + (n - 1) * SECTION_HEADER_SIZE, SECTION_TABLE + n * SECTION_HEADER_SIZE);
    }
  }
}
