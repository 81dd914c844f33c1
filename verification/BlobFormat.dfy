/** The obfuscated module format: finding, decrypting, decoding and checking a blob. */
module BlobFormat {
  import opened Bytes
  import opened Outcomes
  import StreamCipher

  type Word = x: int | 0 <= x < 0x1_0000_0000

  const BLOB_INFO_SIZE: nat := StreamCipher.BLOB_INFO_SIZE
  const BLOB_HEADER_SIZE: nat := 24
  const BLOB_SECTION_SIZE: nat := 20
  const MARKER: seq<Byte> := [0x78, 0x56, 0x34, 0x12]
  const EXPORT_OBFUSCATION: Word := 0x7A32BC85
  const IMAGEBASE_OBFUSCATION: Word := 0x49C042D1
  const IMPORT_OBFUSCATION: Word := 0x872C3D47
  const ENTRY_DELTA: nat := 12

  datatype Header = Header(
    checkSum: Word,
    sectionCount: nat,
    exportPoint: Word,
    imageBase: Word,
    entryPoint: Word,
    importTable: Word)

  datatype Section = Section(
    virtualAddress: Word,
    virtualSize: Word,
    dataSize: Word,
    dataAddress: Word,
    special: int)

  datatype ParsedBlob = ParsedBlob(header: Header, sections: seq<Section>, buffer: seq<Byte>, infoOffset: nat)

  datatype SectionFault = BelowBase | Unaligned | OutOfRange

  datatype Point = Entry | Export | Import

  datatype BlobError =
    | NotABlob
    | TruncatedFile
    | BadMarker
    | TruncatedTable
    | BadSectionCount
    | BadImageBase
    | NoSections
    | BadSection(index: nat, fault: SectionFault)
    | OutsideImage(point: Point)

  // Finding the blob

  predicate MarkerAt(data: seq<Byte>, at: nat) {
    at + 4 <= |data| && data[at..at + 4] == MARKER
  }

  /** The first marker at or after a position. */
  function FindMarker(data: seq<Byte>, from: nat): (hit: Option<nat>)
    ensures hit.Some? ==> from <= hit.value && MarkerAt(data, hit.value)
    ensures forall at: nat :: from <= at && (hit.Some? ==> at < hit.value) ==> !MarkerAt(data, at)
    decreases |data| - from
  {
    if from + 4 > |data| then None
    else if MarkerAt(data, from) then Some(from)
    else FindMarker(data, from + 1)
  }

  function FindBlobInfoOffset(data: seq<Byte>): Option<nat> {
    var hit := FindMarker(data, 0);
    if hit.None? || hit.value < BLOB_INFO_SIZE - 4 then None else Some(hit.value - (BLOB_INFO_SIZE - 4))
  }

  // Decoding

  function WordAt(buf: seq<Byte>, offset: nat): Word
    requires offset + 4 <= |buf|
  {
    NumberBound(buf, offset, 4);
    Spans();
    Number(buf, offset, 4)
  }

  function Unmask(raw: Word, mask: Word): Word {
    Powers();
    XorBits(raw, mask, 32)
  }

  function DecodeHeader(buf: seq<Byte>, at: nat): Header
    requires at + BLOB_HEADER_SIZE <= |buf|
  {
    Header(
      WordAt(buf, at),
      Number(buf, at + 4, 2),
      Unmask(WordAt(buf, at + 8), EXPORT_OBFUSCATION),
      Unmask(WordAt(buf, at + 12), IMAGEBASE_OBFUSCATION),
      (WordAt(buf, at + 16) - ENTRY_DELTA) % 0x1_0000_0000,
      Unmask(WordAt(buf, at + 20), IMPORT_OBFUSCATION))
  }

  function Signed(w: Word): int {
    if w < 0x8000_0000 then w else w - 0x1_0000_0000
  }

  function DecodeSection(buf: seq<Byte>, at: nat): Section
    requires at + BLOB_SECTION_SIZE <= |buf|
  {
    Section(WordAt(buf, at), WordAt(buf, at + 4), WordAt(buf, at + 8), WordAt(buf, at + 12), Signed(WordAt(buf, at + 16)))
  }

  function DecodeSections(buf: seq<Byte>, at: nat, count: nat): (sections: seq<Section>)
    requires at + count * BLOB_SECTION_SIZE <= |buf|
    ensures |sections| == count
  {
    seq(count, j requires 0 <= j < count => DecodeSection(buf, at + j * BLOB_SECTION_SIZE))
  }

  // Validation

  function Later(a: nat, b: nat): nat {
    if a < b then b else a
  }

  /** One past the last virtual address of the first `n` sections. */
  function ImageEnd(sections: seq<Section>, n: nat): nat
    requires n <= |sections|
  {
    if n == 0 then 0
    else Later(ImageEnd(sections, n - 1), sections[n - 1].virtualAddress + sections[n - 1].virtualSize)
  }

  function FaultOf(section: Section, imageBase: Word, size: nat): Option<SectionFault> {
    if section.virtualAddress < imageBase then Some(BelowBase)
    else if section.virtualAddress % 0x1000 != 0 then Some(Unaligned)
    else if section.dataAddress + section.dataSize > size then Some(OutOfRange)
    else None
  }

  predicate BaseAccepted(imageBase: Word) {
    imageBase % 0x1000 == 0 && 0x10_0000 <= imageBase < 0x8000_0000
  }

  predicate Inside(header: Header, sections: seq<Section>, point: Word) {
    header.imageBase <= point < ImageEnd(sections, |sections|)
  }

  function PointOf(header: Header, point: Point): Word {
    match point
    case Entry => header.entryPoint
    case Export => header.exportPoint
    case Import => header.importTable
  }

  /** What every accepted blob satisfies. */
  ghost predicate Acceptable(header: Header, sections: seq<Section>, size: nat) {
    && 1 <= header.sectionCount <= 64
    && BaseAccepted(header.imageBase)
    && sections != []
    && (forall i :: 0 <= i < |sections| ==> FaultOf(sections[i], header.imageBase, size).None?)
    && Inside(header, sections, header.entryPoint)
    && Inside(header, sections, header.exportPoint)
    && Inside(header, sections, header.importTable)
  }

  /** The section error names the first section at fault. */
  ghost predicate FirstFault(header: Header, sections: seq<Section>, size: nat, index: nat, fault: SectionFault) {
    && index < |sections|
    && FaultOf(sections[index], header.imageBase, size) == Some(fault)
    && forall i :: 0 <= i < index ==> FaultOf(sections[i], header.imageBase, size).None?
  }

  predicate CountAccepted(header: Header) {
    1 <= header.sectionCount <= 64
  }

  ghost predicate NoFault(header: Header, sections: seq<Section>, size: nat) {
    forall i :: 0 <= i < |sections| ==> FaultOf(sections[i], header.imageBase, size).None?
  }

  /** The first condition that the blob fails; no other error explains it. */
  ghost predicate Explains(header: Header, sections: seq<Section>, size: nat, error: BlobError) {
    match error
    case BadSectionCount => !CountAccepted(header)
    case BadImageBase => CountAccepted(header) && !BaseAccepted(header.imageBase)
    case NoSections => CountAccepted(header) && BaseAccepted(header.imageBase) && sections == []
    case BadSection(index, fault) =>
      && CountAccepted(header) && BaseAccepted(header.imageBase)
      && FirstFault(header, sections, size, index, fault)
    case OutsideImage(point) =>
      && CountAccepted(header) && BaseAccepted(header.imageBase) && sections != [] && NoFault(header, sections, size)
      && !Inside(header, sections, PointOf(header, point))
      && (point != Entry ==> Inside(header, sections, header.entryPoint))
      && (point == Import ==> Inside(header, sections, header.exportPoint))
    case _ => false
  }

  method ValidateBlob(header: Header, sections: seq<Section>, size: nat) returns (error: Option<BlobError>)
    ensures error.None? <==> Acceptable(header, sections, size)
    ensures error.Some? ==> Explains(header, sections, size, error.value)
    ensures error.Some? && error.value.BadSection?
        ==> FirstFault(header, sections, size, error.value.index, error.value.fault)
    ensures error.Some? && error.value.OutsideImage? ==> !Inside(header, sections, PointOf(header, error.value.point))
    ensures error == Some(BadSectionCount) <==> !(1 <= header.sectionCount <= 64)
    ensures error == Some(BadImageBase) ==> !BaseAccepted(header.imageBase)
    ensures error == Some(NoSections) ==> sections == []
    ensures error.Some? ==> error.value !in {NotABlob, TruncatedFile, BadMarker, TruncatedTable}
  {
    if !(1 <= header.sectionCount <= 64) {
      return Some(BadSectionCount);
    }
    if !BaseAccepted(header.imageBase) {
      return Some(BadImageBase);
    }
    if sections == [] {
      return Some(NoSections);
    }
    var imageEnd := 0;
    for i := 0 to |sections|
      invariant imageEnd == ImageEnd(sections, i)
      invariant forall k :: 0 <= k < i ==> FaultOf(sections[k], header.imageBase, size).None?
    {
      var section := sections[i];
      var fault := FaultOf(section, header.imageBase, size);
      if fault.Some? {
        return Some(BadSection(i, fault.value));
      }
      imageEnd := Later(imageEnd, section.virtualAddress + section.virtualSize);
    }
    if !(header.imageBase <= header.entryPoint < imageEnd) {
      return Some(OutsideImage(Entry));
    }
    if !(header.imageBase <= header.exportPoint < imageEnd) {
      return Some(OutsideImage(Export));
    }
    if !(header.imageBase <= header.importTable < imageEnd) {
      return Some(OutsideImage(Import));
    }
    return None;
  }

  // Parsing

  /** A blob as the parser hands it on. */
  ghost predicate Parsed(blob: ParsedBlob) {
    && Acceptable(blob.header, blob.sections, |blob.buffer|)
    && |blob.sections| == blob.header.sectionCount + 1
  }

  /** The parsed form of a file whose blob info is at `offset`, when its section table is complete. */
  function Decoded(data: seq<Byte>, offset: nat): (blob: Option<ParsedBlob>)
    requires offset + BLOB_INFO_SIZE + BLOB_HEADER_SIZE <= |data|
  {
    var buf := StreamCipher.Decrypted(data, offset + BLOB_INFO_SIZE);
    var header := DecodeHeader(buf, offset + BLOB_INFO_SIZE);
    var table := offset + BLOB_INFO_SIZE + BLOB_HEADER_SIZE;
    if |buf| < table + (header.sectionCount + 1) * BLOB_SECTION_SIZE then None
    else Some(ParsedBlob(header, DecodeSections(buf, table, header.sectionCount + 1), buf, offset))
  }

  /** The file's blob info was found and decodes to `blob`, accepted or not. */
  ghost predicate ReadAs(data: seq<Byte>, blob: ParsedBlob) {
    && FindBlobInfoOffset(data) == Some(blob.infoOffset)
    && blob.infoOffset + BLOB_INFO_SIZE + BLOB_HEADER_SIZE <= |data|
    && Decoded(data, blob.infoOffset) == Some(blob)
  }

  /** The one answer to a file: an error for a file without a blob info, a file that ends before the first section entry,
      or a table that is cut; otherwise the decoded blob, or the first condition it fails. */
  ghost predicate Answer(data: seq<Byte>, r: Result<ParsedBlob, BlobError>) {
    var offset := FindBlobInfoOffset(data);
    if offset.None? then r == Err(NotABlob)
    else if TooShort(data, offset.value) then r == Err(TruncatedFile)
    else
      var blob := Decoded(data, offset.value);
      if blob.None? then r == Err(TruncatedTable)
      else if Acceptable(blob.value.header, blob.value.sections, |data|) then r == Ok(blob.value)
      else r.Err? && Explains(blob.value.header, blob.value.sections, |data|, r.error)
  }

  predicate TooShort(data: seq<Byte>, offset: nat) {
    |data| < offset + BLOB_INFO_SIZE + BLOB_HEADER_SIZE + BLOB_SECTION_SIZE
  }

  lemma OneAnswer(data: seq<Byte>, r: Result<ParsedBlob, BlobError>, r': Result<ParsedBlob, BlobError>)
    requires Answer(data, r) && Answer(data, r')
    ensures r == r'
  {
    hide FindBlobInfoOffset;
    hide Decoded;
    hide ImageEnd;
    hide BaseAccepted;
    hide FaultOf;
    if r.Err? && r.error.BadSection? && r'.Err? && r'.error.BadSection? {
      assert r.error.index <= r'.error.index && r'.error.index <= r.error.index;
    }
  }

  lemma FoundMarker(data: seq<Byte>)
    ensures
      var offset := FindBlobInfoOffset(data);
      offset.Some? ==> MarkerAt(data, offset.value + BLOB_INFO_SIZE - 4)
  {}

  /** Decryption leaves the marker that was found in the plain part. */
  lemma MarkerSurvives(data: seq<Byte>, offset: nat)
    requires MarkerAt(data, offset + BLOB_INFO_SIZE - 4)
    ensures
      var buf := StreamCipher.Decrypted(data, offset + BLOB_INFO_SIZE);
      MarkerAt(buf, offset + BLOB_INFO_SIZE - 4)
  {
    var start := offset + BLOB_INFO_SIZE;
    var buf := StreamCipher.Decrypted(data, start);
    forall i | start - 4 <= i < start
      ensures buf[i] == data[i]
    {
      StreamCipher.DecryptedAt(data, start, i);
    }
    assert buf[start - 4..start] == data[start - 4..start];
  }

  method ParseBlob(data: seq<Byte>) returns (r: Result<ParsedBlob, BlobError>)
    ensures r == Err(NotABlob) <==> FindBlobInfoOffset(data).None?
    ensures r.Ok? ==> Parsed(r.value) && ReadAs(data, r.value)
    ensures r.Ok? <==> exists blob :: ReadAs(data, blob) && Acceptable(blob.header, blob.sections, |data|)
    ensures Answer(data, r)
    ensures r.Err? && r.error !in {NotABlob, TruncatedFile, TruncatedTable} ==>
      exists blob :: ReadAs(data, blob) && !Acceptable(blob.header, blob.sections, |data|)
    ensures r != Err(BadMarker) && r != Err(NoSections)
  {
    hide FindBlobInfoOffset;
    hide MarkerAt;
    hide DecodeHeader;
    hide DecodeSections;
    hide StreamCipher.Decrypted;
    hide Acceptable;
    hide Explains;
    hide FaultOf;
    var offset := FindBlobInfoOffset(data);
    if offset.None? {
      return Err(NotABlob);
    }
    if |data| < offset.value + BLOB_INFO_SIZE + BLOB_HEADER_SIZE + BLOB_SECTION_SIZE {
      return Err(TruncatedFile);
    }
    var at := offset.value + BLOB_INFO_SIZE;
    var buf := StreamCipher.DecryptBuffer(data, offset.value);
    FoundMarker(data);
    MarkerSurvives(data, offset.value);
    if !MarkerAt(buf, at - 4) {
      return Err(BadMarker);
    }
    var header := DecodeHeader(buf, at);
    var table := at + BLOB_HEADER_SIZE;
    if |buf| < table + (header.sectionCount + 1) * BLOB_SECTION_SIZE {
      return Err(TruncatedTable);
    }
    var sections := DecodeSections(buf, table, header.sectionCount + 1);
    ghost var blob := ParsedBlob(header, sections, buf, offset.value);
    assert ReadAs(data, blob);
    var error := ValidateBlob(header, sections, |buf|);
    if error.Some? {
      return Err(error.value);
    }
    return Ok(ParsedBlob(header, sections, buf, offset.value));
  }
}
