/** What the bytes of a rebuilt image say, at the offsets and with the numbers of the PE format. */
module PeHeaders {
  import opened Bytes
  import opened Outcomes
  import opened BlobFormat
  import opened SectionKinds
  import opened PeLayout
  import opened PeImage
  import opened PeReading
  import opened PeVerify

  // Which name and flags a section gets

  /** The text occurs in the data. */
  ghost predicate Occurs(data: seq<Byte>, text: string) {
    exists at :: 0 <= at <= |data| - |text| && TextAt(data, text, at)
  }

  ghost predicate TextAt(data: seq<Byte>, text: string, at: nat)
    requires at + |text| <= |data|
  {
    forall k :: 0 <= k < |text| ==> data[at + k] == text[k] as int
  }

  /** The strings of the C runtime library by which constant data is told from variables. */
  ghost predicate RuntimeStrings(data: seq<Byte>) {
    && Occurs(data, "HeapAlloc\0") && Occurs(data, "HeapFree\0")
    && Occurs(data, "Microsoft Visual C++ Runtime Library") && Occurs(data, "JanFebMarAprMayJunJulAugSepOctNovDec")
  }

  /** A section that is loaded into more than 64 KiB. */
  predicate Large(blob: ParsedBlob, i: nat)
    requires i < |blob.sections|
  {
    blob.sections[i].virtualSize > 0x1_0000
  }

  ghost predicate Constants(blob: ParsedBlob, i: nat)
    requires InFile(blob) && i < |blob.sections|
  {
    RuntimeStrings(Stored(blob.buffer, blob.sections[i]))
  }

  // The characteristics of a section in the PE format
  const CODE: nat := 0x20
  const INITIALIZED_DATA: nat := 0x40
  const EXECUTE: nat := 0x2000_0000
  const READ: nat := 0x4000_0000
  const WRITE: nat := 0x8000_0000

  function FlagsAt(pe: seq<Byte>, i: nat): nat
    requires 0x178 + i * 40 + 40 <= |pe|
  {
    Number(pe, 0x178 + i * 40 + 36, 4)
  }

  function NameAt(pe: seq<Byte>, i: nat): seq<Byte>
    requires 0x178 + i * 40 + 40 <= |pe|
  {
    pe[0x178 + i * 40..0x178 + i * 40 + 8]
  }

  /** `name` with zeros up to eight bytes. */
  predicate Named(bytes: seq<Byte>, name: string) {
    && |bytes| == 8 && |name| <= 8
    && forall k :: 0 <= k < 8 ==> bytes[k] == if k < |name| then name[k] as int else 0
  }

  lemma OccursExactly(data: seq<Byte>, text: string, marker: seq<Byte>)
    requires |marker| == |text| && forall k :: 0 <= k < |text| ==> marker[k] == text[k] as int
    ensures Contains(data, marker) <==> Occurs(data, text)
  {
    forall at | 0 <= at <= |data| - |text|
      ensures OccursAt(data, marker, at) <==> TextAt(data, text, at)
    {
      if TextAt(data, text, at) {
        assert data[at..at + |marker|] == marker;
      }
      if OccursAt(data, marker, at) {
        forall k | 0 <= k < |text| ensures data[at + k] == text[k] as int {
          assert data[at + k] == data[at..at + |marker|][k];
        }
      }
    }
  }

  lemma MarkersExactly(data: seq<Byte>)
    ensures RdataMarkersMatch(data) <==> RuntimeStrings(data)
  {
    hide Contains;
    hide Occurs;
    OccursExactly(data, "HeapAlloc\0", Ascii("HeapAlloc") + [0]);
    OccursExactly(data, "HeapFree\0", Ascii("HeapFree") + [0]);
    OccursExactly(data, "Microsoft Visual C++ Runtime Library", Ascii("Microsoft Visual C++ Runtime Library"));
    OccursExactly(data, "JanFebMarAprMayJunJulAugSepOctNovDec", Ascii("JanFebMarAprMayJunJulAugSepOctNovDec"));
  }

  function TextOf(kind: Kind): string {
    match kind
    case Text => ".text"
    case Rdata => ".rdata"
    case Data => ".data"
    case Rsrc => ".rsrc"
    case Reloc => ".reloc"
  }

  lemma KindNamed(kind: Kind)
    ensures Named(Name(kind), TextOf(kind)) && (Named(Name(kind), ".rsrc") <==> kind == Rsrc)
  {
    if kind != Rsrc {
      assert Name(kind)[1] != 'r' as int || Name(kind)[2] != 's' as int;
      assert ".rsrc"[1] == 'r' && ".rsrc"[2] == 's';
    }
  }

  lemma RoomForTable(blob: ParsedBlob, imports: nat)
    requires Buildable(blob) && HeadersFit(blob, imports)
    ensures 0x178 + |blob.sections| * 40 <= |ImageOf(blob, imports)|
  {
    ImageLength(blob, imports);
    hide ImageOf;
  }

  /** Code is in the first section and nowhere else, everything can be read, and exactly the large sections that do not
      hold the runtime's strings can be written. */
  lemma FlagsRead(blob: ParsedBlob, imports: nat, i: nat)
    requires Buildable(blob) && HeadersFit(blob, imports) && i < |blob.sections|
    ensures 0x178 + i * 40 + 40 <= |ImageOf(blob, imports)|
    ensures FlagsAt(ImageOf(blob, imports), i)
         == READ + (if i == 0 then CODE + EXECUTE else INITIALIZED_DATA)
            + (if i > 0 && Large(blob, i) && !Constants(blob, i) then WRITE else 0)
  {
    hide ImageOf;
    hide FlagsAt;
    MarkersExactly(Stored(blob.buffer, blob.sections[i]));
    FlagsBytes(blob, imports, i);
    hide RuntimeStrings;
    hide RdataMarkersMatch;
    hide LooksLikeResource;
    hide LooksLikeReloc;
    hide HeadersFit;
  }

  lemma FlagsField(blob: ParsedBlob, i: nat) returns (f: Field)
    requires InFile(blob) && i < |blob.sections|
    ensures f in SectionFields(blob, i) && f == Field(0x178 + i * 40 + 36, 4, Flags(KindOf(blob, i)))
  {
    hide KindOf;
    hide Flags;
    hide Name;
    hide FileOffset;
    hide RawSize;
    hide Rva;
    hide Decode;
    f := SectionFields(blob, i)[9];
  }

  lemma FlagsBytes(blob: ParsedBlob, imports: nat, i: nat)
    requires Buildable(blob) && HeadersFit(blob, imports) && i < |blob.sections|
    ensures 0x178 + i * 40 + 40 <= |ImageOf(blob, imports)|
    ensures FlagsAt(ImageOf(blob, imports), i) == Flags(KindOf(blob, i))
  {
    hide ImageOf;
    RoomForTable(blob, imports);
    hide Number;
    hide KindOf;
    hide Flags;
    hide HeadersFit;
    hide Name;
    hide SectionFields;
    var f := FlagsField(blob, i);
    SectionFieldReads(blob, imports, i, f);
  }

  lemma NameBytes(blob: ParsedBlob, imports: nat, i: nat)
    requires Buildable(blob) && HeadersFit(blob, imports) && i < |blob.sections|
    ensures 0x178 + i * 40 + 40 <= |ImageOf(blob, imports)|
    ensures NameAt(ImageOf(blob, imports), i) == Name(KindOf(blob, i))
  {
    hide ImageOf;
    RoomForTable(blob, imports);
    hide KindOf;
    hide HeadersFit;
    hide Name;
    var fields := SectionFields(blob, i);
    var f := fields[0];
    assert f in fields;
    SectionFieldReads(blob, imports, i, f);
    assert f.offset == 0x178 + i * 40 && f.width == 8 && f.value == Decode(Name(KindOf(blob, i)));
    hide Decode;
    SignatureReads(ImageOf(blob, imports), 0x178 + i * 40, 8, Name(KindOf(blob, i)));
  }

  /** The name of a section, as the heuristic decides it. */
  lemma NameRead(blob: ParsedBlob, imports: nat, i: nat)
    requires Buildable(blob) && HeadersFit(blob, imports) && i < |blob.sections|
    ensures 0x178 + i * 40 + 40 <= |ImageOf(blob, imports)|
    ensures var data := Stored(blob.buffer, blob.sections[i]);
            Named(NameAt(ImageOf(blob, imports), i),
                  if i == 0 then ".text"
                  else if Large(blob, i) then if Constants(blob, i) then ".rdata" else ".data"
                  else if LooksLikeResource(data) then ".rsrc"
                  else if LooksLikeReloc(data) then ".reloc"
                  else ".rdata")
  {
    hide ImageOf;
    hide NameAt;
    MarkersExactly(Stored(blob.buffer, blob.sections[i]));
    NameBytes(blob, imports, i);
    KindNamed(KindOf(blob, i));
    hide RuntimeStrings;
    hide RdataMarkersMatch;
    hide LooksLikeResource;
    hide LooksLikeReloc;
    hide HeadersFit;
    hide Named;
    hide Name;
  }

  // The fixed headers

  ghost predicate AllRead(pe: seq<Byte>, fields: seq<Field>) {
    forall k :: 0 <= k < |fields| && fields[k].offset != CHECKSUM_FIELD ==> FieldRead(pe, fields[k])
  }

  lemma AllGroupsRead(blob: ParsedBlob, imports: nat)
    requires Buildable(blob) && HeadersFit(blob, imports)
    ensures var pe := ImageOf(blob, imports);
            && AllRead(pe, DosFields()) && AllRead(pe, CoffFields(|blob.sections|)) && AllRead(pe, StandardFields(blob))
            && AllRead(pe, VersionFields()) && AllRead(pe, SizeFields(blob)) && AllRead(pe, DirectoryFields(blob, imports))
  {
    hide DosFields;
    hide CoffFields;
    hide StandardFields;
    hide VersionFields;
    hide SizeFields;
    hide DirectoryFields;
    hide HeadersFit;
    hide ImageOf;
    hide FieldRead;
    var n := |blob.sections|;
    GroupRead(blob, imports, DosFields());
    GroupRead(blob, imports, CoffFields(n));
    GroupRead(blob, imports, StandardFields(blob));
    GroupRead(blob, imports, VersionFields());
    GroupRead(blob, imports, SizeFields(blob));
    GroupRead(blob, imports, DirectoryFields(blob, imports));
  }

  lemma GroupRead(blob: ParsedBlob, imports: nat, fields: seq<Field>)
    requires Buildable(blob) && HeadersFit(blob, imports)
    requires forall f :: f in fields ==> f in FixedFields(blob, imports)
    ensures AllRead(ImageOf(blob, imports), fields)
  {
    hide ImageOf;
    hide FixedFields;
    hide HeadersFit;
    hide Number;
    forall k | 0 <= k < |fields| && fields[k].offset != CHECKSUM_FIELD
      ensures FieldRead(ImageOf(blob, imports), fields[k])
    {
      assert fields[k] in fields;
      FixedReads(blob, imports, fields[k]);
    }
  }

  /** The number at an offset. */
  ghost predicate Reads(pe: seq<Byte>, at: nat, width: nat, value: int) {
    at + width <= |pe| && Number(pe, at, width) == value
  }

  // Signatures; machine, no time stamp, no symbols, size of the optional header, a 32-bit library
  ghost predicate FileHeader(pe: seq<Byte>, count: nat) {
    && Reads(pe, 0, 2, 0x5A4D) && Reads(pe, 0x3C, 4, 0x80) && Reads(pe, 0x80, 4, 0x4550)
    && Reads(pe, 0x84, 2, 0x14C) && Reads(pe, 0x86, 2, count) && Reads(pe, 0x88, 4, 0) && Reads(pe, 0x8C, 4, 0)
    && Reads(pe, 0x90, 4, 0) && Reads(pe, 0x94, 2, 0xE0) && Reads(pe, 0x96, 2, 0x2102)
  }

  // Both alignments; operating system, image, subsystem and Win32 versions
  ghost predicate Versions(pe: seq<Byte>) {
    && Reads(pe, 0xB8, 4, 0x1000) && Reads(pe, 0xBC, 4, 0x1000) && Reads(pe, 0xC0, 2, 4) && Reads(pe, 0xC2, 2, 0)
    && Reads(pe, 0xC4, 2, 0) && Reads(pe, 0xC6, 2, 0) && Reads(pe, 0xC8, 2, 4) && Reads(pe, 0xCA, 2, 0)
    && Reads(pe, 0xCC, 4, 0)
  }

  // Magic and linker version; no uninitialised data
  ghost predicate Magic(pe: seq<Byte>) {
    Reads(pe, 0x98, 2, 0x10B) && Reads(pe, 0x9A, 1, 8) && Reads(pe, 0x9B, 1, 0) && Reads(pe, 0xA4, 4, 0)
  }

  // Subsystem, stack and heap, number of directories; no exports
  ghost predicate Subsystem(pe: seq<Byte>) {
    && Reads(pe, 0xDC, 2, 2) && Reads(pe, 0xDE, 2, 0) && Reads(pe, 0xE0, 4, 0x10_0000) && Reads(pe, 0xE4, 4, 0x1000)
    && Reads(pe, 0xE8, 4, 0x10_0000) && Reads(pe, 0xEC, 4, 0x1000) && Reads(pe, 0xF0, 4, 0) && Reads(pe, 0xF4, 4, 16)
    && Reads(pe, 0xF8, 4, 0) && Reads(pe, 0xFC, 4, 0)
  }

  lemma FileHeaderFrom(pe: seq<Byte>, count: nat)
    requires AllRead(pe, DosFields()) && AllRead(pe, CoffFields(count))
    ensures FileHeader(pe, count)
  {
    hide Number;
    var d, c := DosFields(), CoffFields(count);
    assert d[0].offset == 0 && d[1].offset == 0x3C && d[2].offset == 0x80;
    assert c[0].offset == 0x84 && c[1].offset == 0x86 && c[2].offset == 0x88 && c[3].offset == 0x8C;
    assert c[4].offset == 0x90 && c[5].offset == 0x94 && c[6].offset == 0x96;
  }

  lemma VersionsFrom(pe: seq<Byte>)
    requires AllRead(pe, VersionFields())
    ensures Versions(pe)
  {
    hide Number;
    var v := VersionFields();
    assert v[0].offset == 0xB8 && v[1].offset == 0xBC && v[2].offset == 0xC0 && v[3].offset == 0xC2 && v[4].offset == 0xC4;
    assert v[5].offset == 0xC6 && v[6].offset == 0xC8 && v[7].offset == 0xCA && v[8].offset == 0xCC;
  }

  lemma SubsystemFrom(blob: ParsedBlob, imports: nat, pe: seq<Byte>)
    requires Buildable(blob) && AllRead(pe, SizeFields(blob)) && AllRead(pe, DirectoryFields(blob, imports))
    ensures Subsystem(pe)
  {
    hide Number;
    hide ImageSize;
    hide HeadersSize;
    hide ResourceDirectory;
    var z, d := SizeFields(blob), DirectoryFields(blob, imports);
    assert z[3].offset == 0xDC && z[4].offset == 0xDE && z[5].offset == 0xE0 && z[6].offset == 0xE4 && z[7].offset == 0xE8;
    assert z[8].offset == 0xEC && z[9].offset == 0xF0 && z[10].offset == 0xF4 && d[0].offset == 0xF8 && d[1].offset == 0xFC;
  }

  lemma MagicFrom(blob: ParsedBlob, pe: seq<Byte>)
    requires Buildable(blob) && AllRead(pe, StandardFields(blob))
    ensures Magic(pe)
  {
    hide Number;
    hide KindTotal;
    hide BaseOf;
    var f := StandardFields(blob);
    assert f[0].offset == 0x98 && f[1].offset == 0x9A && f[2].offset == 0x9B && f[5].offset == 0xA4;
  }

  /** The fields that are the same in every image, and the number of sections. */
  lemma ConstantsRead(blob: ParsedBlob, imports: nat)
    requires Buildable(blob) && HeadersFit(blob, imports)
    ensures var pe := ImageOf(blob, imports);
            FileHeader(pe, |blob.sections|) && Magic(pe) && Versions(pe) && Subsystem(pe)
  {
    hide ImageOf;
    hide HeadersFit;
    hide AllRead;
    hide FileHeader;
    hide Magic;
    hide Versions;
    hide Subsystem;
    AllGroupsRead(blob, imports);
    var pe := ImageOf(blob, imports);
    FileHeaderFrom(pe, |blob.sections|);
    MagicFrom(blob, pe);
    VersionsFrom(pe);
    SubsystemFrom(blob, imports, pe);
  }

  // The sizes and addresses

  function RawSizeAt(pe: seq<Byte>, i: nat): nat
    requires 0x178 + i * 40 + 40 <= |pe|
  {
    Number(pe, 0x178 + i * 40 + 16, 4)
  }

  function RawPointerAt(pe: seq<Byte>, i: nat): nat
    requires 0x178 + i * 40 + 40 <= |pe|
  {
    Number(pe, 0x178 + i * 40 + 20, 4)
  }

  function AddressAt(pe: seq<Byte>, i: nat): nat
    requires 0x178 + i * 40 + 40 <= |pe|
  {
    Number(pe, 0x178 + i * 40 + 12, 4)
  }

  function MemorySizeAt(pe: seq<Byte>, i: nat): nat
    requires 0x178 + i * 40 + 40 <= |pe|
  {
    Number(pe, 0x178 + i * 40 + 8, 4)
  }

  /** The raw sizes of the sections before `n` but for the first. */
  function DataTotal(pe: seq<Byte>, n: nat): nat
    requires 0x178 + n * 40 <= |pe|
  {
    if n <= 1 then 0 else DataTotal(pe, n - 1) + RawSizeAt(pe, n - 1)
  }

  /** `n` is the least multiple of 4096 that is not below `m`. */
  predicate LeastPage(n: nat, m: nat) {
    n % 0x1000 == 0 && m <= n < m + 0x1000
  }

  ghost predicate TableOf(blob: ParsedBlob, pe: seq<Byte>)
    requires InFile(blob)
  {
    && 0x178 + |blob.sections| * 40 <= |pe|
    && forall i :: 0 <= i < |blob.sections| ==>
         && AddressAt(pe, i) == blob.sections[i].virtualAddress - blob.header.imageBase
         && MemorySizeAt(pe, i) == blob.sections[i].virtualSize
         && LeastPage(RawSizeAt(pe, i), blob.sections[i].dataSize)
         && RawSizeAt(pe, i) == RawSize(blob.sections[i]) && RawPointerAt(pe, i) == FileOffset(blob.sections, i)
  }

  lemma TableRead(blob: ParsedBlob, imports: nat)
    requires Buildable(blob) && HeadersFit(blob, imports)
    ensures TableOf(blob, ImageOf(blob, imports))
  {
    hide ImageOf;
    hide HeadersFit;
    RoomForTable(blob, imports);
    forall i | 0 <= i < |blob.sections|
      ensures var pe := ImageOf(blob, imports);
              && AddressAt(pe, i) == blob.sections[i].virtualAddress - blob.header.imageBase
              && MemorySizeAt(pe, i) == blob.sections[i].virtualSize
              && LeastPage(RawSizeAt(pe, i), blob.sections[i].dataSize)
              && RawSizeAt(pe, i) == RawSize(blob.sections[i]) && RawPointerAt(pe, i) == FileOffset(blob.sections, i)
    {
      RowRead(blob, imports, i);
    }
  }

  lemma RowRead(blob: ParsedBlob, imports: nat, i: nat)
    requires Buildable(blob) && HeadersFit(blob, imports) && i < |blob.sections|
    ensures var pe := ImageOf(blob, imports);
            && 0x178 + i * 40 + 40 <= |pe|
            && AddressAt(pe, i) == blob.sections[i].virtualAddress - blob.header.imageBase
            && MemorySizeAt(pe, i) == blob.sections[i].virtualSize
            && LeastPage(RawSizeAt(pe, i), blob.sections[i].dataSize)
            && RawSizeAt(pe, i) == RawSize(blob.sections[i]) && RawPointerAt(pe, i) == FileOffset(blob.sections, i)
  {
    hide ImageOf;
    hide HeadersFit;
    hide KindOf;
    hide Name;
    hide Flags;
    hide Decode;
    hide FileOffset;
    RoomForTable(blob, imports);
    TableReads(blob, imports);
    SectionReads(blob, imports, i);
    var pe := ImageOf(blob, imports);
    assert ReadSection(pe, i).virtualAddress == AddressAt(pe, i) && ReadSection(pe, i).virtualSize == MemorySizeAt(pe, i);
    assert ReadSection(pe, i).rawSize == RawSizeAt(pe, i) && ReadSection(pe, i).rawPointer == RawPointerAt(pe, i);
  }

  // Sums and first sections

  lemma RawSizeOf(blob: ParsedBlob, pe: seq<Byte>, i: nat)
    requires InFile(blob) && TableOf(blob, pe) && i < |blob.sections|
    ensures RawSizeAt(pe, i) == RawSize(blob.sections[i])
  {
    hide AddressAt;
    hide MemorySizeAt;
    hide RawSizeAt;
    hide RawPointerAt;
  }

  lemma {:induction false} CodeAndData(blob: ParsedBlob, pe: seq<Byte>, n: nat)
    requires InFile(blob) && TableOf(blob, pe) && 0x178 + |blob.sections| * 40 <= |pe| && n <= |blob.sections|
    ensures KindTotal(blob, true, n) == if n == 0 then 0 else RawSizeAt(pe, 0)
    ensures KindTotal(blob, false, n) == DataTotal(pe, n)
  {
    hide RawSizeAt;
    hide TableOf;
    hide RawSize;
    if n > 0 {
      CodeAndData(blob, pe, n - 1);
      RawSizeOf(blob, pe, n - 1);
      assert KindOf(blob, n - 1).Text? <==> n - 1 == 0;
    }
  }

  /** The first address in the table that is not among `skipped`, or 0. */
  ghost predicate FirstAddress(pe: seq<Byte>, n: nat, skipped: set<int>, address: int)
    requires 0x178 + n * 40 <= |pe|
  {
    || (address == 0 && forall i: nat :: i < n ==> AddressAt(pe, i) in skipped)
    || (address !in skipped && exists i: nat :: i < n && FirstAt(pe, skipped, i, address))
  }

  ghost predicate FirstAt(pe: seq<Byte>, skipped: set<int>, i: nat, address: int)
    requires 0x178 + i * 40 + 40 <= |pe|
  {
    address == AddressAt(pe, i) && forall j: nat :: j < i ==> AddressAt(pe, j) in skipped
  }

  lemma AddressOf(blob: ParsedBlob, pe: seq<Byte>, i: nat)
    requires InFile(blob) && TableOf(blob, pe) && i < |blob.sections|
    ensures AddressAt(pe, i) == Rva(blob, i)
  {
    hide AddressAt;
    hide MemorySizeAt;
    hide RawSizeAt;
    hide RawPointerAt;
  }

  lemma {:induction false} BaseFound(blob: ParsedBlob, pe: seq<Byte>, skipFirst: bool, i: nat)
    requires InFile(blob) && TableOf(blob, pe) && 0x178 + |blob.sections| * 40 <= |pe| && i <= |blob.sections|
    requires var skipped := if skipFirst && |blob.sections| > 0 then {0, AddressAt(pe, 0)} else {0};
             forall j: nat :: j < i ==> AddressAt(pe, j) in skipped
    ensures var skipped := if skipFirst && |blob.sections| > 0 then {0, AddressAt(pe, 0)} else {0};
            FirstAddress(pe, |blob.sections|, skipped, BaseOf(blob, skipFirst, i))
    decreases |blob.sections| - i
  {
    hide AddressAt;
    hide TableOf;
    var skipped := if skipFirst && |blob.sections| > 0 then {0, AddressAt(pe, 0)} else {0};
    if i < |blob.sections| {
      AddressOf(blob, pe, i);
      AddressOf(blob, pe, 0);
      if AddressAt(pe, i) in skipped {
        BaseFound(blob, pe, skipFirst, i + 1);
      } else {
        assert FirstAt(pe, skipped, i, AddressAt(pe, i));
      }
    }
  }

  /** The first section by the name `.rsrc` that is not at address 0: its address and size, or zeros. */
  ghost predicate ResourceIs(pe: seq<Byte>, n: nat, address: int, size: nat)
    requires 0x178 + n * 40 <= |pe|
  {
    || (address == 0 && size == 0 && forall i: nat :: i < n ==> !ResourceAt(pe, i))
    || exists i: nat :: i < n && ResourceAt(pe, i) && address == AddressAt(pe, i) && size == RawSizeAt(pe, i)
                        && forall j: nat :: j < i ==> !ResourceAt(pe, j)
  }

  ghost predicate ResourceAt(pe: seq<Byte>, i: nat)
    requires 0x178 + i * 40 + 40 <= |pe|
  {
    Named(NameAt(pe, i), ".rsrc") && AddressAt(pe, i) != 0
  }

  lemma ResourceFound(blob: ParsedBlob, imports: nat)
    requires Buildable(blob) && HeadersFit(blob, imports)
    ensures 0x178 + |blob.sections| * 40 <= |ImageOf(blob, imports)|
    ensures ResourceIs(ImageOf(blob, imports), |blob.sections|, ResourceDirectory(blob).0, ResourceDirectory(blob).1)
  {
    var pe, n := ImageOf(blob, imports), |blob.sections|;
    RoomForTable(blob, imports);
    hide ImageOf;
    hide HeadersFit;
    hide Named;
    hide Name;
    hide NameAt;
    hide AddressAt;
    hide RawSizeAt;
    hide RawSize;
    hide KindOf;
    TableRead(blob, imports);
    forall i: nat | i < n ensures ResourceAt(pe, i) <==> IsResource(blob, i) {
      NameBytes(blob, imports, i);
      KindNamed(KindOf(blob, i));
    }
    hide ResourceAt;
    hide IsResource;
    var found := ResourceFrom(blob, 0);
    if found.Some? {
      assert ResourceAt(pe, found.value);
    }
  }

  function EndAt(pe: seq<Byte>, i: nat): nat
    requires 0x178 + i * 40 + 40 <= |pe|
  {
    AddressAt(pe, i) + MemorySizeAt(pe, i)
  }

  /** The end of the image in memory, from the table. */
  ghost predicate EndsAt(pe: seq<Byte>, n: nat, end: int)
    requires 0x178 + n * 40 <= |pe|
  {
    (forall i: nat :: i < n ==> EndAt(pe, i) <= end) && exists i: nat :: i < n && EndAt(pe, i) == end
  }

  lemma {:induction false} EndReached(sections: seq<Section>, n: nat) returns (i: nat)
    requires 0 < n <= |sections|
    ensures i < n && ImageEnd(sections, n) == sections[i].virtualAddress + sections[i].virtualSize
  {
    i := n - 1;
    if n > 1 {
      var j := EndReached(sections, n - 1);
      if ImageEnd(sections, n) == ImageEnd(sections, n - 1) {
        i := j;
      }
    }
  }

  lemma EndFound(blob: ParsedBlob, pe: seq<Byte>)
    requires InFile(blob) && TableOf(blob, pe) && |blob.sections| > 0
    ensures EndsAt(pe, |blob.sections|, ImageEnd(blob.sections, |blob.sections|) - blob.header.imageBase)
  {
    hide AddressAt;
    hide RawSizeAt;
    hide RawPointerAt;
    hide MemorySizeAt;
    hide RawSize;
    hide ImageEnd;
    var n := |blob.sections|;
    forall i: nat | i < n
      ensures EndAt(pe, i) == blob.sections[i].virtualAddress - blob.header.imageBase + blob.sections[i].virtualSize
      ensures blob.sections[i].virtualAddress + blob.sections[i].virtualSize <= ImageEnd(blob.sections, n)
    {
      EndBounds(blob.sections, i, n);
    }
    var i := EndReached(blob.sections, n);
    hide TableOf;
    assert EndAt(pe, i) == ImageEnd(blob.sections, n) - blob.header.imageBase;
  }

  lemma StandardFrom(blob: ParsedBlob, pe: seq<Byte>)
    requires Buildable(blob) && AllRead(pe, StandardFields(blob))
    ensures Reads(pe, 0x9C, 4, KindTotal(blob, true, |blob.sections|))
    ensures Reads(pe, 0xA0, 4, KindTotal(blob, false, |blob.sections|))
    ensures Reads(pe, 0xA8, 4, blob.header.entryPoint - blob.header.imageBase) && Reads(pe, 0xB4, 4, blob.header.imageBase)
    ensures Reads(pe, 0xAC, 4, BaseOf(blob, false, 0)) && Reads(pe, 0xB0, 4, BaseOf(blob, true, 0))
  {
    hide Number;
    hide KindTotal;
    hide BaseOf;
    var f := StandardFields(blob);
    assert f[3].offset == 0x9C && f[4].offset == 0xA0 && f[6].offset == 0xA8 && f[7].offset == 0xAC;
    assert f[8].offset == 0xB0 && f[9].offset == 0xB4;
  }

  lemma SizesFrom(blob: ParsedBlob, pe: seq<Byte>)
    requires Buildable(blob) && AllRead(pe, SizeFields(blob))
    ensures Reads(pe, 0xD0, 4, ImageSize(blob)) && Reads(pe, 0xD4, 4, HeadersSize(|blob.sections|))
  {
    hide Number;
    hide ImageSize;
    hide HeadersSize;
    var f := SizeFields(blob);
    assert f[0].offset == 0xD0 && f[1].offset == 0xD4;
  }

  lemma DirectoriesFrom(blob: ParsedBlob, imports: nat, pe: seq<Byte>)
    requires Buildable(blob) && AllRead(pe, DirectoryFields(blob, imports))
    ensures Reads(pe, 0x100, 4, blob.header.importTable - blob.header.imageBase) && Reads(pe, 0x104, 4, (imports + 1) * 20)
    ensures Reads(pe, 0x108, 4, ResourceDirectory(blob).0) && Reads(pe, 0x10C, 4, ResourceDirectory(blob).1)
  {
    hide Number;
    hide ResourceDirectory;
    var f := DirectoryFields(blob, imports);
    assert f[2].offset == 0x100 && f[3].offset == 0x104 && f[4].offset == 0x108 && f[5].offset == 0x10C;
  }

  // Main results

  /** The sizes of code and data, and of the image in memory, each from the rows of the table. */
  ghost predicate MemorySizes(pe: seq<Byte>, n: nat)
    requires 0x178 + n * 40 <= |pe| && n > 0
  {
    && Reads(pe, 0x9C, 4, RawSizeAt(pe, 0)) && Reads(pe, 0xA0, 4, DataTotal(pe, n))
    && exists end: nat, size: nat :: EndsAt(pe, n, end) && LeastPage(size, end) && Reads(pe, 0xD0, 4, size)
  }

  /** The headers fill their pages, and the raw data of the sections follow without gaps up to the end of the file. */
  ghost predicate FileSizes(pe: seq<Byte>, n: nat)
    requires 0x178 + n * 40 <= |pe| && n > 0
  {
    && LeastPage(RawPointerAt(pe, 0), 0x178 + n * 40) && Reads(pe, 0xD4, 4, RawPointerAt(pe, 0))
    && (forall i: nat :: i < n ==> DataEndAt(pe, i) == if i == n - 1 then |pe| else RawPointerAt(pe, i + 1))
  }

  function DataEndAt(pe: seq<Byte>, i: nat): nat
    requires 0x178 + i * 40 + 40 <= |pe|
  {
    RawPointerAt(pe, i) + RawSizeAt(pe, i)
  }

  lemma MemorySizesRead(blob: ParsedBlob, imports: nat)
    requires Buildable(blob) && HeadersFit(blob, imports) && |blob.sections| > 0
    ensures 0x178 + |blob.sections| * 40 <= |ImageOf(blob, imports)|
    ensures MemorySizes(ImageOf(blob, imports), |blob.sections|)
  {
    hide ImageOf;
    hide HeadersFit;
    hide RawSizeAt;
    hide Reads;
    hide AllRead;
    hide KindTotal;
    hide DataTotal;
    hide ImageEnd;
    hide TableOf;
    hide EndsAt;
    hide HeadersSize;
    var pe, n := ImageOf(blob, imports), |blob.sections|;
    RoomForTable(blob, imports);
    TableRead(blob, imports);
    AllGroupsRead(blob, imports);
    StandardFrom(blob, pe);
    SizesFrom(blob, pe);
    CodeAndData(blob, pe, n);
    EndFound(blob, pe);
  }

  lemma FileSizesRead(blob: ParsedBlob, imports: nat)
    requires Buildable(blob) && HeadersFit(blob, imports) && |blob.sections| > 0
    ensures 0x178 + |blob.sections| * 40 <= |ImageOf(blob, imports)|
    ensures FileSizes(ImageOf(blob, imports), |blob.sections|)
  {
    hide ImageOf;
    hide HeadersFit;
    hide RawSizeAt;
    hide RawPointerAt;
    hide AddressAt;
    hide MemorySizeAt;
    hide RawSize;
    hide Reads;
    hide AllRead;
    var pe, n := ImageOf(blob, imports), |blob.sections|;
    RoomForTable(blob, imports);
    TableRead(blob, imports);
    AllGroupsRead(blob, imports);
    SizesFrom(blob, pe);
    forall i: nat | i < n
      ensures DataEndAt(pe, i) == if i == n - 1 then |pe| else RawPointerAt(pe, i + 1)
    {
      assert DataEndAt(pe, i) == FileOffset(blob.sections, i + 1);
    }
  }

  /** Entry point, image base and imports as the blob has them; the bases of code and data and the resource directory
      name the first fitting sections of the table. */
  lemma AddressesRead(blob: ParsedBlob, imports: nat)
    requires Buildable(blob) && HeadersFit(blob, imports) && |blob.sections| > 0
    ensures 0x178 + |blob.sections| * 40 <= |ImageOf(blob, imports)|
    ensures var pe, n, base := ImageOf(blob, imports), |blob.sections|, blob.header.imageBase;
            && Reads(pe, 0xA8, 4, blob.header.entryPoint - base) && Reads(pe, 0xB4, 4, base)
            && Reads(pe, 0x100, 4, blob.header.importTable - base) && Reads(pe, 0x104, 4, (imports + 1) * 20)
            && FirstAddress(pe, n, {0}, Number(pe, 0xAC, 4))
            && FirstAddress(pe, n, {0, AddressAt(pe, 0)}, Number(pe, 0xB0, 4))
            && ResourceIs(pe, n, Number(pe, 0x108, 4), Number(pe, 0x10C, 4))
  {
    hide ImageOf;
    hide HeadersFit;
    hide AddressAt;
    hide FirstAddress;
    hide ResourceIs;
    hide ResourceDirectory;
    hide AllRead;
    hide KindTotal;
    hide BaseOf;
    hide Number;
    hide TableOf;
    hide HeadersSize;
    hide ImageSize;
    var pe, n := ImageOf(blob, imports), |blob.sections|;
    RoomForTable(blob, imports);
    TableRead(blob, imports);
    AllGroupsRead(blob, imports);
    StandardFrom(blob, pe);
    DirectoriesFrom(blob, imports, pe);
    BaseFound(blob, pe, false, 0);
    BaseFound(blob, pe, true, 0);
    ResourceFound(blob, imports);
  }
}
