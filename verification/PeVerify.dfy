/** The structural self-check of a rebuilt image. */
module PeVerify {
  import opened Bytes
  import opened Outcomes
  import opened BlobFormat
  import opened SectionKinds
  import opened PeLayout
  import opened PeImage
  import opened PeReading

  /** Why the check fails; unpacking past the end of the data is an error of its own. */
  datatype VerifyError =
    | UnpackError
    | TooShort
    | NoMzSignature
    | NoPeSignature
    | NotI386
    | NotPe32
    | CountMismatch
    | BaseMismatch
    | EntryOutside
    | ImportOutside
    | ResourceOutside
    | SectionUnaligned
    | SectionBeyondFile
    | EntryUncovered

  /** Some section's virtual range holds the address. */
  predicate Covered(blob: ParsedBlob, rva: int) {
    exists i :: 0 <= i < |blob.sections| && Rva(blob, i) <= rva < Rva(blob, i) + blob.sections[i].virtualSize
  }

  /** The section headers from `i` on: aligned addresses, and raw data inside the file. */
  function VerifySections(pe: seq<Byte>, table: nat, i: nat, count: nat): (error: Option<VerifyError>)
    requires i <= count
    decreases count - i
  {
    var at := table + i * 40;
    if i == count then None
    else if at + 16 > |pe| then Some(UnpackError)
    else if Number(pe, at + 12, 4) % 0x1000 != 0 then Some(SectionUnaligned)
    else if at + 24 > |pe| then Some(UnpackError)
    else if Number(pe, at + 20, 4) + Number(pe, at + 16, 4) > |pe| then Some(SectionBeyondFile)
    else VerifySections(pe, table, i + 1, count)
  }

  /** The checks of the data directories and of what follows them. */
  function VerifyDirectories(pe: seq<Byte>, blob: ParsedBlob, opt: nat, count: nat): (error: Option<VerifyError>)
    requires opt + 60 <= |pe|
  {
    var sizeOfImage, entry := Number(pe, opt + 56, 4), Number(pe, opt + 16, 4);
    if !(0 < entry < sizeOfImage) then Some(EntryOutside)
    else if opt + 112 > |pe| then Some(UnpackError)
    else if Number(pe, opt + 104, 4) >= sizeOfImage then Some(ImportOutside)
    else if opt + 120 > |pe| then Some(UnpackError)
    else if Number(pe, opt + 112, 4) != 0
         && (Number(pe, opt + 112, 4) >= sizeOfImage || Number(pe, opt + 116, 4) == 0) then Some(ResourceOutside)
    else
      var error := VerifySections(pe, opt + 0xE0, 0, count);
      if error.Some? then error
      else if !Covered(blob, entry) then Some(EntryUncovered)
      else None
  }

  function VerifyPe(pe: seq<Byte>, blob: ParsedBlob): (error: Option<VerifyError>) {
    if |pe| < SECTION_TABLE then Some(TooShort)
    else if pe[..2] != [0x4D, 0x5A] then Some(NoMzSignature)
    else
      var header := HeaderAt(pe);
      var opt := header + 24;
      if header + 4 > |pe| || pe[header..header + 4] != [0x50, 0x45, 0, 0] then Some(NoPeSignature)
      else if header + 6 > |pe| then Some(UnpackError)
      else if Number(pe, header + 4, 2) != 0x14C then Some(NotI386)
      else if opt + 2 > |pe| then Some(UnpackError)
      else if Number(pe, opt, 2) != 0x10B then Some(NotPe32)
      else if Number(pe, header + 6, 2) != |blob.sections| then Some(CountMismatch)
      else if opt + 32 > |pe| then Some(UnpackError)
      else if Number(pe, opt + 28, 4) != blob.header.imageBase then Some(BaseMismatch)
      else if opt + 60 > |pe| then Some(UnpackError)
      else VerifyDirectories(pe, blob, opt, |blob.sections|)
  }

  // What the check reads from a built image

  lemma SignatureReads(pe: seq<Byte>, at: nat, width: nat, piece: seq<Byte>)
    requires at + width <= |pe| && |piece| == width && Number(pe, at, width) == Decode(piece)
    ensures pe[at..at + width] == piece
  {
    DecodeInjective(pe[at..at + width], piece);
  }

  lemma {:induction false} DecodeInjective(a: seq<Byte>, b: seq<Byte>)
    requires |a| == |b| && Decode(a) == Decode(b)
    ensures a == b
  {
    if a != [] {
      LowByte(a[0], Decode(a[1..]), b[0], Decode(b[1..]));
      DecodeInjective(a[1..], b[1..]);
      assert a == [a[0]] + a[1..] && b == [b[0]] + b[1..];
    }
  }

  lemma LowByte(a: Byte, x: nat, b: Byte, y: nat)
    requires a + 0x100 * x == b + 0x100 * y
    ensures a == b && x == y
  {}

  lemma DosRead(blob: ParsedBlob, imports: nat)
    requires Buildable(blob) && HeadersFit(blob, imports)
    ensures
      var pe := ImageOf(blob, imports);
      && SECTION_TABLE <= |pe|
      && Number(pe, 0, 2) == 0x5A4D && Number(pe, 0x3C, 4) == PE_OFFSET && Number(pe, PE_OFFSET, 4) == 0x4550
  {
    ImageLength(blob, imports);
    hide Number;
    hide ImageOf;
    hide HeadersFit;
    hide CoffFields;
    hide StandardFields;
    hide VersionFields;
    hide SizeFields;
    hide DirectoryFields;
    var dos := DosFields();
    assert dos[0] in dos && dos[1] in dos && dos[2] in dos;
    FixedReads(blob, imports, dos[0]);
    FixedReads(blob, imports, dos[1]);
    FixedReads(blob, imports, dos[2]);
  }

  lemma CoffRead(blob: ParsedBlob, imports: nat)
    requires Buildable(blob) && HeadersFit(blob, imports)
    ensures
      var pe := ImageOf(blob, imports);
      && SECTION_TABLE <= |pe|
      && Number(pe, 0x84, 2) == 0x14C && Number(pe, 0x86, 2) == |blob.sections| && Number(pe, 0x98, 2) == 0x10B
  {
    ImageLength(blob, imports);
    hide Number;
    hide ImageOf;
    hide HeadersFit;
    hide DosFields;
    hide VersionFields;
    hide SizeFields;
    hide DirectoryFields;
    hide KindTotal;
    hide BaseOf;
    var coff, standard := CoffFields(|blob.sections|), StandardFields(blob);
    assert coff[0] in coff && coff[1] in coff && standard[0] in standard;
    FixedReads(blob, imports, coff[0]);
    FixedReads(blob, imports, coff[1]);
    FixedReads(blob, imports, standard[0]);
  }

  lemma OptionalRead(blob: ParsedBlob, imports: nat)
    requires Buildable(blob) && HeadersFit(blob, imports)
    ensures
      var pe := ImageOf(blob, imports);
      && SECTION_TABLE <= |pe|
      && Number(pe, 0xA8, 4) == blob.header.entryPoint - blob.header.imageBase
      && Number(pe, 0xB4, 4) == blob.header.imageBase
      && Number(pe, 0xD0, 4) == ImageSize(blob)
      && Number(pe, 0x100, 4) == blob.header.importTable - blob.header.imageBase
      && Number(pe, 0x108, 4) == ResourceDirectory(blob).0 && Number(pe, 0x10C, 4) == ResourceDirectory(blob).1
  {
    ImageLength(blob, imports);
    hide Number;
    hide ImageOf;
    hide HeadersFit;
    hide DosFields;
    hide CoffFields;
    hide VersionFields;
    hide ResourceDirectory;
    hide ImageSize;
    hide HeadersSize;
    hide KindTotal;
    hide BaseOf;
    var standard, sizes, dirs := StandardFields(blob), SizeFields(blob), DirectoryFields(blob, imports);
    assert standard[6] in standard && standard[9] in standard && sizes[0] in sizes;
    assert dirs[2] in dirs && dirs[4] in dirs && dirs[5] in dirs;
    FixedReads(blob, imports, standard[6]);
    FixedReads(blob, imports, standard[9]);
    FixedReads(blob, imports, sizes[0]);
    FixedReads(blob, imports, dirs[2]);
    FixedReads(blob, imports, dirs[4]);
    FixedReads(blob, imports, dirs[5]);
  }

  // Which checks can fail

  lemma {:induction false} EndBounds(sections: seq<Section>, i: nat, n: nat)
    requires i < n <= |sections|
    ensures sections[i].virtualAddress + sections[i].virtualSize <= ImageEnd(sections, n)
  {
    if i < n - 1 {
      EndBounds(sections, i, n - 1);
    }
  }

  /** Every section header of a built image passes. */
  lemma {:induction false} SectionsPass(blob: ParsedBlob, pe: seq<Byte>, i: nat)
    requires InFile(blob) && i <= |blob.sections|
    requires SECTION_TABLE + |blob.sections| * 40 <= |pe|
    requires forall k :: 0 <= k < |blob.sections| ==> HeaderPasses(pe, k)
    ensures VerifySections(pe, SECTION_TABLE, i, |blob.sections|) == None
    decreases |blob.sections| - i
  {
    hide Number;
    if i < |blob.sections| {
      assert HeaderPasses(pe, i);
      SectionsPass(blob, pe, i + 1);
    }
  }

  ghost predicate HeaderPasses(pe: seq<Byte>, i: nat) {
    var at := SECTION_TABLE + i * 40;
    && at + 24 <= |pe|
    && Number(pe, at + 12, 4) % 0x1000 == 0
    && Number(pe, at + 20, 4) + Number(pe, at + 16, 4) <= |pe|
  }

  lemma AddressAligned(blob: ParsedBlob, i: nat)
    requires Parsed(blob) && i < |blob.sections|
    ensures Rva(blob, i) >= 0 && Rva(blob, i) % 0x1000 == 0
  {
    assert FaultOf(blob.sections[i], blob.header.imageBase, |blob.buffer|).None?;
    AlignedDifference(blob.sections[i].virtualAddress, blob.header.imageBase);
  }

  lemma AlignedDifference(a: int, b: int)
    requires a % 0x1000 == 0 && b % 0x1000 == 0
    ensures (a - b) % 0x1000 == 0
  {}

  lemma ParsedIsBuildable(blob: ParsedBlob)
    requires Parsed(blob)
    ensures Buildable(blob)
  {
    forall i | 0 <= i < |blob.sections|
      ensures blob.sections[i].dataAddress + blob.sections[i].dataSize <= |blob.buffer|
    {
      assert FaultOf(blob.sections[i], blob.header.imageBase, |blob.buffer|).None?;
    }
  }

  lemma HeaderPass(blob: ParsedBlob, pe: seq<Byte>, i: nat)
    requires Parsed(blob) && InFile(blob) && i < |blob.sections|
    requires SectionRead(blob, pe, i) && TableAt(pe) == SECTION_TABLE && SectionCount(pe) == |blob.sections|
    requires FileOffset(blob.sections, i) + RawSize(blob.sections[i]) <= |pe|
    ensures HeaderPasses(pe, i)
  {
    AddressAligned(blob, i);
    hide Parsed;
    hide Number;
    hide FileOffset;
    hide RawSize;
    hide KindOf;
    hide Name;
    hide Flags;
    hide Decode;
    hide TableAt;
    hide SectionCount;
  }

  lemma AllHeadersPass(blob: ParsedBlob, imports: nat)
    requires Parsed(blob) && Buildable(blob) && HeadersFit(blob, imports)
    ensures SECTION_TABLE + |blob.sections| * 40 <= |ImageOf(blob, imports)|
    ensures VerifySections(ImageOf(blob, imports), SECTION_TABLE, 0, |blob.sections|) == None
  {
    hide Parsed;
    hide HeadersFit;
    hide ImageOf;
    hide HeaderPasses;
    hide SectionRead;
    hide VerifySections;
    hide FileOffset;
    hide RawSize;
    var pe := ImageOf(blob, imports);
    TableReads(blob, imports);
    ImageLength(blob, imports);
    hide TableAt;
    hide SectionCount;
    forall i | 0 <= i < |blob.sections|
      ensures HeaderPasses(pe, i)
    {
      SectionReads(blob, imports, i);
      OffsetsGrow(blob.sections, i, |blob.sections|);
      OffsetsGrow(blob.sections, i + 1, |blob.sections|);
      HeaderPass(blob, pe, i);
    }
    SectionsPass(blob, pe, 0);
  }

  /** Points inside the image have addresses below its size. */
  lemma PointBelowSize(blob: ParsedBlob, point: Word)
    requires Buildable(blob) && Inside(blob.header, blob.sections, point)
    ensures 0 <= point - blob.header.imageBase < ImageSize(blob)
  {
    hide ImageEnd;
  }

  /** The exposed resource section begins inside the image. */
  predicate ResourceInside(blob: ParsedBlob)
    requires Buildable(blob)
  {
    ResourceDirectory(blob).0 < ImageSize(blob)
  }

  lemma ResourceHasBytes(blob: ParsedBlob)
    requires InFile(blob)
    ensures ResourceDirectory(blob).0 != 0 ==> ResourceDirectory(blob).1 > 0
  {
    var found := ResourceFrom(blob, 0);
    if found.Some? {
      assert IsResource(blob, found.value);
      RawCovers(blob.sections[found.value]);
    }
  }

  /** With everything else in place, the directory checks come down to three conditions. */
  lemma DirectoriesExact(blob: ParsedBlob, pe: seq<Byte>)
    requires Buildable(blob) && SECTION_TABLE <= |pe|
    requires Inside(blob.header, blob.sections, blob.header.entryPoint)
    requires Inside(blob.header, blob.sections, blob.header.importTable)
    requires Number(pe, 0xA8, 4) == blob.header.entryPoint - blob.header.imageBase
    requires Number(pe, 0xD0, 4) == ImageSize(blob)
    requires Number(pe, 0x100, 4) == blob.header.importTable - blob.header.imageBase
    requires Number(pe, 0x108, 4) == ResourceDirectory(blob).0 && Number(pe, 0x10C, 4) == ResourceDirectory(blob).1
    requires VerifySections(pe, SECTION_TABLE, 0, |blob.sections|) == None
    ensures VerifyDirectories(pe, blob, OPTIONAL_HEADER, |blob.sections|) == None
         <==> (&& blob.header.entryPoint != blob.header.imageBase
               && Covered(blob, blob.header.entryPoint - blob.header.imageBase)
               && ResourceInside(blob))
  {
    hide Number;
    hide VerifySections;
    hide Covered;
    PointBelowSize(blob, blob.header.entryPoint);
    PointBelowSize(blob, blob.header.importTable);
    ResourceHasBytes(blob);
    hide ImageSize;
    hide ResourceDirectory;
  }

  /** The self-check accepts a built image exactly when the entry point is inside a section and not at the
      image base, and the exposed resource section begins inside the image. */
  lemma SelfCheckExact(blob: ParsedBlob, imports: nat)
    requires Parsed(blob) && Buildable(blob) && HeadersFit(blob, imports)
    ensures VerifyPe(ImageOf(blob, imports), blob) == None
         <==> (&& blob.header.entryPoint != blob.header.imageBase
               && Covered(blob, blob.header.entryPoint - blob.header.imageBase)
               && ResourceInside(blob))
  {
    hide Number;
    hide HeadersFit;
    hide ImageOf;
    hide Covered;
    hide ResourceInside;
    hide VerifyDirectories;
    hide Decode;
    hide ImageEnd;
    hide FaultOf;
    hide ImageSize;
    hide ResourceDirectory;
    var pe := ImageOf(blob, imports);
    DosRead(blob, imports);
    CoffRead(blob, imports);
    OptionalRead(blob, imports);
    AllHeadersPass(blob, imports);
    Signatures();
    SignatureReads(pe, 0, 2, [0x4D, 0x5A]);
    SignatureReads(pe, PE_OFFSET, 4, [0x50, 0x45, 0, 0]);
    hide VerifySections;
    DirectoriesExact(blob, pe);
  }

  lemma Signatures()
    ensures Decode([0x4D, 0x5A]) == 0x5A4D && Decode([0x50, 0x45, 0, 0]) == 0x4550
  {
    assert [0x4D, 0x5A][1..] == [0x5A];
    assert [0x50, 0x45, 0, 0][1..] == [0x45, 0, 0] && [0x45, 0, 0][1..] == [0, 0] && [0, 0][1..] == [0];
  }

  /** No resource section of size zero in memory: then only the entry point decides. */
  lemma SelfCheckOfSizedResources(blob: ParsedBlob, imports: nat)
    requires Parsed(blob) && Buildable(blob) && HeadersFit(blob, imports)
    requires forall i :: 0 <= i < |blob.sections| && KindOf(blob, i) == Rsrc ==> blob.sections[i].virtualSize > 0
    ensures VerifyPe(ImageOf(blob, imports), blob) == None
         <==> (&& blob.header.entryPoint != blob.header.imageBase
               && Covered(blob, blob.header.entryPoint - blob.header.imageBase))
  {
    hide VerifyPe;
    hide HeadersFit;
    hide ImageOf;
    hide Covered;
    hide KindOf;
    SelfCheckExact(blob, imports);
    PointBelowSize(blob, blob.header.entryPoint);
    var found := ResourceFrom(blob, 0);
    if found.Some? {
      assert IsResource(blob, found.value);
      EndBounds(blob.sections, found.value, |blob.sections|);
    }
  }

  // The check without its order

  /** The number at an offset, if the file reaches that far. */
  ghost predicate Has(pe: seq<Byte>, at: nat, width: nat, value: int) {
    at + width <= |pe| && Number(pe, at, width) == value
  }

  ghost predicate SectionPasses(pe: seq<Byte>, at: nat) {
    && at + 24 <= |pe|
    && Number(pe, at + 12, 4) % 0x1000 == 0
    && Number(pe, at + 20, 4) + Number(pe, at + 16, 4) <= |pe|
  }

  /** A 32-bit image for the i386 with the blob's base and number of sections; entry point, imports and resources inside
      the image; sections aligned and inside the file; the entry point in a section of the blob. */
  ghost predicate WellBuilt(pe: seq<Byte>, blob: ParsedBlob) {
    && |pe| >= 0x178 && pe[0] == 0x4D && pe[1] == 0x5A
    && var header := Number(pe, 0x3C, 4);
    && Has(pe, header, 4, 0x4550) && Has(pe, header + 4, 2, 0x14C) && Has(pe, header + 6, 2, |blob.sections|)
    && Has(pe, header + 24, 2, 0x10B) && Has(pe, header + 52, 4, blob.header.imageBase)
    && header + 144 <= |pe|
    && var size, entry := Number(pe, header + 80, 4), Number(pe, header + 40, 4);
    && 0 < entry < size && Number(pe, header + 128, 4) < size
    && (Number(pe, header + 136, 4) == 0 || (Number(pe, header + 136, 4) < size && Number(pe, header + 140, 4) != 0))
    && (forall i :: 0 <= i < |blob.sections| ==> SectionPasses(pe, header + 248 + i * 40))
    && Covered(blob, entry)
  }

  lemma {:induction false} SectionsExactly(pe: seq<Byte>, table: nat, i: nat, count: nat)
    requires i <= count
    ensures VerifySections(pe, table, i, count).None? <==> forall k :: i <= k < count ==> SectionPasses(pe, table + k * 40)
    decreases count - i
  {
    hide Number;
    if i < count {
      SectionsExactly(pe, table, i + 1, count);
    }
  }

  /** Which images the self-check accepts, built here or not. */
  lemma VerifiedExactly(pe: seq<Byte>, blob: ParsedBlob)
    ensures VerifyPe(pe, blob) == None <==> WellBuilt(pe, blob)
  {
    hide Number;
    hide SectionPasses;
    hide VerifySections;
    hide Covered;
    if |pe| >= 0x178 {
      var header := Number(pe, 0x3C, 4);
      SectionsExactly(pe, header + 248, 0, |blob.sections|);
      if header + 4 <= |pe| {
        SignatureExactly(pe, header);
      }
      assert pe[..2] == [0x4D, 0x5A] <==> pe[0] == 0x4D && pe[1] == 0x5A;
    }
  }

  lemma SignatureExactly(pe: seq<Byte>, at: nat)
    requires at + 4 <= |pe|
    ensures pe[at..at + 4] == [0x50, 0x45, 0, 0] <==> Number(pe, at, 4) == 0x4550
  {
    Signatures();
    hide Decode;
    if Number(pe, at, 4) == 0x4550 {
      SignatureReads(pe, at, 4, [0x50, 0x45, 0, 0]);
    }
  }
}
