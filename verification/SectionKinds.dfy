/** The heuristic that names a recovered section and chooses its flags. */
module SectionKinds {
  import opened Bytes
  import opened BlobFormat

  datatype Kind = Text | Rdata | Data | Rsrc | Reloc

  function Flags(kind: Kind): Word {
    match kind
    case Text => 0x6000_0020
    case Data => 0xC000_0040
    case _ => 0x4000_0040
  }

  function Ascii(s: string): (bytes: seq<Byte>)
    requires forall i :: 0 <= i < |s| ==> s[i] < 128 as char
    ensures |bytes| == |s|
  {
    seq(|s|, i requires 0 <= i < |s| => s[i] as int)
  }

  /** The eight name bytes, padded with zeros. */
  function Name(kind: Kind): (name: seq<Byte>)
    ensures |name| == 8
  {
    match kind
    case Text => Ascii(".text") + [0, 0, 0]
    case Rdata => Ascii(".rdata") + [0, 0]
    case Data => Ascii(".data") + [0, 0, 0]
    case Rsrc => Ascii(".rsrc") + [0, 0, 0]
    case Reloc => Ascii(".reloc") + [0, 0]
  }

  predicate OccursAt(data: seq<Byte>, marker: seq<Byte>, at: nat) {
    at + |marker| <= |data| && data[at..at + |marker|] == marker
  }

  predicate Contains(data: seq<Byte>, marker: seq<Byte>) {
    exists at :: 0 <= at <= |data| && OccursAt(data, marker, at)
  }

  predicate RdataMarkersMatch(data: seq<Byte>) {
    && Contains(data, Ascii("HeapAlloc") + [0])
    && Contains(data, Ascii("HeapFree") + [0])
    && Contains(data, Ascii("Microsoft Visual C++ Runtime Library"))
    && Contains(data, Ascii("JanFebMarAprMayJunJulAugSepOctNovDec"))
  }

  /** How many words from `at` on carry a relocation tag. */
  function RelocWords(data: seq<Byte>, at: nat): nat
    decreases |data| - at
  {
    if at + 4 > |data| then 0
    else (if WordAt(data, at) / 0x1000_0000 == 8 then 1 else 0) + RelocWords(data, at + 4)
  }

  predicate LooksLikeReloc(data: seq<Byte>) {
    |data| >= 8 && 2 * RelocWords(data, 0) > |data| / 4
  }

  predicate EntryInside(data: seq<Byte>, at: nat)
    requires at + 8 <= |data|
  {
    var name, offset := WordAt(data, at), WordAt(data, at + 4);
    && (if name >= 0x8000_0000 then name - 0x8000_0000 < |data| else 1 <= name <= 0x1_0000)
    && offset % 0x8000_0000 < |data|
  }

  predicate LooksLikeResource(data: seq<Byte>) {
    && |data| >= 16
    && WordAt(data, 0) == 0
    && var named, byId := Number(data, 12, 2), Number(data, 14, 2);
    && named <= 16 && 1 <= byId <= 16
    && |data| >= 16 + (named + byId) * 8
    && forall i :: 0 <= i < named + byId ==> EntryInside(data, 16 + i * 8)
  }

  function Stored(buffer: seq<Byte>, section: Section): (data: seq<Byte>)
    requires section.dataAddress + section.dataSize <= |buffer|
    ensures |data| == section.dataSize
  {
    buffer[section.dataAddress..section.dataAddress + section.dataSize]
  }

  function Classify(index: nat, section: Section, data: seq<Byte>): (kind: Kind)
    ensures kind == Text <==> index == 0
    ensures kind == Rsrc ==> section.virtualSize <= 0x1_0000 && |data| >= 24
  {
    if index == 0 then Text
    else if section.virtualSize > 0x1_0000 then if RdataMarkersMatch(data) then Rdata else Data
    else if LooksLikeResource(data) then Rsrc
    else if LooksLikeReloc(data) then Reloc
    else Rdata
  }
}
