/** The maker's side of the blob format, and the round trip through the parser. */
module BlobMaking {
  import opened Bytes
  import opened Outcomes
  import opened BlobFormat
  import StreamCipher

  function Word32(w: Word): (bytes: seq<Byte>)
    ensures |bytes| == 4
  {
    Encode(w, 4)
  }

  /** The 24 header bytes with the obfuscated addresses. */
  function HeaderBytes(h: Header): (bytes: seq<Byte>)
    ensures |bytes| == BLOB_HEADER_SIZE
  {
    Word32(h.checkSum) + Encode(h.sectionCount, 2) + [0, 0]
    + Word32(Unmask(h.exportPoint, EXPORT_OBFUSCATION)) + Word32(Unmask(h.imageBase, IMAGEBASE_OBFUSCATION))
    + Word32((h.entryPoint + ENTRY_DELTA) % 0x1_0000_0000) + Word32(Unmask(h.importTable, IMPORT_OBFUSCATION))
  }

  predicate SectionStorable(s: Section) {
    -0x8000_0000 <= s.special < 0x8000_0000
  }

  predicate AllStorable(sections: seq<Section>) {
    forall i :: 0 <= i < |sections| ==> SectionStorable(sections[i])
  }

  function SectionBytes(s: Section): (bytes: seq<Byte>)
    requires SectionStorable(s)
    ensures |bytes| == BLOB_SECTION_SIZE
  {
    Word32(s.virtualAddress) + Word32(s.virtualSize) + Word32(s.dataSize) + Word32(s.dataAddress)
    + Word32(s.special % 0x1_0000_0000)
  }

  function TableBytes(sections: seq<Section>): (bytes: seq<Byte>)
    requires AllStorable(sections)
    ensures |bytes| == |sections| * BLOB_SECTION_SIZE
  {
    if sections == [] then [] else TableBytes(sections[..|sections| - 1]) + SectionBytes(sections[|sections| - 1])
  }

  /** A plain blob: any leading bytes, 64 bytes of description, the marker, the header, the section table, the payload. */
  datatype Plain = Plain(lead: seq<Byte>, description: seq<Byte>, header: Header, sections: seq<Section>, payload: seq<Byte>) {
    predicate Valid() {
      && |description| == BLOB_INFO_SIZE - 4
      && header.sectionCount < 0x1_0000
      && |sections| == header.sectionCount + 1
      && AllStorable(sections)
    }

    function Front(): seq<Byte> {
      lead + description + MARKER
    }

    function Contents(): seq<Byte>
      requires Valid()
    {
      Front() + HeaderBytes(header) + TableBytes(sections) + payload
    }

    /** No marker ends before the real one does. */
    predicate MarkerIsFirst() {
      forall at: nat :: at < |lead| + |description| ==> !MarkerAt(Front(), at)
    }
  }

  /** The file that the maker writes. */
  function FileOf(p: Plain): seq<Byte>
    requires p.Valid()
  {
    StreamCipher.Encrypted(p.Contents(), |p.lead| + BLOB_INFO_SIZE)
  }

  // Reading pieces back

  /** `piece` sits at `at`. */
  predicate SitsAt(buf: seq<Byte>, at: nat, piece: seq<Byte>) {
    at + |piece| <= |buf| && buf[at..at + |piece|] == piece
  }

  lemma Sits(a: seq<Byte>, piece: seq<Byte>, b: seq<Byte>)
    ensures SitsAt(a + piece + b, |a|, piece)
  {}

  /** A piece of a piece sits where it should. */
  lemma SitsInside(buf: seq<Byte>, at: nat, whole: seq<Byte>, from: nat, piece: seq<Byte>)
    requires SitsAt(buf, at, whole) && SitsAt(whole, from, piece)
    ensures SitsAt(buf, at + from, piece)
  {
    forall k | 0 <= k < |piece|
      ensures buf[at + from + k] == piece[k]
    {
      assert whole[from + k] == whole[from..from + |piece|][k];
      assert buf[at..at + |whole|][from + k] == buf[at + from + k];
    }
  }

  lemma WordRead(buf: seq<Byte>, at: nat, w: Word)
    requires SitsAt(buf, at, Word32(w))
    ensures at + 4 <= |buf| && WordAt(buf, at) == w
  {
    Spans();
    DecodeEncode(w, 4);
  }

  lemma UnmaskTwice(w: Word, mask: Word)
    ensures Unmask(Unmask(w, mask), mask) == w
  {
    Powers();
    hide Power2;
    XorBitsTwice(w, mask, 32);
  }

  lemma EntryRestored(entry: Word)
    ensures ((entry + ENTRY_DELTA) % 0x1_0000_0000 - ENTRY_DELTA) % 0x1_0000_0000 == entry
  {}

  lemma SignRestored(special: int)
    requires -0x8000_0000 <= special < 0x8000_0000
    ensures Signed(special % 0x1_0000_0000) == special
  {}

  lemma HeaderPieces(h: Header)
    ensures
      var bytes := HeaderBytes(h);
      && SitsAt(bytes, 0, Word32(h.checkSum)) && SitsAt(bytes, 4, Encode(h.sectionCount, 2))
      && SitsAt(bytes, 8, Word32(Unmask(h.exportPoint, EXPORT_OBFUSCATION)))
      && SitsAt(bytes, 12, Word32(Unmask(h.imageBase, IMAGEBASE_OBFUSCATION)))
      && SitsAt(bytes, 16, Word32((h.entryPoint + ENTRY_DELTA) % 0x1_0000_0000))
      && SitsAt(bytes, 20, Word32(Unmask(h.importTable, IMPORT_OBFUSCATION)))
  {
    hide Unmask;
    hide Encode;
    hide Word32;
  }

  /** The parser undoes the obfuscation of the header. */
  lemma HeaderRead(buf: seq<Byte>, at: nat, h: Header)
    requires h.sectionCount < 0x1_0000 && SitsAt(buf, at, HeaderBytes(h))
    ensures at + BLOB_HEADER_SIZE <= |buf| && DecodeHeader(buf, at) == h
  {
    HeaderPieces(h);
    var bytes := HeaderBytes(h);
    hide HeaderBytes;
    hide SitsAt;
    hide Unmask;
    hide Word32;
    hide Encode;
    hide WordAt;
    assert at + BLOB_HEADER_SIZE <= |buf| by { SitsEnds(buf, at, bytes); }
    SitsInside(buf, at, bytes, 0, Word32(h.checkSum));
    SitsInside(buf, at, bytes, 4, Encode(h.sectionCount, 2));
    SitsInside(buf, at, bytes, 8, Word32(Unmask(h.exportPoint, EXPORT_OBFUSCATION)));
    SitsInside(buf, at, bytes, 12, Word32(Unmask(h.imageBase, IMAGEBASE_OBFUSCATION)));
    SitsInside(buf, at, bytes, 16, Word32((h.entryPoint + ENTRY_DELTA) % 0x1_0000_0000));
    SitsInside(buf, at, bytes, 20, Word32(Unmask(h.importTable, IMPORT_OBFUSCATION)));
    CountRead(buf, at + 4, h.sectionCount);
    hide Number;
    WordRead(buf, at, h.checkSum);
    WordRead(buf, at + 8, Unmask(h.exportPoint, EXPORT_OBFUSCATION));
    WordRead(buf, at + 12, Unmask(h.imageBase, IMAGEBASE_OBFUSCATION));
    WordRead(buf, at + 16, (h.entryPoint + ENTRY_DELTA) % 0x1_0000_0000);
    WordRead(buf, at + 20, Unmask(h.importTable, IMPORT_OBFUSCATION));
    UnmaskTwice(h.exportPoint, EXPORT_OBFUSCATION);
    UnmaskTwice(h.imageBase, IMAGEBASE_OBFUSCATION);
    UnmaskTwice(h.importTable, IMPORT_OBFUSCATION);
    EntryRestored(h.entryPoint);
  }

  lemma SitsEnds(buf: seq<Byte>, at: nat, piece: seq<Byte>)
    requires SitsAt(buf, at, piece)
    ensures at + |piece| <= |buf|
  {}

  lemma CountRead(buf: seq<Byte>, at: nat, count: nat)
    requires count < 0x1_0000 && SitsAt(buf, at, Encode(count, 2))
    ensures at + 2 <= |buf| && Number(buf, at, 2) == count
  {
    Spans();
    DecodeEncode(count, 2);
  }

  lemma SectionPieces(s: Section)
    requires SectionStorable(s)
    ensures
      var bytes := SectionBytes(s);
      && SitsAt(bytes, 0, Word32(s.virtualAddress)) && SitsAt(bytes, 4, Word32(s.virtualSize))
      && SitsAt(bytes, 8, Word32(s.dataSize)) && SitsAt(bytes, 12, Word32(s.dataAddress))
      && SitsAt(bytes, 16, Word32(s.special % 0x1_0000_0000))
  {
    hide Word32;
  }

  lemma SectionRead(buf: seq<Byte>, at: nat, s: Section)
    requires SectionStorable(s) && SitsAt(buf, at, SectionBytes(s))
    ensures at + BLOB_SECTION_SIZE <= |buf| && DecodeSection(buf, at) == s
  {
    SectionPieces(s);
    var bytes := SectionBytes(s);
    SitsEnds(buf, at, bytes);
    hide SectionBytes;
    hide SitsAt;
    hide Word32;
    hide WordAt;
    SitsInside(buf, at, bytes, 0, Word32(s.virtualAddress));
    SitsInside(buf, at, bytes, 4, Word32(s.virtualSize));
    SitsInside(buf, at, bytes, 8, Word32(s.dataSize));
    SitsInside(buf, at, bytes, 12, Word32(s.dataAddress));
    SitsInside(buf, at, bytes, 16, Word32(s.special % 0x1_0000_0000));
    WordRead(buf, at, s.virtualAddress);
    WordRead(buf, at + 4, s.virtualSize);
    WordRead(buf, at + 8, s.dataSize);
    WordRead(buf, at + 12, s.dataAddress);
    WordRead(buf, at + 16, s.special % 0x1_0000_0000);
    SignRestored(s.special);
  }

  lemma TableGrows(sections: seq<Section>)
    requires AllStorable(sections) && sections != []
    ensures var n := |sections| - 1;
            TableBytes(sections) == TableBytes(sections[..n]) + SectionBytes(sections[n])
  {
    hide SectionBytes;
  }

  /** A piece of the front of a table, or its end. */
  lemma FrontPiece(front: seq<Byte>, last: seq<Byte>, at: nat, piece: seq<Byte>)
    ensures SitsAt(front, at, piece) ==> SitsAt(front + last, at, piece)
    ensures SitsAt(front + last, |front|, last)
  {
    Sits(front, last, []);
    assert front + last + [] == front + last;
    if SitsAt(front, at, piece) {
      assert (front + last)[at..at + |piece|] == front[at..at + |piece|];
    }
  }

  lemma {:induction false} TablePieces(sections: seq<Section>, j: nat)
    requires AllStorable(sections) && j < |sections|
    ensures SitsAt(TableBytes(sections), j * BLOB_SECTION_SIZE, SectionBytes(sections[j]))
  {
    hide SectionBytes;
    hide TableBytes;
    hide SitsAt;
    var n := |sections| - 1;
    TableGrows(sections);
    FrontPiece(TableBytes(sections[..n]), SectionBytes(sections[n]), j * BLOB_SECTION_SIZE, SectionBytes(sections[j]));
    if j < n {
      TablePieces(sections[..n], j);
    }
  }

  lemma SectionAt(buf: seq<Byte>, at: nat, sections: seq<Section>, j: nat)
    requires AllStorable(sections) && j < |sections| && SitsAt(buf, at, TableBytes(sections))
    ensures at + j * BLOB_SECTION_SIZE + BLOB_SECTION_SIZE <= |buf|
    ensures DecodeSection(buf, at + j * BLOB_SECTION_SIZE) == sections[j]
  {
    hide TableBytes;
    hide SectionBytes;
    hide SitsAt;
    hide DecodeSection;
    TablePieces(sections, j);
    PieceRead(buf, at, TableBytes(sections), j * BLOB_SECTION_SIZE, sections[j]);
  }

  lemma PieceRead(buf: seq<Byte>, at: nat, table: seq<Byte>, offset: nat, s: Section)
    requires SectionStorable(s) && SitsAt(buf, at, table) && SitsAt(table, offset, SectionBytes(s))
    ensures at + offset + BLOB_SECTION_SIZE <= |buf| && DecodeSection(buf, at + offset) == s
  {
    hide SitsAt;
    hide SectionBytes;
    hide SectionStorable;
    hide DecodeSection;
    SitsInside(buf, at, table, offset, SectionBytes(s));
    SectionRead(buf, at + offset, s);
  }

  lemma DecodedAt(buf: seq<Byte>, at: nat, count: nat, j: nat)
    requires at + count * BLOB_SECTION_SIZE <= |buf| && j < count
    ensures at + j * BLOB_SECTION_SIZE + BLOB_SECTION_SIZE <= |buf|
    ensures DecodeSections(buf, at, count)[j] == DecodeSection(buf, at + j * BLOB_SECTION_SIZE)
  {
    hide DecodeSection;
  }

  lemma TableRead(buf: seq<Byte>, at: nat, sections: seq<Section>)
    requires AllStorable(sections) && SitsAt(buf, at, TableBytes(sections))
    ensures at + |sections| * BLOB_SECTION_SIZE <= |buf|
    ensures DecodeSections(buf, at, |sections|) == sections
  {
    SitsEnds(buf, at, TableBytes(sections));
    hide AllStorable;
    hide TableBytes;
    hide SitsAt;
    hide DecodeSections;
    hide DecodeSection;
    forall j | 0 <= j < |sections|
      ensures DecodeSections(buf, at, |sections|)[j] == sections[j]
    {
      SectionAt(buf, at, sections, j);
      DecodedAt(buf, at, |sections|, j);
    }
  }

  // The whole file

  lemma FirstMarker(data: seq<Byte>, at: nat)
    requires MarkerAt(data, at) && forall k: nat :: k < at ==> !MarkerAt(data, k)
    ensures FindMarker(data, 0) == Some(at)
  {
    hide MarkerAt;
    var hit := FindMarker(data, 0);
  }

  lemma FrontMarker(p: Plain)
    requires p.Valid()
    ensures |p.Front()| == |p.lead| + BLOB_INFO_SIZE && MarkerAt(p.Front(), |p.lead| + BLOB_INFO_SIZE - 4)
  {
    var start := |p.lead| + BLOB_INFO_SIZE;
    assert p.Front()[start - 4..start] == MARKER;
  }

  /** The first marker of the file is the one that ends the description. */
  lemma MarkerFound(p: Plain)
    requires p.Valid() && p.MarkerIsFirst()
    ensures FindBlobInfoOffset(FileOf(p)) == Some(|p.lead|)
  {
    hide FileOf;
    hide MarkerAt;
    hide FindMarker;
    FrontUnchanged(p);
    FrontMarker(p);
    hide Plain.Front;
    SameMarkers(FileOf(p), p.Front());
    FirstMarker(FileOf(p), |p.lead| + BLOB_INFO_SIZE - 4);
  }

  lemma FrontUnchanged(p: Plain)
    requires p.Valid()
    ensures |FileOf(p)| >= |p.Front()| == |p.lead| + BLOB_INFO_SIZE
    ensures FileOf(p)[..|p.Front()|] == p.Front()
  {
    var plain, start := p.Contents(), |p.lead| + BLOB_INFO_SIZE;
    EncryptedFront(plain, start);
    hide HeaderBytes;
    hide TableBytes;
    assert plain[..start] == p.Front();
  }

  lemma {:induction false} EncryptedFront(plain: seq<Byte>, start: nat)
    requires start <= |plain|
    ensures StreamCipher.Encrypted(plain, start)[..start] == plain[..start]
  {
    if |plain| > start {
      EncryptedFront(plain[..|plain| - 1], start);
    }
  }

  lemma SameMarkers(file: seq<Byte>, front: seq<Byte>)
    requires |file| >= |front| && file[..|front|] == front
    ensures forall at: nat :: at + 4 <= |front| ==> (MarkerAt(file, at) <==> MarkerAt(front, at))
  {
    forall at: nat | at + 4 <= |front|
      ensures MarkerAt(file, at) <==> MarkerAt(front, at)
    {
      assert file[..|front|][at..at + 4] == file[at..at + 4];
    }
  }

  lemma ContentsPieces(p: Plain)
    requires p.Valid()
    ensures
      var at := |p.lead| + BLOB_INFO_SIZE;
      && SitsAt(p.Contents(), at, HeaderBytes(p.header))
      && SitsAt(p.Contents(), at + BLOB_HEADER_SIZE, TableBytes(p.sections))
  {
    hide HeaderBytes;
    hide TableBytes;
    var front, header, table := p.Front(), HeaderBytes(p.header), TableBytes(p.sections);
    Sits(front, header, table + p.payload);
    assert front + header + (table + p.payload) == p.Contents();
    Sits(front + header, table, p.payload);
  }

  /** The parser finds the blob and decodes exactly the header, the sections and the plain contents. */
  lemma DecodedBack(p: Plain)
    requires p.Valid() && p.MarkerIsFirst()
    ensures |FileOf(p)| == |p.Contents()|
    ensures ReadAs(FileOf(p), ParsedBlob(p.header, p.sections, p.Contents(), |p.lead|))
  {
    MarkerFound(p);
    StreamCipher.DecryptEncrypted(p.Contents(), |p.lead| + BLOB_INFO_SIZE);
    ContentsPieces(p);
    hide Plain.Contents;
    hide FindBlobInfoOffset;
    hide DecodeHeader;
    hide DecodeSections;
    hide StreamCipher.Encrypted;
    hide StreamCipher.Decrypted;
    HeaderRead(p.Contents(), |p.lead| + BLOB_INFO_SIZE, p.header);
    TableRead(p.Contents(), |p.lead| + BLOB_INFO_SIZE + BLOB_HEADER_SIZE, p.sections);
  }

  /** Round trip: the parser's answer to the file of a plain blob is that blob if it is acceptable, and otherwise the
      first condition that the plain blob fails. */
  lemma ParsedBack(p: Plain, r: Result<ParsedBlob, BlobError>)
    requires p.Valid() && p.MarkerIsFirst()
    ensures Answer(FileOf(p), r)
       <==> if Acceptable(p.header, p.sections, |p.Contents()|)
            then r == Ok(ParsedBlob(p.header, p.sections, p.Contents(), |p.lead|))
            else r.Err? && Explains(p.header, p.sections, |p.Contents()|, r.error)
  {
    hide Plain.Contents;
    hide FileOf;
    hide FindBlobInfoOffset;
    hide Acceptable;
    hide Explains;
    hide DecodeHeader;
    hide DecodeSections;
    hide StreamCipher.Decrypted;
    DecodedBack(p);
  }
}
