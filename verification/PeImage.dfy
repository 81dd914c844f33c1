/** Rebuilding a PE32 image from a parsed blob, and what the image's bytes say. */
module PeImage {
  import opened Bytes
  import opened Outcomes
  import opened BlobFormat
  import opened SectionKinds
  import opened PeLayout
  import PeChecksum

  function Zeros(n: nat): (s: seq<Byte>)
    ensures |s| == n
  {
    PeChecksum.Zeros(n)
  }

  // What is built

  predicate HeadersFit(blob: ParsedBlob, imports: nat)
    requires Buildable(blob)
  {
    AllFit(HeaderFields(blob, imports, |blob.sections|))
  }

  lemma RoomForHeaders(blob: ParsedBlob, imports: nat, n: nat)
    requires Buildable(blob) && n <= |blob.sections|
    ensures Laid(HeaderFields(blob, imports, n), 0, HeadersSize(|blob.sections|))
    ensures SECTION_TABLE + n * SECTION_HEADER_SIZE <= HeadersSize(|blob.sections|)
  {
    hide HeaderFields;
    HeaderLaid(blob, imports, n);
  }

  /** The headers once the first `n` section headers are packed. */
  function Headers(blob: ParsedBlob, imports: nat, n: nat): (r: seq<Byte>)
    requires Buildable(blob) && n <= |blob.sections| && AllFit(HeaderFields(blob, imports, n))
    ensures |r| == HeadersSize(|blob.sections|)
  {
    RoomForHeaders(blob, imports, n);
    Packed(Zeros(HeadersSize(|blob.sections|)), HeaderFields(blob, imports, n))
  }

  /** The stored bytes of the first `n` sections, each padded with zeros to its raw size. */
  function Body(blob: ParsedBlob, n: nat): (r: seq<Byte>)
    requires InFile(blob) && n <= |blob.sections|
    ensures |r| == FileOffset(blob.sections, n) - HeadersSize(|blob.sections|)
  {
    if n == 0 then []
    else
      var section := blob.sections[n - 1];
      Body(blob, n - 1) + Stored(blob.buffer, section) + Zeros(RawSize(section) - section.dataSize)
  }

  function ChecksumOf(data: seq<Byte>): (sum: nat)
    ensures sum < 0x1_0000_0000
  {
    (PeChecksum.OnesComplement(PeChecksum.FileSum(data)) + |data|) % 0x1_0000_0000
  }

  /** The image before its checksum is stored. */
  function Unsummed(blob: ParsedBlob, imports: nat): (r: seq<Byte>)
    requires Buildable(blob) && HeadersFit(blob, imports)
    ensures |r| == FileOffset(blob.sections, |blob.sections|)
  {
    Headers(blob, imports, |blob.sections|) + Body(blob, |blob.sections|)
  }

  function Summed(data: seq<Byte>): (r: seq<Byte>)
    requires |data| >= SECTION_TABLE
    ensures |r| == |data|
  {
    Overwritten(data, CHECKSUM_FIELD, Encode(ChecksumOf(data), 4))
  }

  function ImageOf(blob: ParsedBlob, imports: nat): (r: seq<Byte>)
    requires Buildable(blob) && HeadersFit(blob, imports)
    ensures |r| == FileOffset(blob.sections, |blob.sections|)
  {
    Summed(Unsummed(blob, imports))
  }

  // How it is built

  /** The error of a value that does not fit its field. */
  datatype PackError = PackError

  method PackAll(pe: array<Byte>, fields: seq<Field>) returns (ok: bool)
    requires Laid(fields, 0, pe.Length)
    modifies pe
    ensures ok <==> AllFit(fields)
    ensures ok ==> pe[..] == Packed(old(pe[..]), fields)
  {
    ghost var before := pe[..];
    NothingPacked(before);
    hide Packed;
    hide Overwritten;
    hide Encode;
    hide Span;
    assert fields[..0] == [];
    for i := 0 to |fields|
      invariant AllFit(fields[..i]) && Laid(fields[..i], 0, |before|)
      invariant pe[..] == Packed(before, fields[..i])
    {
      var field := fields[i];
      assert fields[..i + 1][i] == field;
      if !(0 <= field.value < Span(field.width)) {
        return false;
      }
      PackedOneMore(before, fields, i);
      Store(pe, field.offset, Encode(field.value, field.width));
    }
    assert fields[..|fields|] == fields;
    return true;
  }

  lemma NothingPacked(s: seq<Byte>)
    ensures Packed(s, []) == s
  {}

  lemma PrefixLaid(fields: seq<Field>, i: nat, size: nat)
    requires i < |fields| && AllFit(fields[..i]) && Laid(fields, 0, size) && fields[i].Fits()
    ensures AllFit(fields[..i + 1]) && Laid(fields[..i + 1], 0, size) && fields[i].End() <= size
  {}

  lemma PackedOneMore(s: seq<Byte>, fields: seq<Field>, i: nat)
    requires i < |fields| && AllFit(fields[..i]) && Laid(fields[..i], 0, |s|) && Laid(fields, 0, |s|) && fields[i].Fits()
    ensures AllFit(fields[..i + 1]) && Laid(fields[..i + 1], 0, |s|) && fields[i].End() <= |s|
    ensures Packed(s, fields[..i + 1])
         == Overwritten(Packed(s, fields[..i]), fields[i].offset, Encode(fields[i].value, fields[i].width))
  {
    PrefixLaid(fields, i, |s|);
    hide AllFit;
    hide Laid;
    hide Overwritten;
    hide Encode;
    hide Span;
    assert fields[..i + 1][..i] == fields[..i];
  }

  /** A section header fits exactly when the longer header does, and packing it extends the headers. */
  lemma HeadersStep(blob: ParsedBlob, imports: nat, n: nat)
    requires Buildable(blob) && n < |blob.sections| && AllFit(HeaderFields(blob, imports, n))
    ensures Laid(SectionFields(blob, n), 0, HeadersSize(|blob.sections|))
    ensures AllFit(HeaderFields(blob, imports, n + 1)) <==> AllFit(SectionFields(blob, n))
    ensures AllFit(HeaderFields(blob, imports, n + 1)) ==>
      Headers(blob, imports, n + 1) == Packed(Headers(blob, imports, n), SectionFields(blob, n))
  {
    hide SectionFields;
    hide FixedFields;
    hide HeadersSize;
    RoomForHeaders(blob, imports, n);
    RoomForHeaders(blob, imports, n + 1);
    SectionLaid(blob, n);
    FitConcat(HeaderFields(blob, imports, n), SectionFields(blob, n));
    if AllFit(SectionFields(blob, n)) {
      hide AllFit;
      LaidWider(SectionFields(blob, n), SECTION_TABLE + n * SECTION_HEADER_SIZE,
                SECTION_TABLE + (n + 1) * SECTION_HEADER_SIZE, HeadersSize(|blob.sections|));
      hide Laid;
      PackedConcat(Zeros(HeadersSize(|blob.sections|)), HeaderFields(blob, imports, n), SectionFields(blob, n));
    }
  }

  lemma LaidWider(fields: seq<Field>, from: nat, to: nat, size: nat)
    requires Laid(fields, from, to) && to <= size
    ensures Laid(fields, 0, size)
  {}

  lemma {:induction false} ShorterFit(blob: ParsedBlob, imports: nat, n: nat, m: nat)
    requires Buildable(blob) && n <= m <= |blob.sections| && AllFit(HeaderFields(blob, imports, m))
    ensures AllFit(HeaderFields(blob, imports, n))
    decreases m
  {
    hide AllFit;
    hide SectionFields;
    hide FixedFields;
    if n < m {
      FitConcat(HeaderFields(blob, imports, m - 1), SectionFields(blob, m - 1));
      ShorterFit(blob, imports, n, m - 1);
    }
  }

  lemma NeverFits(blob: ParsedBlob, imports: nat, n: nat)
    requires Buildable(blob) && n <= |blob.sections| && !AllFit(HeaderFields(blob, imports, n))
    ensures !HeadersFit(blob, imports)
  {
    hide AllFit;
    if HeadersFit(blob, imports) {
      ShorterFit(blob, imports, n, |blob.sections|);
    }
  }

  method BuildHeaders(blob: ParsedBlob, imports: nat) returns (r: Result<seq<Byte>, PackError>)
    requires Buildable(blob)
    ensures r.Ok? <==> HeadersFit(blob, imports)
    ensures r.Ok? ==> r.value == Headers(blob, imports, |blob.sections|)
  {
    hide FixedFields;
    hide SectionFields;
    hide AllFit;
    hide Laid;
    hide HeadersSize;
    var n := |blob.sections|;
    RoomForHeaders(blob, imports, 0);
    var pe := Copy(Zeros(HeadersSize(n)));
    assert HeaderFields(blob, imports, 0) == FixedFields(blob, imports);
    var ok := PackAll(pe, FixedFields(blob, imports));
    if !ok {
      NeverFits(blob, imports, 0);
      return Err(PackError);
    }
    for i := 0 to n
      invariant fresh(pe) && pe.Length == HeadersSize(n)
      invariant AllFit(HeaderFields(blob, imports, i))
      invariant pe[..] == Headers(blob, imports, i)
    {
      HeadersStep(blob, imports, i);
      ok := PackAll(pe, SectionFields(blob, i));
      if !ok {
        NeverFits(blob, imports, i + 1);
        return Err(PackError);
      }
    }
    return Ok(pe[..]);
  }

  /** Storing a section's bytes over the zeros that follow the sections before it. */
  lemma BodyStep(blob: ParsedBlob, headers: seq<Byte>, n: nat, rest: nat)
    requires InFile(blob) && n < |blob.sections| && |headers| == HeadersSize(|blob.sections|)
    requires rest >= RawSize(blob.sections[n])
    ensures Overwritten(headers + Body(blob, n) + Zeros(rest), FileOffset(blob.sections, n), Stored(blob.buffer, blob.sections[n]))
         == headers + Body(blob, n + 1) + Zeros(rest - RawSize(blob.sections[n]))
  {
    hide HeadersSize;
    hide RawSize;
    var data := Stored(blob.buffer, blob.sections[n]);
    var pad := RawSize(blob.sections[n]) - |data|;
    assert RawSize(blob.sections[n]) >= |data| by { RawCovers(blob.sections[n]); }
    OverZeros(headers + Body(blob, n), data, pad, rest);
    assert headers + (Body(blob, n) + data + Zeros(pad)) == headers + Body(blob, n) + data + Zeros(pad);
  }

  lemma RawCovers(section: Section)
    ensures RawSize(section) >= section.dataSize
  {}

  lemma OverZeros(front: seq<Byte>, data: seq<Byte>, pad: nat, rest: nat)
    requires |data| + pad <= rest
    ensures Overwritten(front + Zeros(rest), |front|, data) == front + data + Zeros(pad) + Zeros(rest - |data| - pad)
  {}

  lemma {:induction false} OffsetsGrow(sections: seq<Section>, i: nat, j: nat)
    requires i <= j <= |sections|
    ensures FileOffset(sections, i) <= FileOffset(sections, j)
    ensures i < j ==> FileOffset(sections, i) + RawSize(sections[i]) <= FileOffset(sections, j)
    decreases j
  {
    if i < j {
      OffsetsGrow(sections, i, j - 1);
    }
  }

  lemma StartBody(blob: ParsedBlob, headers: seq<Byte>)
    requires InFile(blob)
    ensures FileOffset(blob.sections, 0) == HeadersSize(|blob.sections|)
    ensures headers + Body(blob, 0) == headers
  {
    hide HeadersSize;
  }

  /** The full headers and body, with the checksum stored, are the image. */
  lemma Assembled(blob: ParsedBlob, imports: nat, image: seq<Byte>)
    requires Buildable(blob) && HeadersFit(blob, imports)
    requires image == Headers(blob, imports, |blob.sections|) + Body(blob, |blob.sections|) + Zeros(0)
    ensures |image| >= SECTION_TABLE
    ensures Overwritten(image, CHECKSUM_FIELD, Encode(ChecksumOf(image), 4)) == ImageOf(blob, imports)
  {
    hide HeadersSize;
    hide Headers;
    hide Body;
    hide Overwritten;
    hide ChecksumOf;
    RoomForHeaders(blob, imports, |blob.sections|);
    assert image == Unsummed(blob, imports);
  }

  method BuildPe(blob: ParsedBlob, imports: nat) returns (r: Result<seq<Byte>, PackError>)
    requires Buildable(blob)
    ensures r.Ok? <==> HeadersFit(blob, imports)
    ensures r.Ok? ==> r.value == ImageOf(blob, imports)
  {
    hide HeadersFit;
    hide Headers;
    hide Body;
    hide HeadersSize;
    hide RawSize;
    hide Overwritten;
    hide Encode;
    hide ImageOf;
    hide ImageEnd;
    hide PeChecksum.FileSum;
    hide PeChecksum.OnesComplement;
    var headers := BuildHeaders(blob, imports);
    if headers.Err? {
      return Err(PackError);
    }
    var n := |blob.sections|;
    var total := FileOffset(blob.sections, n);
    var out := Copy(headers.value + Zeros(total - |headers.value|));
    var fileOff := |headers.value|;
    StartBody(blob, headers.value);
    for i := 0 to n
      invariant fresh(out) && out.Length == total
      invariant fileOff == FileOffset(blob.sections, i) <= total
      invariant out[..] == headers.value + Body(blob, i) + Zeros(total - fileOff)
    {
      OffsetsGrow(blob.sections, i, n);
      RawCovers(blob.sections[i]);
      BodyStep(blob, headers.value, i, total - fileOff);
      Store(out, fileOff, Stored(blob.buffer, blob.sections[i]));
      fileOff := fileOff + RawSize(blob.sections[i]);
    }
    Assembled(blob, imports, out[..]);
    var sum := PeChecksum.Checksum(out[..]);
    Store(out, CHECKSUM_FIELD, Encode(sum, 4));
    return Ok(out[..]);
  }
}
