/** Exactly when every header value fits its field, so that packing raises no error. */
module PeCapacity {
  import opened Bytes
  import opened BlobFormat
  import opened SectionKinds
  import opened PeLayout
  import opened PeImage
  import PeReading
  import PeVerify

  const LIMIT: nat := 0x1_0000_0000

  /** The image, the data sections and the last section's place in the file stay below 4 GiB. */
  ghost predicate WithinLimits(blob: ParsedBlob)
    requires Buildable(blob) && blob.sections != []
  {
    var n := |blob.sections|;
    ImageSize(blob) < LIMIT && KindTotal(blob, false, n) < LIMIT && FileOffset(blob.sections, n - 1) < LIMIT
  }

  lemma {:induction false} BaseBound(blob: ParsedBlob, skipFirst: bool, i: nat)
    requires i <= |blob.sections|
    ensures 0 <= BaseOf(blob, skipFirst, i) < LIMIT
    decreases |blob.sections| - i
  {
    if i < |blob.sections| {
      BaseBound(blob, skipFirst, i + 1);
    }
  }

  lemma {:induction false} KindTotalHolds(blob: ParsedBlob, code: bool, i: nat, n: nat)
    requires InFile(blob) && i < n <= |blob.sections| && KindOf(blob, i).Text? == code
    ensures RawSize(blob.sections[i]) <= KindTotal(blob, code, n)
  {
    hide RawSize;
    if i < n - 1 {
      KindTotalHolds(blob, code, i, n - 1);
    }
  }

  /** Only section 0 counts as code. */
  lemma {:induction false} CodeIsFirst(blob: ParsedBlob, n: nat)
    requires InFile(blob) && 1 <= n <= |blob.sections|
    ensures KindTotal(blob, true, n) == RawSize(blob.sections[0])
  {
    hide RawSize;
    if n > 1 {
      CodeIsFirst(blob, n - 1);
      assert KindTotal(blob, true, n) == KindTotal(blob, true, n - 1);
    } else {
      assert KindTotal(blob, true, 0) == 0;
    }
  }

  lemma AtLeastTwo(blob: ParsedBlob)
    requires Parsed(blob)
    ensures |blob.sections| >= 2
  {}

  lemma OffsetFits(blob: ParsedBlob, i: nat)
    requires Buildable(blob) && i < |blob.sections| && WithinLimits(blob)
    ensures FileOffset(blob.sections, i) < LIMIT
  {
    hide ImageSize;
    hide ImageEnd;
    hide KindTotal;
    hide FileOffset;
    OffsetsGrow(blob.sections, i, |blob.sections| - 1);
  }

  lemma RawFits(blob: ParsedBlob, i: nat)
    requires Buildable(blob) && |blob.sections| >= 2 && WithinLimits(blob) && i < |blob.sections|
    ensures RawSize(blob.sections[i]) < LIMIT
  {
    hide RawSize;
    hide ImageSize;
    hide ImageEnd;
    hide KindTotal;
    hide FileOffset;
    if i == 0 {
      FirstRaw(blob.sections);
      OffsetsGrow(blob.sections, 1, |blob.sections| - 1);
    } else {
      KindTotalHolds(blob, false, i, |blob.sections|);
    }
  }

  lemma FirstRaw(sections: seq<Section>)
    requires |sections| > 1
    ensures RawSize(sections[0]) <= FileOffset(sections, 1)
  {
    hide RawSize;
    assert FileOffset(sections, 1) == FileOffset(sections, 0) + RawSize(sections[0]);
  }

  lemma ConstantsFit(count: nat)
    requires count < 0x1_0000
    ensures AllFit(DosFields()) && AllFit(CoffFields(count)) && AllFit(VersionFields())
  {
    Spans();
  }

  lemma StandardFit(blob: ParsedBlob)
    requires Parsed(blob) && Buildable(blob) && WithinLimits(blob)
    ensures AllFit(StandardFields(blob))
  {
    Spans();
    BaseBound(blob, false, 0);
    BaseBound(blob, true, 0);
    CodeIsFirst(blob, |blob.sections|);
    AtLeastTwo(blob);
    RawFits(blob, 0);
    hide KindTotal;
    hide BaseOf;
    hide RawSize;
    hide FileOffset;
    hide ImageSize;
    hide ImageEnd;
    hide FaultOf;
  }

  lemma SizesFit(blob: ParsedBlob)
    requires Parsed(blob) && Buildable(blob) && ImageSize(blob) < LIMIT
    ensures AllFit(SizeFields(blob))
  {
    Spans();
    hide ImageSize;
    hide FaultOf;
    hide ImageEnd;
  }

  lemma DirectoriesFit(blob: ParsedBlob, imports: nat)
    requires Parsed(blob) && Buildable(blob) && WithinLimits(blob) && imports <= 1024
    ensures AllFit(DirectoryFields(blob, imports))
  {
    Spans();
    var found := ResourceFrom(blob, 0);
    if found.Some? {
      AtLeastTwo(blob);
      RawFits(blob, found.value);
      PeVerify.AddressAligned(blob, found.value);
    }
    hide RawSize;
    hide FileOffset;
    hide ImageSize;
    hide ImageEnd;
    hide FaultOf;
    hide ResourceFrom;
  }

  lemma SectionFits(blob: ParsedBlob, i: nat)
    requires Parsed(blob) && Buildable(blob) && WithinLimits(blob) && i < |blob.sections|
    ensures AllFit(SectionFields(blob, i))
  {
    Spans();
    AtLeastTwo(blob);
    RawFits(blob, i);
    OffsetFits(blob, i);
    PeVerify.AddressAligned(blob, i);
    DecodeBound(Name(KindOf(blob, i)));
    hide Parsed;
    hide WithinLimits;
    hide RawSize;
    hide FileOffset;
    hide KindOf;
    hide Name;
    hide Decode;
  }

  lemma FixedFit(blob: ParsedBlob, imports: nat)
    requires Parsed(blob) && Buildable(blob) && WithinLimits(blob) && imports <= 1024
    ensures AllFit(FixedFields(blob, imports))
  {
    ConstantsFit(|blob.sections|);
    StandardFit(blob);
    SizesFit(blob);
    DirectoriesFit(blob, imports);
    hide AllFit;
    hide DosFields;
    hide CoffFields;
    hide StandardFields;
    hide VersionFields;
    hide SizeFields;
    hide DirectoryFields;
    var a := DosFields() + CoffFields(|blob.sections|);
    FitConcat(DosFields(), CoffFields(|blob.sections|));
    FitConcat(a, StandardFields(blob));
    FitConcat(a + StandardFields(blob), VersionFields());
    FitConcat(a + StandardFields(blob) + VersionFields(), SizeFields(blob));
    FitConcat(a + StandardFields(blob) + VersionFields() + SizeFields(blob), DirectoryFields(blob, imports));
  }

  lemma {:induction false} AllHeadersFit(blob: ParsedBlob, imports: nat, n: nat)
    requires Parsed(blob) && Buildable(blob) && WithinLimits(blob) && imports <= 1024 && n <= |blob.sections|
    ensures AllFit(HeaderFields(blob, imports, n))
  {
    hide AllFit;
    hide WithinLimits;
    hide SectionFields;
    hide FixedFields;
    if n == 0 {
      FixedFit(blob, imports);
    } else {
      AllHeadersFit(blob, imports, n - 1);
      SectionFits(blob, n - 1);
      FitConcat(HeaderFields(blob, imports, n - 1), SectionFields(blob, n - 1));
    }
  }

  lemma MemberFits(fields: seq<Field>, f: Field)
    requires AllFit(fields) && f in fields && f.width == 4
    ensures f.value < LIMIT
  {
    Spans();
  }

  lemma LimitsAreFields(blob: ParsedBlob, imports: nat)
    requires Buildable(blob) && blob.sections != []
    ensures
      var n := |blob.sections|;
      && Field(0xD0, 4, ImageSize(blob)) in HeaderFields(blob, imports, n)
      && Field(0xA0, 4, KindTotal(blob, false, n)) in HeaderFields(blob, imports, n)
  {
    hide DosFields;
    hide CoffFields;
    hide VersionFields;
    hide DirectoryFields;
    hide ImageSize;
    hide HeadersSize;
    hide KindTotal;
    hide BaseOf;
    hide HeaderFields;
    var n := |blob.sections|;
    var standard, sizes := StandardFields(blob), SizeFields(blob);
    assert standard[4] in standard && sizes[0] in sizes;
    PeReading.FixedRemain(blob, imports, standard[4], n);
    PeReading.FixedRemain(blob, imports, sizes[0], n);
  }

  lemma LastOffsetIsField(blob: ParsedBlob, imports: nat)
    requires Buildable(blob) && blob.sections != []
    ensures
      var n := |blob.sections|;
      Field(SECTION_TABLE + (n - 1) * SECTION_HEADER_SIZE + 20, 4,
        FileOffset(blob.sections, n - 1)) in HeaderFields(blob, imports, n)
  {
    hide HeaderFields;
    hide KindOf;
    hide Flags;
    hide Name;
    hide Decode;
    hide FileOffset;
    hide RawSize;
    var n := |blob.sections|;
    var fields := SectionFields(blob, n - 1);
    assert fields[4] in fields;
    PeReading.SectionRemains(blob, imports, n - 1, fields[4], n);
  }

  lemma FittingIsWithin(blob: ParsedBlob, imports: nat)
    requires Buildable(blob) && blob.sections != [] && HeadersFit(blob, imports)
    ensures WithinLimits(blob)
  {
    hide HeaderFields;
    hide AllFit;
    hide ImageSize;
    hide ImageEnd;
    hide KindTotal;
    hide FileOffset;
    var n := |blob.sections|;
    var fields := HeaderFields(blob, imports, n);
    LimitsAreFields(blob, imports);
    LastOffsetIsField(blob, imports);
    MemberFits(fields, Field(0xD0, 4, ImageSize(blob)));
    MemberFits(fields, Field(0xA0, 4, KindTotal(blob, false, n)));
    MemberFits(fields, Field(SECTION_TABLE + (n - 1) * SECTION_HEADER_SIZE + 20, 4, FileOffset(blob.sections, n - 1)));
  }

  /** For a parsed blob, building raises no packing error exactly within these limits. */
  lemma BuildsExactlyWithinLimits(blob: ParsedBlob, imports: nat)
    requires Parsed(blob) && Buildable(blob) && imports <= 1024
    ensures blob.sections != []
    ensures HeadersFit(blob, imports) <==> WithinLimits(blob)
  {
    AtLeastTwo(blob);
    hide Parsed;
    hide Buildable;
    hide HeaderFields;
    hide AllFit;
    hide WithinLimits;
    if WithinLimits(blob) {
      AllHeadersFit(blob, imports, |blob.sections|);
    }
    if HeadersFit(blob, imports) {
      FittingIsWithin(blob, imports);
    }
  }
}
