/** What the two heuristics for small sections look for, in bytes. */
module SectionShapes {
  import opened Bytes
  import opened BlobFormat
  import opened SectionKinds
  import opened BlobBytes

  /** The double words whose top four bits are 1000, as those of relocation tables are taken to be. */
  function Tagged(data: seq<Byte>, from: nat): set<nat> {
    set k: nat | from <= k < |data| / 4 && HasTag(data, k)
  }

  predicate HasTag(data: seq<Byte>, k: nat) {
    k < |data| / 4 && 0x80 <= data[4 * k + 3] < 0x90
  }

  lemma TagExactly(data: seq<Byte>, k: nat)
    requires k < |data| / 4
    ensures WordAt(data, 4 * k) / 0x1000_0000 == 8 <==> HasTag(data, k)
  {
    LongNumber(data, 4 * k);
    hide Number;
  }

  lemma {:induction false} TagsCounted(data: seq<Byte>, k: nat)
    requires k <= |data| / 4
    ensures RelocWords(data, 4 * k) == |Tagged(data, k)|
    decreases |data| / 4 - k
  {
    if k == |data| / 4 {
      assert Tagged(data, k) == {};
    } else {
      TagsCounted(data, k + 1);
      TagExactly(data, k);
      hide HasTag;
      hide WordAt;
      assert 4 * k + 4 <= |data|;
      assert Tagged(data, k) == Tagged(data, k + 1) + if HasTag(data, k) then {k} else {};
    }
  }

  /** More than half of the double words are tagged. */
  lemma RelocExactly(data: seq<Byte>)
    ensures LooksLikeReloc(data) <==> |data| >= 8 && |data| / 4 < 2 * |Tagged(data, 0)|
  {
    TagsCounted(data, 0);
  }

  /** One entry of a resource directory: the offset of a name inside the data or an id, and an offset inside the data. */
  predicate EntryAt(data: seq<Byte>, at: nat)
    requires at + 8 <= |data|
  {
    && (if data[at + 3] >= 0x80 then Long(data, at) - 0x8000_0000 < |data| else 1 <= Long(data, at) <= 65536)
    && (if data[at + 7] >= 0x80 then Long(data, at + 4) - 0x8000_0000 else Long(data, at + 4)) < |data|
  }

  lemma EntryExactly(data: seq<Byte>, at: nat)
    requires at + 8 <= |data|
    ensures EntryInside(data, at) <==> EntryAt(data, at)
  {
    LongNumber(data, at);
    LongNumber(data, at + 4);
    hide Number;
  }

  /** No flags, at most sixteen named entries, one to sixteen others, and all of them complete and in range. */
  ghost predicate DirectoryRoot(data: seq<Byte>) {
    && |data| >= 16 && data[0] == 0 && data[1] == 0 && data[2] == 0 && data[3] == 0
    && var named, others := Short(data, 12), Short(data, 14);
    && named <= 16 && 1 <= others <= 16 && 16 + 8 * (named + others) <= |data|
    && forall i :: 0 <= i < named + others ==> EntryAt(data, 16 + 8 * i)
  }

  lemma ResourceExactly(data: seq<Byte>)
    ensures LooksLikeResource(data) <==> DirectoryRoot(data)
  {
    if |data| >= 16 {
      LongNumber(data, 0);
      ShortNumber(data, 12);
      ShortNumber(data, 14);
      hide Number;
      var count := Short(data, 12) + Short(data, 14);
      forall i | 0 <= i < count && 16 + 8 * count <= |data|
        ensures EntryInside(data, 16 + i * 8) <==> EntryAt(data, 16 + 8 * i)
      {
        EntryExactly(data, 16 + 8 * i);
      }
      hide EntryInside;
      hide EntryAt;
    }
  }
}
