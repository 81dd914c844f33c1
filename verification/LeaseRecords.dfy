/** Selection leases, the records that pin generations, and their validators. */
module LeaseRecords {
  import opened Outcomes

  /** Seconds since the epoch on some machine's clock. */
  type Time = int

  const HOUR: int := 3600
  const LEASE_LIFETIME: int := 36 * 24 * HOUR
  const CLOCK_SKEW_ALLOWANCE: int := HOUR

  datatype Lease = Lease(leaseId: string, repository: string, runId: string, attempt: int, createdAt: Time, expiresAt: Time)

  datatype Reference = Reference(platform: string, cacheKey: string, generation: string, manifestSha256: string)

  datatype Record = Record(lease: Lease, digest: Option<string>, references: seq<Reference>)

  datatype LeaseError =
    | InvalidLease
    | FutureLease
    | Expired
    | InvalidReferences
    | InvalidDigest
    | Missing
    | InvalidRecord
    | NotPreparing
    | SelectionMismatch
    | BoundElsewhere
    | BindingMismatch
    | NotOwner

  // Text formats

  predicate IsHex(s: string, length: nat) {
    |s| == length && forall i :: 0 <= i < |s| ==> '0' <= s[i] <= '9' || 'a' <= s[i] <= 'f'
  }

  predicate IsLetterOrDigit(c: char) {
    '0' <= c <= '9' || 'a' <= c <= 'z' || 'A' <= c <= 'Z'
  }

  predicate IsComponent(s: string) {
    && 1 <= |s| <= 160
    && IsLetterOrDigit(s[0])
    && forall i :: 0 <= i < |s| ==> IsLetterOrDigit(s[i]) || s[i] in "_.-"
  }

  predicate IsRepository(s: string) {
    s == "local" || exists k :: 0 <= k < |s| && s[k] == '/' && IsComponent(s[..k]) && IsComponent(s[k + 1..])
  }

  // Leases

  predicate DescriptorValid(lease: Lease) {
    && IsHex(lease.leaseId, 32)
    && IsComponent(lease.runId)
    && IsRepository(lease.repository)
    && lease.attempt >= 1
    && lease.createdAt < lease.expiresAt
  }

  /** The live policy: the exact lifetime, and no creation time beyond the tolerated clock skew. */
  function ValidateLease(lease: Lease, clock: Time): (error: Option<LeaseError>)
    ensures error.None? ==> lease.createdAt <= clock + CLOCK_SKEW_ALLOWANCE && lease.expiresAt == lease.createdAt + LEASE_LIFETIME
  {
    if !DescriptorValid(lease) || lease.expiresAt - lease.createdAt != LEASE_LIFETIME then Some(InvalidLease)
    else if lease.createdAt > clock + CLOCK_SKEW_ALLOWANCE then Some(FutureLease)
    else None
  }

  // References

  /** Lexicographic order of strings by code point. */
  predicate TextBelow(a: string, b: string)
    decreases |a|
  {
    b != [] && (a == [] || a[0] < b[0] || (a[0] == b[0] && TextBelow(a[1..], b[1..])))
  }

  lemma {:induction false} NotBelowItself(a: string)
    ensures !TextBelow(a, a)
  {
    if a != [] {
      NotBelowItself(a[1..]);
    }
  }

  lemma {:induction false} TextOrder(a: string, b: string)
    ensures a == b || TextBelow(a, b) || TextBelow(b, a)
    ensures !(TextBelow(a, b) && TextBelow(b, a)) && !TextBelow(a, a)
    decreases |a|
  {
    NotBelowItself(a);
    if a != [] && b != [] && a[0] == b[0] {
      TextOrder(a[1..], b[1..]);
      assert a == [a[0]] + a[1..] && b == [b[0]] + b[1..];
    }
  }

  lemma {:induction false} TextTransitive(a: string, b: string, c: string)
    requires TextBelow(a, b) && TextBelow(b, c)
    ensures TextBelow(a, c)
    decreases |a|
  {
    if a != [] && a[0] == b[0] == c[0] {
      TextTransitive(a[1..], b[1..], c[1..]);
    }
  }

  /** The platform decides before the cache key. */
  predicate Below(a: Reference, b: Reference) {
    TextBelow(a.platform, b.platform) || (a.platform == b.platform && TextBelow(a.cacheKey, b.cacheKey))
  }

  predicate SameKey(a: Reference, b: Reference) {
    a.platform == b.platform && a.cacheKey == b.cacheKey
  }

  lemma BelowOrder(a: Reference, b: Reference)
    ensures SameKey(a, b) || Below(a, b) || Below(b, a)
    ensures Below(a, b) ==> !Below(b, a) && !SameKey(a, b)
  {
    TextOrder(a.platform, b.platform);
    TextOrder(a.cacheKey, b.cacheKey);
  }

  lemma BelowTransitive(a: Reference, b: Reference, c: Reference)
    requires Below(a, b) && Below(b, c)
    ensures Below(a, c)
  {
    if TextBelow(a.platform, b.platform) && TextBelow(b.platform, c.platform) {
      TextTransitive(a.platform, b.platform, c.platform);
    } else if a.platform == b.platform == c.platform {
      TextTransitive(a.cacheKey, b.cacheKey, c.cacheKey);
    }
  }

  predicate ReferenceValid(r: Reference) {
    && r.platform in {"windows", "linux"}
    && IsComponent(r.generation)
    && IsHex(r.cacheKey, 64)
    && IsHex(r.manifestSha256, 64)
  }

  /** Unique keys in ascending order. */
  predicate Ascending(references: seq<Reference>) {
    forall i, j :: 0 <= i < j < |references| ==> Below(references[i], references[j])
  }

  predicate ReferencesValid(references: seq<Reference>) {
    && references != []
    && (forall i :: 0 <= i < |references| ==> ReferenceValid(references[i]))
    && Ascending(references)
  }

  /** The list with one more reference, sorted again; the sort is stable. */
  function Inserted(references: seq<Reference>, r: Reference): (result: seq<Reference>)
    ensures |result| == |references| + 1
  {
    if references == [] then [r]
    else if Below(r, references[0]) then [r] + references
    else [references[0]] + Inserted(references[1..], r)
  }

  lemma {:induction false} InsertedMembers(references: seq<Reference>, r: Reference)
    ensures multiset(Inserted(references, r)) == multiset(references) + multiset{r}
    ensures forall x :: x in Inserted(references, r) <==> x == r || x in references
  {
    if references != [] && !Below(r, references[0]) {
      InsertedMembers(references[1..], r);
      assert references == [references[0]] + references[1..];
    }
  }

  /** The sorted list is accepted exactly when no reference has the new one's key. */
  lemma {:induction false} InsertedAscends(references: seq<Reference>, r: Reference)
    requires Ascending(references)
    ensures Ascending(Inserted(references, r)) <==> forall i :: 0 <= i < |references| ==> !SameKey(references[i], r)
  {
    if references != [] {
      BelowOrder(r, references[0]);
      if Below(r, references[0]) {
        FrontAscends(r, references);
      } else {
        var rest := references[1..];
        InsertedAscends(rest, r);
        InsertedMembers(rest, r);
        ConsAscends(references[0], Inserted(rest, r), references, r);
      }
    }
  }

  lemma FrontAscends(r: Reference, references: seq<Reference>)
    requires references != [] && Ascending(references) && Below(r, references[0])
    ensures Ascending([r] + references)
    ensures forall i :: 0 <= i < |references| ==> !SameKey(references[i], r)
  {
    forall i | 0 <= i < |references|
      ensures Below(r, references[i]) && !SameKey(references[i], r)
    {
      if i > 0 {
        BelowTransitive(r, references[0], references[i]);
      }
      BelowOrder(r, references[i]);
    }
  }

  lemma ConsAscends(first: Reference, tail: seq<Reference>, references: seq<Reference>, r: Reference)
    requires references != [] && first == references[0] && Ascending(references)
    requires forall x :: x in tail <==> x == r || x in references[1..]
    requires SameKey(first, r) || Below(first, r)
    requires Ascending(tail) <==> forall i :: 0 <= i < |references| - 1 ==> !SameKey(references[1..][i], r)
    ensures Ascending([first] + tail) <==> forall i :: 0 <= i < |references| ==> !SameKey(references[i], r)
  {
    hide Below;
    var whole := [first] + tail;
    BelowOrder(first, r);
    assert forall i :: 0 <= i < |references| - 1 ==> references[1..][i] == references[i + 1];
    if Ascending(whole) {
      forall i, j | 0 <= i < j < |tail|
        ensures Below(tail[i], tail[j])
      {
        assert whole[i + 1] == tail[i] && whole[j + 1] == tail[j];
      }
      assert r in tail;
      var k :| 0 <= k < |tail| && tail[k] == r;
      assert Below(whole[0], whole[k + 1]);
    }
    if forall i :: 0 <= i < |references| ==> !SameKey(references[i], r) {
      forall j | 0 <= j < |tail|
        ensures Below(first, tail[j])
      {
        assert tail[j] in tail;
        if tail[j] != r {
          var i :| 0 <= i < |references| - 1 && references[1..][i] == tail[j];
        }
      }
    }
  }
}
