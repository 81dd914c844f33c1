/** The lease files of one tag, changed only under the tag's lock. */
module LeaseDirectory {
  import opened Outcomes
  import opened LeaseRecords

  /** What a reader finds under a lease's file name. */
  datatype Content = Plain(record: Record) | Unreadable

  /** The lease files, by the lease ID in their names. */
  type Store = map<string, Content>

  // What each operation accepts and does

  predicate DigestValid(digest: string) {
    IsHex(digest, 64)
  }

  /** A record that a reader whose clock shows `clock` accepts under the name `id`. */
  predicate Readable(content: Content, id: string, clock: Time) {
    && content.Plain?
    && ValidateLease(content.record.lease, clock).None?
    && content.record.lease.leaseId == id
    && ReferencesValid(content.record.references)
    && (content.record.digest.Some? ==> DigestValid(content.record.digest.value))
  }

  predicate Holds(store: Store, id: string, clock: Time) {
    id in store && Readable(store[id], id, clock)
  }

  predicate PinAccepted(store: Store, lease: Lease, reference: Reference, clock: Time) {
    && ValidateLease(lease, clock).None?
    && clock < lease.expiresAt
    && ReferenceValid(reference)
    && (lease.leaseId in store ==>
          && Readable(store[lease.leaseId], lease.leaseId, clock)
          && var record := store[lease.leaseId].record;
          && record.lease == lease
          && record.digest.None?
          && (reference in record.references
              || forall k :: 0 <= k < |record.references| ==> !SameKey(record.references[k], reference)))
  }

  function PinnedRecord(store: Store, lease: Lease, reference: Reference): (record: Record)
    requires lease.leaseId in store ==> store[lease.leaseId].Plain?
  {
    if lease.leaseId !in store then Record(lease, None, [reference])
    else
      var record := store[lease.leaseId].record;
      if reference in record.references then record
      else record.(references := Inserted(record.references, reference))
  }

  predicate SealAccepted(store: Store, lease: Lease, digest: string, references: seq<Reference>, clock: Time) {
    && ValidateLease(lease, clock).None?
    && clock < lease.expiresAt
    && DigestValid(digest)
    && Holds(store, lease.leaseId, clock)
    && var record := store[lease.leaseId].record;
    && record.lease == lease
    && record.references == references
    && record.digest in {None, Some(digest)}
  }

  predicate RequireAccepted(store: Store, lease: Lease, digest: string, reference: Reference, clock: Time) {
    && ValidateLease(lease, clock).None?
    && Holds(store, lease.leaseId, clock)
    && clock < lease.expiresAt
    && DigestValid(digest)
    && var record := store[lease.leaseId].record;
    && record.lease == lease
    && record.digest == Some(digest)
    && reference in record.references
  }

  predicate ReleaseAccepted(store: Store, lease: Lease, digest: string, clock: Time) {
    && ValidateLease(lease, clock).None?
    && (lease.leaseId in store ==>
          && Readable(store[lease.leaseId], lease.leaseId, clock)
          && store[lease.leaseId].record.lease == lease
          && store[lease.leaseId].record.digest == Some(digest))
  }

  /** Pruning validates the whole inventory before it removes anything. */
  ghost predicate PruneAccepted(store: Store, clock: Time) {
    forall id :: id in store ==> Readable(store[id], id, clock)
  }

  predicate Lapsed(content: Content, now: Time) {
    content.Plain? && now >= content.record.lease.expiresAt + CLOCK_SKEW_ALLOWANCE
  }

  function Unlapsed(store: Store, now: Time): Store {
    map id | id in store && !Lapsed(store[id], now) :: store[id]
  }

  /** Scratch files of interrupted writes, with the time of their last change. */
  type Scratch = map<string, Time>

  /** The scratch files that a pruner leaves: those younger than a lease's lifetime. */
  function Young(scratch: Scratch, now: Time): Scratch {
    map name | name in scratch && now - scratch[name] < LEASE_LIFETIME :: scratch[name]
  }

  /** Some record that has not lapsed pins the generation. */
  ghost predicate Protects(store: Store, now: Time, generation: string) {
    exists id, k :: id in store && PinsAt(store[id], k, generation) && !Lapsed(store[id], now)
  }

  predicate PinsAt(content: Content, k: int, generation: string) {
    content.Plain? && 0 <= k < |content.record.references| && content.record.references[k].generation == generation
  }

  // One step of the protocol

  /** An operation with the clock of the machine that performs it; pruning also has the time it prunes by. */
  datatype Operation =
    | Pin(lease: Lease, reference: Reference, clock: Time)
    | Seal(lease: Lease, digest: string, references: seq<Reference>, clock: Time)
    | Require(lease: Lease, digest: string, reference: Reference, clock: Time)
    | Release(lease: Lease, digest: string, clock: Time)
    | Prune(now: Time, clock: Time)

  ghost predicate Accepted(store: Store, op: Operation) {
    match op
    case Pin(lease, reference, clock) => PinAccepted(store, lease, reference, clock)
    case Seal(lease, digest, references, clock) => SealAccepted(store, lease, digest, references, clock)
    case Require(lease, digest, reference, clock) => RequireAccepted(store, lease, digest, reference, clock)
    case Release(lease, digest, clock) => ReleaseAccepted(store, lease, digest, clock)
    case Prune(_, clock) => PruneAccepted(store, clock)
  }

  /** The files after an operation; one that raises leaves them alone. */
  ghost function After(store: Store, op: Operation): Store {
    if !Accepted(store, op) then store
    else
      match op
      case Pin(lease, reference, _) => store[lease.leaseId := Plain(PinnedRecord(store, lease, reference))]
      case Seal(lease, digest, _, _) => store[lease.leaseId := Plain(store[lease.leaseId].record.(digest := Some(digest)))]
      case Require(_, _, _, _) => store
      case Release(lease, _, _) => store - {lease.leaseId}
      case Prune(now, _) => Unlapsed(store, now)
  }

  // The operations as the program performs them

  class Leases {
    var records: Store
    var scratch: Scratch

    constructor ()
      ensures records == map[] && scratch == map[]
    {
      records, scratch := map[], map[];
    }

    method Read(id: string, clock: Time) returns (r: Result<Record, LeaseError>)
      ensures r.Ok? <==> Holds(records, id, clock)
      ensures r.Ok? ==> records[id] == Plain(r.value)
    {
      if id !in records {
        return Err(Missing);
      }
      if records[id].Unreadable? {
        return Err(InvalidRecord);
      }
      var record := records[id].record;
      var error := ValidateLease(record.lease, clock);
      if error.Some? {
        return Err(error.value);
      }
      if id != record.lease.leaseId {
        return Err(InvalidRecord);
      }
      if !ReferencesValid(record.references) {
        return Err(InvalidReferences);
      }
      if record.digest.Some? && !DigestValid(record.digest.value) {
        return Err(InvalidDigest);
      }
      return Ok(record);
    }

    method PinGeneration(lease: Lease, reference: Reference, clock: Time) returns (error: Option<LeaseError>)
      modifies this`records
      ensures error.None? <==> Accepted(old(records), Pin(lease, reference, clock))
      ensures records == After(old(records), Pin(lease, reference, clock))
    {
      hide ReferenceValid;
      hide Below;
      var invalid := ValidateLease(lease, clock);
      if invalid.Some? {
        return invalid;
      }
      if clock >= lease.expiresAt {
        return Some(Expired);
      }
      if !ReferencesValid([reference]) {
        return Some(InvalidReferences);
      }
      assert ReferenceValid([reference][0]);
      if lease.leaseId !in records {
        records := records[lease.leaseId := Plain(Record(lease, None, [reference]))];
        return None;
      }
      var found := Read(lease.leaseId, clock);
      if found.Err? {
        return Some(found.error);
      }
      var record := found.value;
      if record.lease != lease || record.digest.Some? {
        return Some(NotPreparing);
      }
      if reference in record.references {
        UnchangedWrite(records, lease.leaseId, record);
        return None;
      }
      var references := Inserted(record.references, reference);
      InsertedIsValid(record.references, reference);
      if !ReferencesValid(references) {
        return Some(InvalidReferences);
      }
      records := records[lease.leaseId := Plain(record.(references := references))];
      return None;
    }

    method SealLease(lease: Lease, digest: string, references: seq<Reference>,
          clock: Time) returns (error: Option<LeaseError>)
      modifies this`records
      ensures error.None? <==> Accepted(old(records), Seal(lease, digest, references, clock))
      ensures records == After(old(records), Seal(lease, digest, references, clock))
    {
      var invalid := ValidateLease(lease, clock);
      if invalid.Some? {
        return invalid;
      }
      if clock >= lease.expiresAt {
        return Some(Expired);
      }
      if !DigestValid(digest) {
        return Some(InvalidDigest);
      }
      var found := Read(lease.leaseId, clock);
      if found.Err? {
        return Some(found.error);
      }
      var record := found.value;
      if record.lease != lease || record.references != references {
        return Some(SelectionMismatch);
      }
      if record.digest !in {None, Some(digest)} {
        return Some(BoundElsewhere);
      }
      records := records[lease.leaseId := Plain(record.(digest := Some(digest)))];
      return None;
    }

    method RequireLease(lease: Lease, digest: string, reference: Reference,
          clock: Time) returns (error: Option<LeaseError>)
      ensures error.None? <==> Accepted(records, Require(lease, digest, reference, clock))
      ensures records == After(records, Require(lease, digest, reference, clock))
    {
      var invalid := ValidateLease(lease, clock);
      if invalid.Some? {
        return invalid;
      }
      var found := Read(lease.leaseId, clock);
      if found.Err? {
        return Some(found.error);
      }
      if clock >= lease.expiresAt {
        return Some(Expired);
      }
      if !DigestValid(digest) {
        return Some(InvalidDigest);
      }
      var record := found.value;
      if record.lease != lease || record.digest != Some(digest) || reference !in record.references {
        return Some(BindingMismatch);
      }
      return None;
    }

    method ReleaseLease(lease: Lease, digest: string, clock: Time) returns (error: Option<LeaseError>)
      modifies this`records
      ensures error.None? <==> Accepted(old(records), Release(lease, digest, clock))
      ensures records == After(old(records), Release(lease, digest, clock))
    {
      var invalid := ValidateLease(lease, clock);
      if invalid.Some? {
        return invalid;
      }
      if lease.leaseId !in records {
        assert records - {lease.leaseId} == records;
        return None;
      }
      var found := Read(lease.leaseId, clock);
      if found.Err? {
        return Some(found.error);
      }
      if found.value.lease != lease || found.value.digest != Some(digest) {
        return Some(NotOwner);
      }
      records := records - {lease.leaseId};
      return None;
    }

    method ProtectedGenerations(now: Time, clock: Time) returns (r: Result<set<string>, LeaseError>)
      modifies this
      ensures r.Ok? <==> Accepted(old(records), Prune(now, clock))
      ensures records == After(old(records), Prune(now, clock))
      ensures scratch == if r.Ok? then Young(old(scratch), now) else old(scratch)
      ensures r.Ok? ==> forall g :: g in r.value <==> Protects(old(records), now, g)
    {
      var keep: set<string> := {};
      var expired: set<string> := {};
      var remaining := records.Keys;
      while remaining != {}
        invariant records == old(records) && scratch == old(scratch)
        invariant remaining <= records.Keys && expired <= records.Keys - remaining
        invariant forall id :: id in records && id !in remaining ==> Readable(records[id], id, clock)
        invariant forall id :: id in records && id !in remaining ==> (id in expired <==> Lapsed(records[id], now))
        invariant forall g :: g in keep <==> ProtectsOutside(records, remaining, now, g)
      {
        var id :| id in remaining;
        var found := Read(id, clock);
        if found.Err? {
          return Err(found.error);
        }
        var record := found.value;
        ghost var before, rest := keep, remaining;
        remaining := remaining - {id};
        if now >= record.lease.expiresAt + CLOCK_SKEW_ALLOWANCE {
          expired := expired + {id};
        } else {
          keep := keep + (set k | 0 <= k < |record.references| :: record.references[k].generation);
        }
        KeepStep(records, rest, id, now, before, keep);
      }
      records := records - expired;
      assert records == Unlapsed(old(records), now);
      var temporary := OldScratch(now);
      scratch := scratch - temporary;
      return Ok(keep);
    }

    /** The scratch files that are as old as a lease can get. */
    method OldScratch(now: Time) returns (temporary: set<string>)
      ensures scratch - temporary == Young(scratch, now)
    {
      temporary := {};
      var remaining := scratch.Keys;
      while remaining != {}
        invariant remaining <= scratch.Keys
        invariant temporary == set name | name in scratch && name !in remaining && now - scratch[name] >= LEASE_LIFETIME
      {
        var name :| name in remaining;
        remaining := remaining - {name};
        if now - scratch[name] >= LEASE_LIFETIME {
          temporary := temporary + {name};
        }
      }
    }
  }

  lemma UnchangedWrite(store: Store, id: string, record: Record)
    requires id in store && store[id] == Plain(record)
    ensures store[id := Plain(record)] == store
  {}

  /** After the sort, the whole list is acceptable exactly when the new key was free. */
  lemma InsertedIsValid(references: seq<Reference>, reference: Reference)
    requires ReferencesValid(references) && ReferenceValid(reference)
    ensures ReferencesValid(Inserted(references, reference))
       <==> forall k :: 0 <= k < |references| ==> !SameKey(references[k], reference)
  {
    hide Below;
    hide ReferenceValid;
    hide SameKey;
    var result := Inserted(references, reference);
    InsertedMembers(references, reference);
    InsertedAscends(references, reference);
    forall i | 0 <= i < |result|
      ensures ReferenceValid(result[i])
    {
      assert result[i] in result;
    }
  }

  /** Protection by the records already looked at. */
  ghost predicate ProtectsOutside(store: Store, remaining: set<string>, now: Time, generation: string) {
    exists id, k :: id in store && id !in remaining && PinsAt(store[id], k, generation) && !Lapsed(store[id], now)
  }

  lemma KeepStep(store: Store, rest: set<string>, id: string, now: Time, before: set<string>, keep: set<string>)
    requires id in store && id in rest && store[id].Plain?
    requires forall g :: g in before <==> ProtectsOutside(store, rest, now, g)
    requires keep == if Lapsed(store[id], now) then before
                     else before + (set k | 0 <= k < |store[id].record.references| :: store[id].record.references[k].generation)
    ensures forall g :: g in keep <==> ProtectsOutside(store, rest - {id}, now, g)
  {
    forall g
      ensures g in keep <==> ProtectsOutside(store, rest - {id}, now, g)
    {
      if g in keep {
        if g in before {
          var other, k :| other in store && other !in rest && PinsAt(store[other], k, g) && !Lapsed(store[other], now);
          assert other !in rest - {id};
        } else {
          var k :| 0 <= k < |store[id].record.references| && store[id].record.references[k].generation == g;
          assert PinsAt(store[id], k, g);
        }
      }
      if ProtectsOutside(store, rest - {id}, now, g) {
        var other, k :| other in store && other !in rest - {id} && PinsAt(store[other], k, g) && !Lapsed(store[other], now);
        if other != id {
          assert ProtectsOutside(store, rest, now, g);
        }
      }
    }
  }
}
