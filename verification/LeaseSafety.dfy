/** What holds over every interleaving of the lease operations, whatever the machines' clocks show. */
module LeaseSafety {
  import opened Outcomes
  import opened LeaseRecords
  import opened LeaseDirectory

  /** The files after the first `n` operations of a run. */
  ghost function StoreAfter(start: Store, run: seq<Operation>, n: nat): Store
    requires n <= |run|
  {
    if n == 0 then start else After(StoreAfter(start, run, n - 1), run[n - 1])
  }

  predicate IsSealed(store: Store, id: string) {
    id in store && store[id].Plain? && store[id].record.digest.Some?
  }

  // Sealed records never change

  /** An operation keeps a sealed record as it is, or removes it; only its owner's release and a late prune remove it. */
  lemma SealedKeeps(store: Store, op: Operation, id: string)
    requires IsSealed(store, id)
    ensures id in After(store, op) ==> After(store, op)[id] == store[id]
    ensures id !in After(store, op) ==>
      && Accepted(store, op)
      && (|| (op.Release? && op.lease == store[id].record.lease && Some(op.digest) == store[id].record.digest)
          || (op.Prune? && op.now >= store[id].record.lease.expiresAt + CLOCK_SKEW_ALLOWANCE))
  {
    hide ReferencesValid;
    hide ReferenceValid;
    hide DescriptorValid;
  }

  /** Until it is removed, a sealed record's lease, digest and references never change, over any run. */
  lemma {:induction false} SealedNeverChanges(start: Store, run: seq<Operation>, id: string, first: nat, last: nat)
    requires first <= last <= |run|
    requires IsSealed(StoreAfter(start, run, first), id)
    requires forall n :: first <= n <= last ==> id in StoreAfter(start, run, n)
    ensures StoreAfter(start, run, last)[id] == StoreAfter(start, run, first)[id]
    decreases last
  {
    hide After;
    if first < last {
      SealedNeverChanges(start, run, id, first, last - 1);
      SealedKeeps(StoreAfter(start, run, last - 1), run[last - 1], id);
    }
  }

  // A consumer's generation stays protected

  /** Operation `n` is a release of this lease that passes. */
  ghost predicate Releases(start: Store, run: seq<Operation>, n: nat, lease: Lease)
    requires n < |run|
  {
    run[n].Release? && run[n].lease == lease && Accepted(StoreAfter(start, run, n), run[n])
  }

  /** From the moment a consumer passes `require_lease` until its release, while no pruner's time is more than an
      hour ahead of the consumer's clock: the record stays exactly as it was. */
  lemma {:induction false} RequiredStays(start: Store, run: seq<Operation>, t: nat, n: nat)
    requires t < |run| && run[t].Require? && Accepted(StoreAfter(start, run, t), run[t])
    requires t <= n <= |run|
    requires forall j :: t <= j < n ==> !Releases(start, run, j, run[t].lease)
    requires forall j :: t <= j < n && run[j].Prune? ==> run[j].now <= run[t].clock + CLOCK_SKEW_ALLOWANCE
    ensures
      var id := run[t].lease.leaseId;
      id in StoreAfter(start, run, t) && id in StoreAfter(start, run, n)
      && StoreAfter(start, run, n)[id] == StoreAfter(start, run, t)[id]
    decreases n
  {
    hide After;
    hide ReferencesValid;
    hide DescriptorValid;
    if t < n {
      RequiredStays(start, run, t, n - 1);
      assert !Releases(start, run, n - 1, run[t].lease);
      SealedKeeps(StoreAfter(start, run, n - 1), run[n - 1], run[t].lease.leaseId);
    }
  }

  /** Such a pruner either raises and deletes nothing, or keeps the consumer's generation. */
  lemma RequiredIsProtected(start: Store, run: seq<Operation>, t: nat, n: nat)
    requires t < |run| && run[t].Require? && Accepted(StoreAfter(start, run, t), run[t])
    requires t <= n < |run| && run[n].Prune?
    requires forall j :: t <= j < n ==> !Releases(start, run, j, run[t].lease)
    requires forall j :: t <= j <= n && run[j].Prune? ==> run[j].now <= run[t].clock + CLOCK_SKEW_ALLOWANCE
    ensures if Accepted(StoreAfter(start, run, n), run[n])
            then Protects(StoreAfter(start, run, n), run[n].now, run[t].reference.generation)
            else StoreAfter(start, run, n + 1) == StoreAfter(start, run, n)
  {
    hide ReferencesValid;
    hide DescriptorValid;
    RequiredStays(start, run, t, n);
    var id := run[t].lease.leaseId;
    var content := StoreAfter(start, run, n)[id];
    var k :| 0 <= k < |content.record.references| && content.record.references[k] == run[t].reference;
    assert PinsAt(content, k, run[t].reference.generation) && !Lapsed(content, run[n].now);
  }

  // A directory that only the protocol writes

  /** Apart from its creation time, everything about a record passes every reader. */
  ghost predicate WellFormed(content: Content, id: string) {
    && content.Plain?
    && ValidateLease(content.record.lease, content.record.lease.createdAt).None?
    && content.record.lease.leaseId == id
    && ReferencesValid(content.record.references)
    && (content.record.digest.Some? ==> DigestValid(content.record.digest.value))
  }

  ghost predicate Sound(store: Store) {
    forall id :: id in store ==> WellFormed(store[id], id)
  }

  /** A well-formed record is readable exactly by clocks at most an hour behind its creation. */
  lemma ReadableExactly(content: Content, id: string, clock: Time)
    requires WellFormed(content, id)
    ensures Readable(content, id, clock) <==> content.record.lease.createdAt <= clock + CLOCK_SKEW_ALLOWANCE
  {}

  lemma PinKeepsSound(store: Store, op: Operation)
    requires Sound(store) && op.Pin? && Accepted(store, op)
    ensures WellFormed(Plain(PinnedRecord(store, op.lease, op.reference)), op.lease.leaseId)
  {
    hide ReferenceValid;
    hide DescriptorValid;
    hide Below;
    hide SameKey;
    if op.lease.leaseId in store && op.reference !in store[op.lease.leaseId].record.references {
      InsertedIsValid(store[op.lease.leaseId].record.references, op.reference);
    }
  }

  lemma SoundKeeps(store: Store, op: Operation)
    requires Sound(store)
    ensures Sound(After(store, op))
  {
    hide ReferencesValid;
    hide ReferenceValid;
    hide DescriptorValid;
    hide PinnedRecord;
    hide IsHex;
    if op.Pin? && Accepted(store, op) {
      PinKeepsSound(store, op);
    }
  }

  /** Starting from an empty directory, no operation ever leaves a record that a pruner with a sane clock rejects:
      pruning raises exactly when some lease was created more than an hour after the pruner's clock. */
  lemma {:induction false} PruneRaisesOnlyForSkew(run: seq<Operation>, n: nat, clock: Time)
    requires n <= |run|
    ensures Sound(StoreAfter(map[], run, n))
    ensures
      var store := StoreAfter(map[], run, n);
      PruneAccepted(store, clock)
      <==> forall id :: id in store ==> store[id].record.lease.createdAt <= clock + CLOCK_SKEW_ALLOWANCE
  {
    hide After;
    if n > 0 {
      PruneRaisesOnlyForSkew(run, n - 1, clock);
      SoundKeeps(StoreAfter(map[], run, n - 1), run[n - 1]);
    }
    var store := StoreAfter(map[], run, n);
    forall id | id in store
      ensures Readable(store[id], id, clock) <==> store[id].record.lease.createdAt <= clock + CLOCK_SKEW_ALLOWANCE
    {
      ReadableExactly(store[id], id, clock);
    }
  }

  // The protocol does what it is for

  /** Once sealed, every listed generation can be required by any clock inside the lease's lifetime. */
  lemma SealedCanBeRequired(store: Store, seal: Operation, reference: Reference, clock: Time)
    requires seal.Seal? && Accepted(store, seal) && reference in seal.references
    requires seal.lease.createdAt <= clock + CLOCK_SKEW_ALLOWANCE && clock < seal.lease.expiresAt
    ensures Accepted(After(store, seal), Require(seal.lease, seal.digest, reference, clock))
  {
    hide ReferenceValid;
    hide DescriptorValid;
    hide IsHex;
    hide Below;
  }

  /** No digest but the sealed one can be required or sealed again, and no reference can be added. */
  lemma SealedIsBound(store: Store, seal: Operation, op: Operation)
    requires seal.Seal? && Accepted(store, seal) && (op.Pin? || op.Seal? || op.Require?)
    requires op.lease.leaseId == seal.lease.leaseId
    requires Accepted(After(store, seal), op)
    ensures !op.Pin? && op.lease == seal.lease && op.digest == seal.digest
    ensures op.Seal? ==> op.references == seal.references
  {
    hide ReferencesValid;
    hide ReferenceValid;
    hide DescriptorValid;
    hide IsHex;
  }

  /** Apart from pruning, an operation touches no file but its own lease's. */
  lemma OthersUntouched(store: Store, op: Operation, id: string)
    requires !op.Prune? && id != op.lease.leaseId
    ensures id in After(store, op) <==> id in store
    ensures id in store ==> After(store, op)[id] == store[id]
  {
    hide ReferencesValid;
    hide ReferenceValid;
    hide DescriptorValid;
  }
}
