/** The life of a lease: pinned, sealed, required and released, or else reclaimed when its time is over. */
module LeaseLife {
  import opened Outcomes
  import opened LeaseRecords
  import opened LeaseDirectory
  import opened LeaseSafety

  /** The live policy in days and hours: a lease lasts for 36 days, and it may seem to be created up to an hour ahead. */
  lemma LivePolicy(lease: Lease, clock: Time)
    ensures ValidateLease(lease, clock).None? <==>
            && DescriptorValid(lease) && lease.expiresAt == lease.createdAt + 36 * 24 * 60 * 60
            && lease.createdAt <= clock + 60 * 60
  {
    hide DescriptorValid;
  }

  /** Whatever operation is accepted on an existing record, apart from pruning, is that of the lease it belongs to. */
  lemma OnlyItsOwnLease(store: Store, op: Operation)
    requires !op.Prune? && Accepted(store, op) && op.lease.leaseId in store
    ensures store[op.lease.leaseId].Plain? && store[op.lease.leaseId].record.lease == op.lease
  {
    hide ReferencesValid;
    hide DescriptorValid;
  }

  /** Pruning removes exactly the records of the leases that ended an hour ago or longer, and what they pinned is no
      longer protected by them. */
  lemma PruneReclaims(store: Store, now: Time, clock: Time, id: string)
    requires Accepted(store, Prune(now, clock)) && id in store
    ensures id !in After(store, Prune(now, clock)) <==> now - store[id].record.lease.expiresAt >= 60 * 60
  {
    hide ReferencesValid;
    hide ReferenceValid;
    hide DescriptorValid;
  }

  /** A generation is protected exactly if a record that stays names it. */
  lemma ProtectedExactly(store: Store, now: Time, clock: Time, generation: string)
    requires Accepted(store, Prune(now, clock))
    ensures Protects(store, now, generation) <==>
            exists id, k :: id in After(store, Prune(now, clock)) && PinsAt(store[id], k, generation)
  {
    hide ReferencesValid;
    hide ReferenceValid;
    hide DescriptorValid;
    var after := After(store, Prune(now, clock));
    forall id ensures id in after <==> id in store && !Lapsed(store[id], now) {}
    hide After;
    hide Accepted;
    hide PinsAt;
    hide Lapsed;
    if Protects(store, now, generation) {
      var id, k :| id in store && PinsAt(store[id], k, generation) && !Lapsed(store[id], now);
      assert id in after;
    }
    if id, k :| id in after && PinsAt(store[id], k, generation) {
      assert id in store && !Lapsed(store[id], now);
    }
  }

  /** Of the scratch files those younger than 36 days stay, unchanged. */
  lemma ScratchKept(scratch: Scratch, now: Time, name: string)
    ensures name in Young(scratch, now) <==> name in scratch && now - scratch[name] < 36 * 24 * 60 * 60
    ensures name in Young(scratch, now) ==> Young(scratch, now)[name] == scratch[name]
  {}

  // Doing it again

  /** The same operation by another clock. */
  function AtClock(op: Operation, clock: Time): Operation {
    match op
    case Pin(lease, reference, _) => Pin(lease, reference, clock)
    case Seal(lease, digest, references, _) => Seal(lease, digest, references, clock)
    case Require(lease, digest, reference, _) => Require(lease, digest, reference, clock)
    case Release(lease, digest, _) => Release(lease, digest, clock)
    case Prune(now, _) => Prune(now, clock)
  }

  /** Inside the lifetime, pinning, sealing or releasing once more is accepted and changes nothing. */
  lemma OnceMore(store: Store, op: Operation, clock: Time)
    requires (op.Pin? || op.Seal? || op.Release?) && Accepted(store, op)
    requires op.lease.createdAt <= clock + 60 * 60 && clock < op.lease.expiresAt
    ensures var after, again := After(store, op), AtClock(op, clock);
            Accepted(after, again) && After(after, again) == after
  {
    hide DescriptorValid;
    if op.Pin? {
      PinStays(store, op, clock);
    }
    hide ReferencesValid;
    hide ReferenceValid;
  }

  lemma PinStays(store: Store, op: Operation, clock: Time)
    requires op.Pin? && Accepted(store, op)
    requires op.lease.createdAt <= clock + 60 * 60 && clock < op.lease.expiresAt
    ensures var after, again := After(store, op), AtClock(op, clock);
            Accepted(after, again) && After(after, again) == after
  {
    hide DescriptorValid;
    hide Below;
    hide SameKey;
    hide ReferenceValid;
    var id := op.lease.leaseId;
    if id in store && op.reference !in store[id].record.references {
      InsertedIsValid(store[id].record.references, op.reference);
      InsertedMembers(store[id].record.references, op.reference);
    }
  }

  // A whole life

  lemma {:induction false} InsertedBehind(references: seq<Reference>, r: Reference)
    requires forall i :: 0 <= i < |references| ==> !Below(r, references[i])
    ensures Inserted(references, r) == references + [r]
  {
    if references != [] {
      InsertedBehind(references[1..], r);
    }
  }

  function Pins(lease: Lease, references: seq<Reference>, clock: Time): (run: seq<Operation>)
    ensures |run| == |references|
  {
    seq(|references|, i requires 0 <= i < |references| => Pin(lease, references[i], clock))
  }

  function Requires(lease: Lease, digest: string, references: seq<Reference>, clock: Time): (run: seq<Operation>)
    ensures |run| == |references|
  {
    seq(|references|, i requires 0 <= i < |references| => Require(lease, digest, references[i], clock))
  }

  /** All references are pinned, the selection is sealed, every generation is required, and the lease is released. */
  function Life(lease: Lease, digest: string, references: seq<Reference>, clock: Time): (run: seq<Operation>)
    ensures |run| == 2 * |references| + 2
  {
    Pins(lease, references, clock) + [Seal(lease, digest, references, clock)]
    + Requires(lease, digest, references, clock) + [Release(lease, digest, clock)]
  }

  /** The files after the first `n` operations of such a life. */
  function Midlife(store: Store, lease: Lease, digest: string, references: seq<Reference>, n: nat): Store
    requires n <= 2 * |references| + 2
  {
    var count := |references|;
    if n == 0 || n == 2 * count + 2 then store
    else if n <= count then store[lease.leaseId := Plain(Record(lease, None, references[..n]))]
    else store[lease.leaseId := Plain(Record(lease, Some(digest), references))]
  }

  ghost predicate Alive(store: Store, lease: Lease, digest: string, references: seq<Reference>, clock: Time) {
    && lease.leaseId !in store && ValidateLease(lease, clock).None? && clock < lease.expiresAt
    && DigestValid(digest) && ReferencesValid(references)
  }

  lemma PrefixValid(references: seq<Reference>, n: nat)
    requires ReferencesValid(references) && 0 < n <= |references|
    ensures ReferencesValid(references[..n])
  {
    hide Below;
    hide ReferenceValid;
  }

  lemma PinNext(store: Store, lease: Lease, digest: string, references: seq<Reference>, clock: Time, n: nat)
    requires Alive(store, lease, digest, references, clock) && n < |references|
    ensures var before, op := Midlife(store, lease, digest, references, n), Pin(lease, references[n], clock);
            Accepted(before, op) && After(before, op) == Midlife(store, lease, digest, references, n + 1)
  {
    hide ReferenceValid;
    hide Below;
    hide DescriptorValid;
    hide SameKey;
    var r := references[n];
    if n > 0 {
      PrefixValid(references, n);
      forall i | 0 <= i < n ensures !SameKey(references[..n][i], r) && !Below(r, references[..n][i]) {
        assert Below(references[i], references[n]);
        BelowOrder(references[i], references[n]);
      }
      InsertedBehind(references[..n], r);
      assert references[..n + 1] == references[..n] + [r];
    } else {
      assert references[..1] == [r];
    }
  }

  lemma SealNext(store: Store, lease: Lease, digest: string, references: seq<Reference>, clock: Time)
    requires Alive(store, lease, digest, references, clock)
    ensures var n := |references|;
            var before, op := Midlife(store, lease, digest, references, n), Seal(lease, digest, references, clock);
            Accepted(before, op) && After(before, op) == Midlife(store, lease, digest, references, n + 1)
  {
    hide ReferenceValid;
    hide Below;
    hide DescriptorValid;
    assert references[..|references|] == references;
  }

  lemma RequireNext(store: Store, lease: Lease, digest: string, references: seq<Reference>, clock: Time, k: nat)
    requires Alive(store, lease, digest, references, clock) && k < |references|
    ensures var n := |references| + 1 + k;
            var before, op := Midlife(store, lease, digest, references, n), Require(lease, digest, references[k], clock);
            Accepted(before, op) && After(before, op) == Midlife(store, lease, digest, references, n + 1)
  {
    hide ReferenceValid;
    hide Below;
    hide DescriptorValid;
  }

  lemma ReleaseNext(store: Store, lease: Lease, digest: string, references: seq<Reference>, clock: Time)
    requires Alive(store, lease, digest, references, clock)
    ensures var n := 2 * |references| + 1;
            var before, op := Midlife(store, lease, digest, references, n), Release(lease, digest, clock);
            Accepted(before, op) && After(before, op) == store
  {
    hide ReferenceValid;
    hide Below;
    hide DescriptorValid;
  }

  lemma NextOfLife(store: Store, lease: Lease, digest: string, references: seq<Reference>, clock: Time, n: nat)
    requires Alive(store, lease, digest, references, clock) && n < 2 * |references| + 2
    ensures var before, op := Midlife(store, lease, digest, references, n), Life(lease, digest, references, clock)[n];
            Accepted(before, op) && After(before, op) == Midlife(store, lease, digest, references, n + 1)
  {
    hide Accepted;
    hide After;
    hide Alive;
    hide Midlife;
    var count := |references|;
    if n < count {
      PinNext(store, lease, digest, references, clock, n);
    } else if n == count {
      SealNext(store, lease, digest, references, clock);
    } else if n < 2 * count + 1 {
      RequireNext(store, lease, digest, references, clock, n - count - 1);
    } else {
      ReleaseNext(store, lease, digest, references, clock);
      LastMidlife(store, lease, digest, references);
    }
  }

  lemma LastMidlife(store: Store, lease: Lease, digest: string, references: seq<Reference>)
    ensures Midlife(store, lease, digest, references, 2 * |references| + 2) == store
  {}

  /** In such a life every operation is accepted, and in the end the directory is as it was. */
  lemma {:induction false} WholeLife(store: Store, lease: Lease, digest: string, references: seq<Reference>, clock: Time,
                                     n: nat)
    requires Alive(store, lease, digest, references, clock) && n <= 2 * |references| + 2
    ensures var run := Life(lease, digest, references, clock);
            && StoreAfter(store, run, n) == Midlife(store, lease, digest, references, n)
            && (n < |run| ==> Accepted(StoreAfter(store, run, n), run[n]))
            && (n == |run| ==> StoreAfter(store, run, n) == store)
  {
    hide Accepted;
    hide After;
    hide Alive;
    hide Life;
    if n > 0 {
      WholeLife(store, lease, digest, references, clock, n - 1);
      NextOfLife(store, lease, digest, references, clock, n - 1);
    }
    if n < 2 * |references| + 2 {
      NextOfLife(store, lease, digest, references, clock, n);
    }
  }
}
