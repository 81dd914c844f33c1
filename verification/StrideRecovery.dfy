/** Recovering the frame stride from every masked index that reaches a draw-player call. */
module StrideRecovery {
  import opened Outcomes
  import opened AffineModel
  import opened AffineFlow

  // What a chain yields

  predicate IsSeed(code: seq<Instruction>, i: nat)
    requires i < |code|
  {
    code[i].operation.And? && code[i].operation.dst.Reg?
  }

  /** The facts before instruction `n` on the chain that starts behind the seed at `i`. */
  function FactsAt(code: seq<Instruction>, i: nat, n: nat): Option<Facts>
    requires i < n <= |code| && IsSeed(code, i)
  {
    if n == i + 1 then Some(Seed(code[i].operation.dst.register))
    else
      var before := FactsAt(code, i, n - 1);
      if before.None? || code[n - 1].join then None else Transfer(before.value, code[n - 1].operation)
  }

  /** The chain from the seed at `i` ends at the call `c`, within the window that is searched. */
  predicate Reaches(code: seq<Instruction>, i: nat, c: nat) {
    && i < c < |code| && c <= i + MAX_CHAIN_INSTRUCTIONS
    && IsSeed(code, i)
    && code[c].operation.Call? && !code[c].join
    && FactsAt(code, i, c).Some?
  }

  predicate ReachesPlayer(code: seq<Instruction>, i: nat, c: nat) {
    Reaches(code, i, c) && code[c].operation.player
  }

  /** The coefficients that may be the frame argument: the push before a zero push, and stack slot 4. */
  function Arguments(f: Facts): seq<Coefficient> {
    var n := |f.pushed|;
    (if n >= 2 && f.pushed[n - 1] == Some(0) then [f.pushed[n - 2]] else [])
    + (if 4 in f.stores then [f.stores[4]] else [])
  }

  predicate Plausible(c: Coefficient) {
    c.Some? && MIN_FRAME_STRIDE < c.value <= 0xFFFF_FFFF
  }

  function Values(f: Facts): set<int> {
    set c | c in Arguments(f) && Plausible(c) :: c.value
  }

  function ValuesAt(code: seq<Instruction>, i: nat, c: nat): set<int>
    requires ReachesPlayer(code, i, c)
  {
    Values(FactsAt(code, i, c).value)
  }

  /** Every draw-player call is reached with this stride, and no chain suggests another. */
  ghost predicate Recovered(code: seq<Instruction>, v: int) {
    && (exists c :: PlayerCall(code, c))
    && (forall c :: PlayerCall(code, c) ==> exists i: nat :: ReachesPlayer(code, i, c) && ValuesAt(code, i, c) == {v})
    && (forall i: nat, c: nat :: ReachesPlayer(code, i, c) ==> ValuesAt(code, i, c) <= {v})
  }

  predicate PlayerCall(code: seq<Instruction>, c: int) {
    0 <= c < |code| && code[c].operation.Call? && code[c].operation.player
  }

  // The search

  lemma {:induction false} BrokenChain(code: seq<Instruction>, i: nat, n: nat, m: nat)
    requires i < n <= m <= |code| && IsSeed(code, i) && FactsAt(code, i, n).None?
    ensures FactsAt(code, i, m).None?
    decreases m
  {
    hide Transfer;
    if n < m {
      BrokenChain(code, i, n, m - 1);
    }
  }

  /** Once a chain has ended at `n`, it reaches no later call. */
  lemma EndedChain(code: seq<Instruction>, i: nat, n: nat)
    requires i < n < |code| && IsSeed(code, i) && FactsAt(code, i, n).Some?
    requires code[n].join || Transfer(FactsAt(code, i, n).value, code[n].operation).None?
    ensures forall c: nat :: c > n ==> !Reaches(code, i, c)
  {
    hide Transfer;
    forall c: nat | c > n
      ensures !Reaches(code, i, c)
    {
      if c < |code| {
        BrokenChain(code, i, n + 1, c);
      }
    }
  }

  method FollowChain(code: seq<Instruction>, i: nat) returns (call: Option<nat>, facts: Facts)
    requires i < |code| && IsSeed(code, i)
    ensures call.Some? ==> Reaches(code, i, call.value) && FactsAt(code, i, call.value) == Some(facts)
    ensures forall c: nat :: Reaches(code, i, c) ==> call == Some(c)
  {
    facts := Seed(code[i].operation.dst.register);
    var n := i + 1;
    while n < |code| && n <= i + MAX_CHAIN_INSTRUCTIONS
      invariant i < n <= |code|
      invariant FactsAt(code, i, n) == Some(facts)
      invariant forall c: nat :: c < n ==> !Reaches(code, i, c)
    {
      var instruction := code[n];
      if instruction.join {
        EndedChain(code, i, n);
        return None, facts;
      }
      if instruction.operation.Call? {
        EndedChain(code, i, n);
        return Some(n), facts;
      }
      var next := Transfer(facts, instruction.operation);
      if next.None? {
        EndedChain(code, i, n);
        return None, facts;
      }
      hide Transfer;
      facts := next.value;
      n := n + 1;
    }
    return None, facts;
  }

  datatype RecoveryError = AmbiguousArguments | NoUniqueStride

  /** A chain from before `limit` reaches the player call `c` with the value `v`. */
  ghost predicate Evidence(code: seq<Instruction>, limit: nat, c: nat, v: int) {
    exists i: nat :: i < limit && ReachesPlayer(code, i, c) && v in ValuesAt(code, i, c)
  }

  /** What the seeds before `limit` have shown. */
  ghost predicate Collected(code: seq<Instruction>, limit: nat, values: set<int>, verified: set<nat>) {
    && (forall v :: v in values <==> exists c: nat :: Evidence(code, limit, c, v))
    && (forall c :: c in verified <==> exists v :: Evidence(code, limit, c, v))
    && (forall i: nat, c: nat :: i < limit && ReachesPlayer(code, i, c) ==> |ValuesAt(code, i, c)| <= 1)
  }

  lemma EvidenceGrows(code: seq<Instruction>, i: nat, c: nat, v: int)
    ensures Evidence(code, i + 1, c, v)
       <==> Evidence(code, i, c, v) || (ReachesPlayer(code, i, c) && v in ValuesAt(code, i, c))
  {
    hide ReachesPlayer;
    hide ValuesAt;
    if ReachesPlayer(code, i, c) && v in ValuesAt(code, i, c) {
      assert i < i + 1;
    }
  }

  lemma NothingNew(code: seq<Instruction>, i: nat, values: set<int>, verified: set<nat>)
    requires Collected(code, i, values, verified)
    requires forall c: nat :: ReachesPlayer(code, i, c) ==> ValuesAt(code, i, c) == {}
    ensures Collected(code, i + 1, values, verified)
  {
    hide ReachesPlayer;
    hide ValuesAt;
    var next := i + 1;
    forall c: nat, v
      ensures Evidence(code, next, c, v) <==> Evidence(code, i, c, v)
    {
      EvidenceGrows(code, i, c, v);
    }
    hide Evidence;
    assert Collected(code, next, values, verified);
  }

  lemma SomethingNew(code: seq<Instruction>, i: nat, call: nat, found: int, values: set<int>, verified: set<nat>)
    requires Collected(code, i, values, verified)
    requires ReachesPlayer(code, i, call) && ValuesAt(code, i, call) == {found}
    requires forall c: nat :: ReachesPlayer(code, i, c) ==> c == call
    ensures Collected(code, i + 1, values + {found}, verified + {call})
  {
    hide ReachesPlayer;
    hide ValuesAt;
    var next := i + 1;
    forall c: nat, v
      ensures Evidence(code, next, c, v) <==> Evidence(code, i, c, v) || (c == call && v == found)
    {
      EvidenceGrows(code, i, c, v);
    }
    hide Evidence;
    assert Evidence(code, next, call, found);
    forall k: nat, c: nat | k < next && ReachesPlayer(code, k, c)
      ensures |ValuesAt(code, k, c)| <= 1
    {
      if k == i {
        assert c == call;
      }
    }
    assert Collected(code, next, values + {found}, verified + {call});
  }

  lemma SmallSet(s: set<int>, v: int)
    requires s <= {v}
    ensures |s| <= 1 && (s == {} || s == {v})
  {
    if s != {} {
      assert s == {v};
    }
  }

  lemma EmptySet(s: set<int>)
    requires forall v :: v !in s
    ensures s == {}
  {
    assert forall v: int :: v !in s;
  }

  lemma HasElement(s: set<int>)
    requires s != {}
    ensures exists v :: v in s
  {
    if forall v :: v !in s {
      EmptySet(s);
    }
  }

  lemma OneElement(s: set<int>, v: int)
    requires |s| == 1 && v in s
    ensures s == {v}
  {
    var rest := s - {v};
    assert |rest| == 0 && s == rest + {v};
  }

  lemma AmbiguousFails(code: seq<Instruction>, i: nat, c: nat)
    requires ReachesPlayer(code, i, c) && |ValuesAt(code, i, c)| > 1
    ensures forall v :: !Recovered(code, v)
  {
    hide ReachesPlayer;
    hide ValuesAt;
    hide PlayerCall;
    forall v
      ensures !Recovered(code, v)
    {
      if ValuesAt(code, i, c) <= {v} {
        SmallSet(ValuesAt(code, i, c), v);
      }
    }
  }

  ghost predicate Ambiguous(code: seq<Instruction>, i: nat, c: nat) {
    ReachesPlayer(code, i, c) && |ValuesAt(code, i, c)| > 1
  }

  lemma NothingAmbiguous(code: seq<Instruction>, values: set<int>, verified: set<nat>)
    requires Collected(code, |code|, values, verified)
    ensures !exists i: nat, c: nat :: Ambiguous(code, i, c)
  {
    hide ValuesAt;
  }

  lemma RecoveredIsUnique(code: seq<Instruction>, v: int, w: int)
    requires Recovered(code, v) && Recovered(code, w)
    ensures v == w
  {
    hide ReachesPlayer;
    hide ValuesAt;
    var c :| PlayerCall(code, c);
    var i: nat :| ReachesPlayer(code, i, c) && ValuesAt(code, i, c) == {v};
    assert v in ValuesAt(code, i, c) && ValuesAt(code, i, c) <= {w};
  }

  /** With all seeds collected, a stride is recovered exactly when it is the only value and verifies every player call. */
  lemma CollectedDecides(code: seq<Instruction>, values: set<int>, verified: set<nat>, calls: set<nat>, v: int)
    requires Collected(code, |code|, values, verified)
    requires forall c: nat :: c in calls <==> PlayerCall(code, c)
    ensures Recovered(code, v) <==> values == {v} && verified == calls
  {
    if values == {v} && verified == calls {
      OnlyValue(code, values, verified, calls, v);
    }
    if Recovered(code, v) {
      RecoveredCollects(code, values, verified, calls, v);
    }
  }

  lemma OnlyValue(code: seq<Instruction>, values: set<int>, verified: set<nat>, calls: set<nat>, v: int)
    requires Collected(code, |code|, values, verified) && values == {v} && verified == calls
    requires forall c: nat :: c in calls <==> PlayerCall(code, c)
    ensures Recovered(code, v)
  {
    hide ValuesAt;
    hide Reaches;
    forall i: nat, c: nat | ReachesPlayer(code, i, c)
      ensures ValuesAt(code, i, c) <= {v}
    {
      ReachesInside(code, i, c);
      forall w | w in ValuesAt(code, i, c)
        ensures w == v
      {
        assert Evidence(code, |code|, c, w);
        assert w in values;
      }
    }
    forall c | PlayerCall(code, c)
      ensures exists i: nat :: ReachesPlayer(code, i, c) && ValuesAt(code, i, c) == {v}
    {
      var n: nat := c;
      assert n in verified;
      var w :| Evidence(code, |code|, n, w);
      var i: nat :| i < |code| && ReachesPlayer(code, i, n) && w in ValuesAt(code, i, n);
      OneElement(ValuesAt(code, i, n), w);
    }
    assert v in values;
    var c: nat :| Evidence(code, |code|, c, v);
    var i: nat :| i < |code| && ReachesPlayer(code, i, c) && v in ValuesAt(code, i, c);
    ReachesInside(code, i, c);
    assert PlayerCall(code, c);
  }

  lemma ReachesInside(code: seq<Instruction>, i: nat, c: nat)
    requires ReachesPlayer(code, i, c)
    ensures i < |code| && PlayerCall(code, c)
  {}

  lemma RecoveredCollects(code: seq<Instruction>, values: set<int>, verified: set<nat>, calls: set<nat>, v: int)
    requires Collected(code, |code|, values, verified) && Recovered(code, v)
    requires forall c: nat :: c in calls <==> PlayerCall(code, c)
    ensures values == {v} && verified == calls
  {
    forall c: nat
      ensures PlayerCall(code, c) <==> c in verified
      ensures forall w :: Evidence(code, |code|, c, w) ==> w == v
    {
      if PlayerCall(code, c) {
        var i: nat :| ReachesPlayer(code, i, c) && ValuesAt(code, i, c) == {v};
        ReachesInside(code, i, c);
        assert Evidence(code, |code|, c, v);
      }
      forall w | Evidence(code, |code|, c, w)
        ensures w == v && PlayerCall(code, c)
      {
        var i: nat :| i < |code| && ReachesPlayer(code, i, c) && w in ValuesAt(code, i, c);
        ReachesInside(code, i, c);
      }
    }
    hide ReachesPlayer;
    hide ValuesAt;
    var c :| PlayerCall(code, c);
    var n: nat := c;
    assert n in verified;
    var w :| Evidence(code, |code|, n, w);
    hide Evidence;
    assert v in values;
    forall x | x in values
      ensures x == v
    {
      var c: nat :| Evidence(code, |code|, c, x);
    }
    assert values == {v};
    forall c
      ensures c in verified <==> c in calls
    {
      assert c in calls <==> PlayerCall(code, c);
    }
  }

  method RecoverStride(code: seq<Instruction>) returns (r: Result<int, RecoveryError>)
    ensures forall v :: r == Ok(v) <==> Recovered(code, v)
    ensures r == Err(AmbiguousArguments) <==> exists i: nat, c: nat :: Ambiguous(code, i, c)
  {
    hide Values;
    hide FactsAt;
    hide Recovered;
    hide Evidence;
    var values: set<int>, verified: set<nat> := {}, {};
    NoEvidenceYet(code);
    for i := 0 to |code|
      invariant Collected(code, i, values, verified)
    {
      hide Collected;
      if !IsSeed(code, i) {
        NothingNew(code, i, values, verified);
        continue;
      }
      var call, facts := FollowChain(code, i);
      if call.None? || !code[call.value].operation.player {
        NothingNew(code, i, values, verified);
        continue;
      }
      var found := Values(facts);
      assert ReachesPlayer(code, i, call.value) && found == ValuesAt(code, i, call.value);
      hide Reaches;
      if |found| > 1 {
        AmbiguousFails(code, i, call.value);
        assert Ambiguous(code, i, call.value);
        return Err(AmbiguousArguments);
      }
      if found == {} {
        NothingNew(code, i, values, verified);
      } else {
        HasElement(found);
        var v :| v in found;
        OneElementOrNone(found, v);
        SomethingNew(code, i, call.value, v, values, verified);
        values := values + {v};
        verified := verified + {call.value};
      }
    }
    var calls := set c: nat | c < |code| && PlayerCall(code, c);
    forall v
      ensures Recovered(code, v) <==> values == {v} && verified == calls
    {
      CollectedDecides(code, values, verified, calls, v);
    }
    NothingAmbiguous(code, values, verified);
    hide Collected;
    if |values| != 1 || verified != calls {
      return Err(NoUniqueStride);
    }
    HasElement(values);
    var v :| v in values;
    OneElement(values, v);
    return Ok(v);
  }

  lemma NoEvidenceYet(code: seq<Instruction>)
    ensures Collected(code, 0, {}, {})
  {}

  lemma OneElementOrNone(s: set<int>, v: int)
    requires |s| <= 1 && v in s
    ensures s == {v}
  {
    var rest := s - {v};
    assert |rest| == |s| - 1;
    assert s == rest + {v};
  }
}
