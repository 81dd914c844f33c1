/** How many polls a deadline can last when every sleep takes at least one poll interval. */
module SchedulerClock {
  function Rounds(t: real, poll: real): nat
    requires poll > 0.0
  {
    if t < 0.0 then 0 else
      FloorSign(t, poll);
      (t / poll).Floor + 1
  }

  lemma FloorSign(t: real, poll: real)
    requires poll > 0.0 && t >= 0.0
    ensures t / poll >= 0.0
  {}

  lemma DivisionMonotone(t: real, u: real, poll: real)
    requires poll > 0.0 && t <= u
    ensures t / poll <= u / poll
  {}

  lemma DivisionStep(u: real, poll: real)
    requires poll > 0.0
    ensures (u - poll) / poll == u / poll - 1.0
  {
    var q := u / poll;
    assert q * poll == u;
    assert (q - 1.0) * poll == u - poll;
    Quotient(u - poll, q - 1.0, poll);
  }

  lemma Quotient(a: real, q: real, p: real)
    requires p > 0.0 && q * p == a
    ensures a / p == q
  {
    var r := a / p;
    assert r * p == a;
    assert (r - q) * p == 0.0;
  }

  lemma RoundsMonotone(t: real, u: real, poll: real)
    requires poll > 0.0 && t <= u
    ensures Rounds(t, poll) <= Rounds(u, poll)
  {
    if t >= 0.0 {
      DivisionMonotone(t, u, poll);
    }
  }

  /** One poll interval costs one round. */
  lemma RoundsStep(t: real, u: real, poll: real)
    requires poll > 0.0 && t <= u - poll && u >= 0.0
    ensures Rounds(t, poll) + 1 <= Rounds(u, poll)
  {
    if t >= 0.0 {
      DivisionMonotone(t, u - poll, poll);
      DivisionStep(u, poll);
    }
  }

  /** `n` times `x`. */
  function Times(n: nat, x: nat): nat {
    if n == 0 then 0 else Times(n - 1, x) + x
  }

  lemma {:induction false} TimesIsProduct(n: nat, x: nat)
    ensures Times(n, x) == n * x
  {
    if n > 0 {
      TimesIsProduct(n - 1, x);
    }
  }
}
