/** Filtering of sequences, and what it keeps of their order. */
module Sequences {
  lemma Associative<T>(a: seq<T>, b: seq<T>, c: seq<T>)
    ensures a + (b + c) == (a + b) + c
  {}

  lemma InitLast<T>(s: seq<T>)
    requires s != []
    ensures s == s[..|s| - 1] + [s[|s| - 1]]
  {}

  lemma PrefixOne<T>(s: seq<T>, i: nat)
    requires i < |s|
    ensures s[..i + 1] == s[..i] + [s[i]]
  {}

  lemma WholePrefix<T>(s: seq<T>)
    ensures s[..|s|] == s
  {}

  function Select<T(!new)>(s: seq<T>, keep: T -> bool): (r: seq<T>)
    ensures forall x :: x in r <==> x in s && keep(x)
  {
    if s == [] then []
    else
      var (init, last) := (s[..|s| - 1], s[|s| - 1]);
      assert s == init + [last];
      Select(init, keep) + if keep(last) then [last] else []
  }

  lemma SelectOne<T(!new)>(s: seq<T>, x: T, keep: T -> bool)
    ensures Select(s + [x], keep) == Select(s, keep) + if keep(x) then [x] else []
  {
    assert (s + [x])[..|s|] == s;
  }

  lemma SelectNone<T(!new)>(keep: T -> bool)
    ensures Select([], keep) == []
  {}

  lemma {:induction false} SelectConcat<T(!new)>(a: seq<T>, b: seq<T>, keep: T -> bool)
    ensures Select(a + b, keep) == Select(a, keep) + Select(b, keep)
  {
    hide Select;
    if b == [] {
      assert a + b == a;
      SelectNone(keep);
    } else {
      var (init, last) := (b[..|b| - 1], b[|b| - 1]);
      SelectConcat(a, init, keep);
      InitLast(b);
      Associative(a, init, [last]);
      SelectOne(init, last, keep);
      SelectOne(a + init, last, keep);
      Associative(Select(a, keep), Select(init, keep), if keep(last) then [last] else []);
    }
  }

  /** What stands in order in the selection stands in order in the sequence. */
  lemma {:induction false} SelectEmbeds<T(!new)>(s: seq<T>, keep: T -> bool, x: nat, y: nat) returns (i: nat, j: nat)
    requires x <= y < |Select(s, keep)|
    ensures i <= j < |s| && s[i] == Select(s, keep)[x] && s[j] == Select(s, keep)[y]
  {
    var (init, last) := (s[..|s| - 1], s[|s| - 1]);
    if y < |Select(init, keep)| {
      i, j := SelectEmbeds(init, keep, x, y);
    } else {
      j := |s| - 1;
      if x < y {
        i, j := SelectEmbeds(init, keep, x, x);
        j := |s| - 1;
      } else {
        i := j;
      }
    }
  }

  /** A selection from a sequence without repetitions has none. */
  lemma {:induction false} SelectDistinct<T(!new)>(s: seq<T>, keep: T -> bool)
    requires forall i, j :: 0 <= i < j < |s| ==> s[i] != s[j]
    ensures forall i, j :: 0 <= i < j < |Select(s, keep)| ==> Select(s, keep)[i] != Select(s, keep)[j]
  {
    if s != [] {
      var (init, last) := (s[..|s| - 1], s[|s| - 1]);
      SelectDistinct(init, keep);
      assert last !in init;
    }
  }
}
