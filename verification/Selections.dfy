/** What it means to pick some elements of a list, in order, and turn each into a result. */
module Selections {
  /** How many of the first n elements are kept. */
  ghost function Kept<A(!new)>(from: seq<A>, keeps: A -> bool, n: nat): nat
    requires n <= |from|
  {
    if n == 0 then 0 else Kept(from, keeps, n - 1) + if keeps(from[n - 1]) then 1 else 0
  }

  /** There is one result for each element that is kept, in the same order, and it is what the element becomes. */
  ghost predicate Selects<A(!new), B(!new)>(from: seq<A>, to: seq<B>, keeps: A -> bool, becomes: (A, B) -> bool) {
    && |to| == Kept(from, keeps, |from|)
    && forall i | 0 <= i < |from| :: keeps(from[i]) ==> Turns(from[i], to, Kept(from, keeps, i), becomes)
  }

  ghost predicate Turns<A(!new), B(!new)>(a: A, to: seq<B>, k: nat, becomes: (A, B) -> bool) {
    k < |to| && becomes(a, to[k])
  }

  lemma {:induction false} KeptBefore<A(!new)>(from: seq<A>, a: A, keeps: A -> bool, n: nat)
    requires n <= |from|
    ensures Kept(from + [a], keeps, n) == Kept(from, keeps, n)
  {
    if n > 0 {
      KeptBefore(from, a, keeps, n - 1);
      assert (from + [a])[n - 1] == from[n - 1];
    }
  }

  lemma KeptInAll<A(!new)>(from: seq<A>, a: A, keeps: A -> bool)
    ensures Kept(from + [a], keeps, |from| + 1) == Kept(from, keeps, |from|) + if keeps(a) then 1 else 0
  {
    KeptBefore(from, a, keeps, |from|);
    assert (from + [a])[|from|] == a;
  }

  lemma OneKept<A(!new), B(!new)>(from: seq<A>, to: seq<B>, keeps: A -> bool, becomes: (A, B) -> bool, a: A, b: B)
    requires Selects(from, to, keeps, becomes) && keeps(a) && becomes(a, b)
    ensures Selects(from + [a], to + [b], keeps, becomes)
  {
    KeptInAll(from, a, keeps);
    var all, more := from + [a], to + [b];
    forall i | 0 <= i < |all| ensures keeps(all[i]) ==> Turns(all[i], more, Kept(all, keeps, i), becomes) {
      KeptBefore(from, a, keeps, i);
      if i < |from| {
        assert all[i] == from[i];
      }
    }
  }

  lemma OneDropped<A(!new), B(!new)>(from: seq<A>, to: seq<B>, keeps: A -> bool, becomes: (A, B) -> bool, a: A)
    requires Selects(from, to, keeps, becomes) && !keeps(a)
    ensures Selects(from + [a], to, keeps, becomes)
  {
    KeptInAll(from, a, keeps);
    var all := from + [a];
    forall i | 0 <= i < |all| ensures keeps(all[i]) ==> Turns(all[i], to, Kept(all, keeps, i), becomes) {
      KeptBefore(from, a, keeps, i);
      if i < |from| {
        assert all[i] == from[i];
      }
    }
  }

  lemma {:induction false} AllKept<A(!new)>(from: seq<A>, keeps: A -> bool, n: nat)
    requires n <= |from| && forall a <- from :: keeps(a)
    ensures Kept(from, keeps, n) == n
  {
    if n > 0 {
      AllKept(from, keeps, n - 1);
    }
  }
}
