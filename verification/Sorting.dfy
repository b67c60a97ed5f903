/** The stable sort by lift time that probing and candidate ordering share: an unknown time is last. */
module Sorting {
  import opened Common

  datatype Lift<T> = Lift(item: T, at: Option<int>)

  /** The order of lift times: earlier first, unknown last. */
  predicate NotAfter(a: Option<int>, b: Option<int>) {
    b.None? || (a.Some? && a.value <= b.value)
  }

  predicate InLiftOrder<T>(s: seq<Lift<T>>) {
    forall i, j :: 0 <= i < j < |s| ==> NotAfter(s[i].at, s[j].at)
  }

  /** The place of one entry in a sorted list: after everything that does not lift later. */
  function Insert<T>(s: seq<Lift<T>>, x: Lift<T>): seq<Lift<T>> {
    if |s| == 0 || NotAfter(s[|s| - 1].at, x.at) then s + [x] else Insert(s[..|s| - 1], x) + [s[|s| - 1]]
  }

  function SortByLift<T>(s: seq<Lift<T>>): seq<Lift<T>> {
    if |s| == 0 then [] else Insert(SortByLift(s[..|s| - 1]), s[|s| - 1])
  }

  /** The entries that lift at one time, in order. */
  function At<T>(s: seq<Lift<T>>, at: Option<int>): seq<Lift<T>> {
    if |s| == 0 then []
    else At(s[..|s| - 1], at) + if s[|s| - 1].at == at then [s[|s| - 1]] else []
  }

  lemma {:induction false} InsertMembers<T>(s: seq<Lift<T>>, x: Lift<T>)
    ensures multiset(Insert(s, x)) == multiset(s) + multiset{x}
  {
    if |s| > 0 {
      assert s == s[..|s| - 1] + [s[|s| - 1]];
      InsertMembers(s[..|s| - 1], x);
    }
  }

  lemma {:induction false} InsertInOrder<T>(s: seq<Lift<T>>, x: Lift<T>)
    requires InLiftOrder(s)
    ensures InLiftOrder(Insert(s, x))
  {
    if |s| > 0 && !NotAfter(s[|s| - 1].at, x.at) {
      var init, last := s[..|s| - 1], s[|s| - 1];
      InsertInOrder(init, x);
      InsertMembers(init, x);
      var r := Insert(init, x);
      forall i | 0 <= i < |r| ensures NotAfter(r[i].at, last.at) {
        assert r[i] in multiset(init) + multiset{x};
      }
    }
  }

  lemma {:induction false} InsertStable<T>(s: seq<Lift<T>>, x: Lift<T>, at: Option<int>)
    ensures At(Insert(s, x), at) == At(s, at) + if x.at == at then [x] else []
  {
    if |s| == 0 || NotAfter(s[|s| - 1].at, x.at) {
      assert (s + [x])[..|s|] == s;
    } else {
      var init, last := s[..|s| - 1], s[|s| - 1];
      InsertStable(init, x, at);
      assert (Insert(init, x) + [last])[..|Insert(init, x)|] == Insert(init, x);
    }
  }

  /** The sort is a permutation, in order, and stable: entries that lift together keep their order. */
  lemma {:induction false} SortHolds<T>(s: seq<Lift<T>>, at: Option<int>)
    ensures InLiftOrder(SortByLift(s)) && multiset(SortByLift(s)) == multiset(s)
    ensures At(SortByLift(s), at) == At(s, at)
  {
    hide Insert, At;
    if |s| > 0 {
      var init, last := s[..|s| - 1], s[|s| - 1];
      SortHolds(init, at);
      SortStep(s, init, last, SortByLift(init), at);
    }
  }

  lemma {:induction false} SortStep<T>(s: seq<Lift<T>>, init: seq<Lift<T>>, last: Lift<T>, sorted: seq<Lift<T>>,
        at: Option<int>)
    requires s == init + [last] && InLiftOrder(sorted) && multiset(sorted) == multiset(init)
             && At(sorted, at) == At(init, at)
    ensures InLiftOrder(Insert(sorted, last)) && multiset(Insert(sorted, last)) == multiset(s)
    ensures At(Insert(sorted, last), at) == At(s, at)
  {
    hide Insert, InLiftOrder;
    InsertMembers(sorted, last);
    InsertInOrder(sorted, last);
    InsertStable(sorted, last, at);
    assert s[..|s| - 1] == init;
  }

  /** Sorting what is sorted changes nothing. */
  lemma {:induction false} SortedIsFixed<T>(s: seq<Lift<T>>)
    requires InLiftOrder(s)
    ensures SortByLift(s) == s
  {
    if |s| > 0 {
      SortedIsFixed(s[..|s| - 1]);
      assert s == s[..|s| - 1] + [s[|s| - 1]];
      if |s| > 1 { assert NotAfter(s[|s| - 2].at, s[|s| - 1].at); }
    }
  }
}
