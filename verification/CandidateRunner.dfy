/**
 * The loops of candidate ordering, against a live breaker: candidates are classified one after the
 * other, and classifying one may cool the cell of the next. Grouping and pinning work on whole
 * deployments.
 */
module CandidateRunner {
  import opened Common
  import opened BreakerCells
  import opened BreakerStates
  import opened Breaker
  import opened Sorting
  import opened Ordering

  /** `targetUsability`. */
  method TargetUsability(a: Attempt, breaker: CircuitBreaker, terms: Terms, now: int) returns (u: Usability)
    requires breaker.Valid() && now >= 0
    modifies breaker`cells, breaker`trails
    ensures breaker.Valid()
    ensures u == BandOf(old(breaker.cells), a, terms, now)
            && breaker.cells == Touched(old(breaker.cells), a, terms, now)
  {
    hide CircuitBreaker.Valid, Apply;
    var t := terms(a);
    if !breaker.IsHealthy(a.target, now) { return Cooling; }
    if t.allowanceUntil.Some? && now < t.allowanceUntil.value { return Cooling; }
    if t.spentUntil.Some? {
      breaker.RecordQuotaCooldown(a.target, t.spentUntil.value, now);
      return Cooling;
    }
    if breaker.HasCredentialFault(a.target, now) { return Faulted; }
    if t.paced { return Paced; }
    if t.slow { return Slow; }
    if t.unproven { return Probation; }
    return Live;
  }

  /**
   * `orderByUsabilityTracked`, and `orderDeploymentGroupsByUsability` on group leaders. Although
   * each candidate is judged against a breaker its predecessors may have cooled, the result is the
   * order that the breaker as it stood at the start calls for.
   */
  method OrderByUsability<T>(items: seq<T>, rep: T -> Attempt, breaker: CircuitBreaker, terms: Terms, now: int)
    returns (ordered: seq<T>)
    requires breaker.Valid() && now >= 0 && SpentByCell(terms)
    modifies breaker`cells, breaker`trails
    ensures breaker.Valid() && breaker.cells == TouchedAll(old(breaker.cells), items, rep, terms, now)
    ensures ordered == Ordered(old(breaker.cells), items, rep, terms, now)
  {
    hide CircuitBreaker.Valid, BandOf, Touched, CooledOnlyIfSpent, SpentByCell, InBand, CoolingOrder;
    ghost var s := breaker.cells;
    var probation, live, slow, paced, faulted, cooling := [], [], [], [], [], [];
    EmptyBands(s, rep, terms, now);
    for i := 0 to |items|
      invariant breaker.Valid() && breaker.cells == TouchedAll(s, items[..i], rep, terms, now)
      invariant probation == InBand(s, items[..i], rep, terms, now, Probation)
                && live == InBand(s, items[..i], rep, terms, now, Live)
      invariant slow == InBand(s, items[..i], rep, terms, now, Slow)
                && paced == InBand(s, items[..i], rep, terms, now, Paced)
      invariant faulted == InBand(s, items[..i], rep, terms, now, Faulted)
      invariant cooling == InBand(s, items[..i], rep, terms, now, Cooling)
    {
      TouchedAllCools(s, items[..i], rep, terms, now);
      BandsAgree(s, breaker.cells, rep(items[i]), terms, now);
      assert items[..i + 1] == items[..i] + [items[i]] && items[..i + 1][..i] == items[..i];
      NextBands(s, items[..i], items[i], rep, terms, now);
      var u := TargetUsability(rep(items[i]), breaker, terms, now);
      match u
      case Probation => probation := probation + [items[i]];
      case Live => live := live + [items[i]];
      case Slow => slow := slow + [items[i]];
      case Paced => paced := paced + [items[i]];
      case Faulted => faulted := faulted + [items[i]];
      case Cooling => cooling := cooling + [items[i]];
    }
    assert items[..|items|] == items;
    ordered := probation + live + slow + paced + faulted + CoolingOrder(breaker.cells, cooling, rep, terms, now);
  }

  lemma NextBands<T>(s: Cells, items: seq<T>, x: T, rep: T -> Attempt, terms: Terms, now: int)
    ensures forall band :: InBand(s, items + [x], rep, terms, now, band)
              == if band == BandOf(s, rep(x), terms, now) then InBand(s, items, rep, terms, now, band) + [x]
                 else InBand(s, items, rep, terms, now, band)
  {
    hide BandOf, InBand;
    forall band
      ensures InBand(s, items + [x], rep, terms, now, band)
              == if band == BandOf(s, rep(x), terms, now) then InBand(s, items, rep, terms, now, band) + [x]
                 else InBand(s, items, rep, terms, now, band)
    {
      InBandStep(s, items, x, rep, terms, now, band);
    }
  }

  lemma EmptyBands<T>(s: Cells, rep: T -> Attempt, terms: Terms, now: int)
    ensures forall band :: InBand(s, [], rep, terms, now, band) == []
    ensures TouchedAll(s, [], rep, terms, now) == s
  {
  }

  // ---------------------------------------------------------------- deployments

  /** One deployment and its credential slots; never empty. */
  datatype Group = Group(lead: Attempt, rest: seq<Attempt>) {
    function Attempts(): seq<Attempt> {
      [lead] + rest
    }
  }

  predicate IsGroup(g: Group) {
    forall i :: 0 <= i < |g.rest| ==> g.rest[i].groupKey == g.lead.groupKey
  }

  predicate AreGroups(gs: seq<Group>) {
    && (forall i :: 0 <= i < |gs| ==> IsGroup(gs[i]))
    && forall i, j :: 0 <= i < j < |gs| ==> gs[i].lead.groupKey != gs[j].lead.groupKey
  }

  /** One more attempt joins the group of its deployment, or founds one at the end. */
  function Join(gs: seq<Group>, a: Attempt): seq<Group> {
    if |gs| == 0 then [Group(a, [])]
    else if gs[0].lead.groupKey == a.groupKey then [gs[0].(rest := gs[0].rest + [a])] + gs[1..]
    else [gs[0]] + Join(gs[1..], a)
  }

  /** `groupCredentialAttempts`: by deployment, in the order of first sight. */
  function GroupsOf(attempts: seq<Attempt>): seq<Group> {
    if |attempts| == 0 then [] else Join(GroupsOf(attempts[..|attempts| - 1]), attempts[|attempts| - 1])
  }

  function Flat(gs: seq<Group>): seq<Attempt> {
    if |gs| == 0 then [] else Flat(gs[..|gs| - 1]) + gs[|gs| - 1].Attempts()
  }

  predicate NoKey(gs: seq<Group>, key: string) {
    forall i :: 0 <= i < |gs| ==> gs[i].lead.groupKey != key
  }

  lemma {:induction false} JoinHolds(gs: seq<Group>, a: Attempt)
    requires AreGroups(gs)
    ensures AreGroups(Join(gs, a))
    ensures forall key :: key != a.groupKey && NoKey(gs, key) ==> NoKey(Join(gs, a), key)
  {
    if |gs| > 0 && gs[0].lead.groupKey != a.groupKey {
      JoinHolds(gs[1..], a);
      assert NoKey(gs[1..], gs[0].lead.groupKey);
      forall key | key != a.groupKey && NoKey(gs, key) ensures NoKey(Join(gs, a), key) {
        assert NoKey(gs[1..], key);
      }
    }
  }

  lemma {:induction false} GroupsAreGroups(attempts: seq<Attempt>)
    ensures AreGroups(GroupsOf(attempts))
  {
    if |attempts| > 0 {
      GroupsAreGroups(attempts[..|attempts| - 1]);
      JoinHolds(GroupsOf(attempts[..|attempts| - 1]), attempts[|attempts| - 1]);
    }
  }

  lemma {:induction false} JoinLast(gs: seq<Group>, g: Group, a: Attempt)
    requires NoKey(gs, a.groupKey)
    ensures g.lead.groupKey == a.groupKey ==> Join(gs + [g], a) == gs + [g.(rest := g.rest + [a])]
    ensures Join(gs, a) == gs + [Group(a, [])]
  {
    if |gs| > 0 {
      assert (gs + [g])[1..] == gs[1..] + [g];
      JoinLast(gs[1..], g, a);
    }
  }

  lemma {:induction false} GroupsAppend(attempts: seq<Attempt>, gs: seq<Group>, lead: Attempt, rest: seq<Attempt>)
    requires GroupsOf(attempts) == gs && NoKey(gs, lead.groupKey) && IsGroup(Group(lead, rest))
    ensures GroupsOf(attempts + [lead] + rest) == gs + [Group(lead, rest)]
  {
    if |rest| == 0 {
      assert attempts + [lead] + rest == attempts + [lead];
      assert (attempts + [lead])[..|attempts|] == attempts;
      JoinLast(gs, Group(lead, []), lead);
    } else {
      var init, last := rest[..|rest| - 1], rest[|rest| - 1];
      GroupsAppend(attempts, gs, lead, init);
      var whole := attempts + [lead] + rest;
      assert whole[..|whole| - 1] == attempts + [lead] + init;
      JoinLast(gs, Group(lead, init), last);
      assert rest == init + [last];
    }
  }

  lemma EmptyGroups()
    ensures GroupsOf([]) == []
  {
  }

  /** Grouping what groups flatten to gives the groups back: no deployment is split or merged. */
  lemma {:induction false} GroupsOfFlat(gs: seq<Group>)
    requires AreGroups(gs)
    ensures GroupsOf(Flat(gs)) == gs
  {
    hide GroupsOf, IsGroup;
    EmptyGroups();
    if |gs| > 0 {
      var init, g := gs[..|gs| - 1], gs[|gs| - 1];
      GroupsOfFlat(init);
      GroupsAppend(Flat(init), init, g.lead, g.rest);
      assert Flat(init) + [g.lead] + g.rest == Flat(gs);
      assert gs == init + [g];
    }
  }

  // ---------------------------------------------------------------- pinning

  datatype Pin = NotInPool | NotLive(usability: Usability) | Degraded | Natural | Reordered

  /** The first deployment whose leader bears the pinned name. */
  function FindPin(gs: seq<Group>, pin: string): (i: nat)
    ensures i <= |gs|
    ensures i < |gs| ==> gs[i].lead.spec == pin
    ensures forall j :: 0 <= j < i ==> gs[j].lead.spec != pin
  {
    if |gs| == 0 then 0 else if gs[0].lead.spec == pin then 0 else 1 + FindPin(gs[1..], pin)
  }

  /** One group moved to the front, the others as they were. */
  function ToFront(gs: seq<Group>, i: nat): seq<Group>
    requires i < |gs|
  {
    [gs[i]] + gs[..i] + gs[i + 1..]
  }

  /** Some deployment outside the degraded ones is live. */
  method LiveElsewhere(gs: seq<Group>, degraded: set<string>, breaker: CircuitBreaker, terms: Terms, now: int)
    returns (found: bool)
    requires breaker.Valid() && now >= 0 && SpentByCell(terms)
    modifies breaker`cells, breaker`trails
    ensures breaker.Valid() && CooledOnlyIfSpent(old(breaker.cells), breaker.cells, terms, now)
    ensures found <==> exists i :: 0 <= i < |gs| && gs[i].lead.spec !in degraded
                                   && BandOf(old(breaker.cells), gs[i].lead, terms, now) == Live
  {
    hide CircuitBreaker.Valid, BandOf, Touched, CooledOnlyIfSpent, SpentByCell;
    ghost var s := breaker.cells;
    CooledNothing(s, terms, now);
    found := false;
    var i := 0;
    while i < |gs| && !found
      invariant 0 <= i <= |gs| && breaker.Valid() && CooledOnlyIfSpent(s, breaker.cells, terms, now)
      invariant !found ==> forall j :: 0 <= j < i && gs[j].lead.spec !in degraded ==>
                  BandOf(s, gs[j].lead, terms, now) != Live
      invariant found ==> i > 0 && gs[i - 1].lead.spec !in degraded && BandOf(s, gs[i - 1].lead, terms, now) == Live
    {
      if gs[i].lead.spec !in degraded {
        ghost var before := breaker.cells;
        BandsAgree(s, before, gs[i].lead, terms, now);
        TouchedCools(before, gs[i].lead, terms, now);
        var u := TargetUsability(gs[i].lead, breaker, terms, now);
        CooledTrans(s, before, breaker.cells, terms, now);
        found := u == Live;
      }
      i := i + 1;
    }
  }

  /** A deployment outside the degraded ones has a live leader. */
  ghost predicate LiveOutside(gs: seq<Group>, degraded: set<string>, s: Cells, terms: Terms, now: int) {
    exists j :: 0 <= j < |gs| && gs[j].lead.spec !in degraded && BandOf(s, gs[j].lead, terms, now) == Live
  }

  /**
   * `applyStickyOrdering`: each answer is given exactly when it is due. The pool is left exactly as it
   * is unless the pin is live, stands behind another deployment and is not passed over as degraded;
   * then its deployment goes to the front and every other keeps its place and its slots.
   */
  method ApplyStickyOrdering(ordered: seq<Attempt>, pin: string, breaker: CircuitBreaker, degraded: set<string>,
        terms: Terms, now: int)
    returns (targets: seq<Attempt>, status: Pin)
    requires breaker.Valid() && now >= 0 && SpentByCell(terms)
    modifies breaker`cells, breaker`trails
    ensures breaker.Valid() && CooledOnlyIfSpent(old(breaker.cells), breaker.cells, terms, now)
    ensures status == NotInPool <==> forall g :: g in GroupsOf(ordered) ==> g.lead.spec != pin
    ensures status != NotInPool ==>
              var gs, i := GroupsOf(ordered), FindPin(GroupsOf(ordered), pin);
              var u := BandOf(old(breaker.cells), gs[i].lead, terms, now);
              var passedOver := pin in degraded && LiveOutside(gs, degraded, old(breaker.cells), terms, now);
              && (forall v :: status == NotLive(v) <==> u != Live && v == u)
              && (status == Degraded <==> u == Live && passedOver)
              && (status == Natural <==> u == Live && !passedOver && i == 0)
              && (status == Reordered <==> u == Live && !passedOver && i > 0)
    ensures if status == Reordered
            then && targets == Flat(ToFront(GroupsOf(ordered), FindPin(GroupsOf(ordered), pin)))
                 && GroupsOf(targets) == ToFront(GroupsOf(ordered), FindPin(GroupsOf(ordered), pin))
                 && multiset(targets) == multiset(ordered)
            else targets == ordered
  {
    hide CircuitBreaker.Valid, BandOf, Touched, CooledOnlyIfSpent, SpentByCell, GroupsOf, Flat;
    targets := ordered;
    ghost var s := breaker.cells;
    CooledNothing(s, terms, now);
    var gs := GroupsOf(ordered);
    var i := FindPin(gs, pin);
    if i == |gs| { return targets, NotInPool; }
    TouchedCools(s, gs[i].lead, terms, now);
    var u := TargetUsability(gs[i].lead, breaker, terms, now);
    if u != Live { return targets, NotLive(u); }
    if pin in degraded {
      ghost var after := breaker.cells;
      var live := LiveElsewhere(gs, degraded, breaker, terms, now);
      forall j | 0 <= j < |gs| { BandsAgree(s, after, gs[j].lead, terms, now); }
      CooledTrans(s, after, breaker.cells, terms, now);
      if live { return targets, Degraded; }
    }
    if i == 0 { return targets, Natural; }
    ReorderedHolds(ordered, i);
    return Flat(ToFront(gs, i)), Reordered;
  }

  lemma {:induction false} ReorderedHolds(ordered: seq<Attempt>, i: nat)
    requires i < |GroupsOf(ordered)|
    ensures GroupsOf(Flat(ToFront(GroupsOf(ordered), i))) == ToFront(GroupsOf(ordered), i)
    ensures multiset(Flat(ToFront(GroupsOf(ordered), i))) == multiset(ordered)
  {
    hide GroupsOf, Flat, IsGroup;
    var gs := GroupsOf(ordered);
    GroupsAreGroups(ordered);
    FrontIsGroups(gs, i);
    GroupsOfFlat(ToFront(gs, i));
    FlatConcat([gs[i]], gs[..i]);
    FlatConcat([gs[i]] + gs[..i], gs[i + 1..]);
    FlatConcat(gs[..i], [gs[i]]);
    FlatConcat(gs[..i] + [gs[i]], gs[i + 1..]);
    assert gs == gs[..i] + [gs[i]] + gs[i + 1..];
    FlatOfGroups(ordered);
  }

  lemma FrontIsGroups(gs: seq<Group>, i: nat)
    requires AreGroups(gs) && i < |gs|
    ensures AreGroups(ToFront(gs, i))
  {
    hide IsGroup;
  }

  lemma {:induction false} FlatConcat(xs: seq<Group>, ys: seq<Group>)
    ensures Flat(xs + ys) == Flat(xs) + Flat(ys)
  {
    if |ys| == 0 {
      assert xs + ys == xs;
    } else {
      assert (xs + ys)[..|xs + ys| - 1] == xs + ys[..|ys| - 1];
      FlatConcat(xs, ys[..|ys| - 1]);
    }
  }

  lemma {:induction false} JoinFlat(gs: seq<Group>, a: Attempt)
    ensures multiset(Flat(Join(gs, a))) == multiset(Flat(gs)) + multiset{a}
  {
    if |gs| > 0 {
      var head, tail := [gs[0]], gs[1..];
      assert gs == head + tail;
      FlatConcat(head, tail);
      if gs[0].lead.groupKey == a.groupKey {
        var joined := [gs[0].(rest := gs[0].rest + [a])];
        FlatConcat(joined, tail);
      } else {
        JoinFlat(tail, a);
        FlatConcat(head, Join(tail, a));
      }
    } else {
    }
  }

  lemma NoGroups()
    ensures Flat([]) == []
  {
  }

  lemma {:induction false} FlatOfGroups(attempts: seq<Attempt>)
    ensures multiset(Flat(GroupsOf(attempts))) == multiset(attempts)
  {
    hide Join, Flat;
    assert Flat([]) == [] by { NoGroups(); }
    if |attempts| > 0 {
      FlatOfGroups(attempts[..|attempts| - 1]);
      JoinFlat(GroupsOf(attempts[..|attempts| - 1]), attempts[|attempts| - 1]);
      assert attempts == attempts[..|attempts| - 1] + [attempts[|attempts| - 1]];
    }
  }
}
