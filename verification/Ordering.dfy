/**
 * Candidate ordering: every candidate is put in a band by what the breaker and the demotion terms
 * say about it, and the bands are laid end to end. Classifying may itself cool a spent cell.
 */
module Ordering {
  import opened Common
  import opened BreakerCells
  import opened BreakerStates
  import opened Sorting

  /** Bands from the front of the order to its end. */
  datatype Usability = Probation | Live | Slow | Paced | Faulted | Cooling

  /** One credential slot of one deployment: its target, the key of its deployment, and its public name. */
  datatype Attempt = Attempt(target: Target, groupKey: string, spec: string)

  /** What the demotion terms say about a candidate at one instant. */
  datatype Signals = Signals(allowanceUntil: Option<int>, spentUntil: Option<int>, paced: bool, slow: bool,
      unproven: bool)

  type Terms = Attempt -> Signals

  /** A spent allowance is a statement about the cell, whoever asks. */
  ghost predicate SpentByCell(terms: Terms) {
    forall a: Attempt, b: Attempt :: KeyOf(a.target) == KeyOf(b.target) ==> terms(a).spentUntil == terms(b).spentUntil
  }

  function UntilOf(s: Cells, t: Target): int {
    if KeyOf(t) in s.at then s.at[KeyOf(t)].cooldownUntil else 0
  }

  predicate Healthy(s: Cells, t: Target, now: int) {
    KeyOf(t) !in s.at || s.at[KeyOf(t)].cooldownUntil <= now
  }

  predicate HasFault(s: Cells, t: Target, now: int) {
    KeyOf(t) in s.at && s.at[KeyOf(t)].credentialFaultUntil > now
  }

  /** `recordQuotaCooldown`. */
  function QuotaRecorded(s: Cells, t: Target, until: int, now: int): Cells {
    if until <= now then s else Apply(s, t, [QuotaUntil(until, now)])
  }

  /** The band of a candidate against one state of the breaker. */
  function BandOf(s: Cells, a: Attempt, terms: Terms, now: int): Usability {
    var t := terms(a);
    if !Healthy(s, a.target, now) then Cooling
    else if t.allowanceUntil.Some? && now < t.allowanceUntil.value then Cooling
    else if t.spentUntil.Some? then Cooling
    else if HasFault(s, a.target, now) then Faulted
    else if t.paced then Paced
    else if t.slow then Slow
    else if t.unproven then Probation
    else Live
  }

  /** What classifying a candidate does to the breaker: a spent cell that reads healthy is cooled. */
  function Touched(s: Cells, a: Attempt, terms: Terms, now: int): Cells {
    var t := terms(a);
    if Healthy(s, a.target, now) && !(t.allowanceUntil.Some? && now < t.allowanceUntil.value) && t.spentUntil.Some?
    then QuotaRecorded(s, a.target, t.spentUntil.value, now)
    else s
  }

  /** The breaker after classifying candidates one after the other. */
  function TouchedAll<T>(s: Cells, items: seq<T>, rep: T -> Attempt, terms: Terms, now: int): Cells {
    if |items| == 0 then s
    else Touched(TouchedAll(s, items[..|items| - 1], rep, terms, now), rep(items[|items| - 1]), terms, now)
  }

  /** `coolingLiftTime`. */
  function LiftOf(s: Cells, a: Attempt, terms: Terms, now: int): Option<int> {
    if UntilOf(s, a.target) > now && KeyOf(a.target) in s.at then Some(UntilOf(s, a.target))
    else if terms(a).allowanceUntil.Some? && terms(a).allowanceUntil.value > now then terms(a).allowanceUntil
    else None
  }

  /** The candidates of one band, in order, as one fixed state of the breaker sees them. */
  function InBand<T>(s: Cells, items: seq<T>, rep: T -> Attempt, terms: Terms, now: int, band: Usability): seq<T> {
    if |items| == 0 then []
    else InBand(s, items[..|items| - 1], rep, terms, now, band)
         + if BandOf(s, rep(items[|items| - 1]), terms, now) == band then [items[|items| - 1]] else []
  }

  function WithLifts<T>(s: Cells, items: seq<T>, rep: T -> Attempt, terms: Terms, now: int): (r: seq<Lift<T>>)
    ensures |r| == |items|
    ensures forall i :: 0 <= i < |items| ==> r[i] == Lift(items[i], LiftOf(s, rep(items[i]), terms, now))
  {
    seq(|items|, i requires 0 <= i < |items| => Lift(items[i], LiftOf(s, rep(items[i]), terms, now)))
  }

  function ItemsOf<T>(lifts: seq<Lift<T>>): (r: seq<T>)
    ensures |r| == |lifts| && forall i :: 0 <= i < |lifts| ==> r[i] == lifts[i].item
  {
    seq(|lifts|, i requires 0 <= i < |lifts| => lifts[i].item)
  }

  /** The cooling band, by lift time against the breaker as it stands after classifying. */
  function CoolingOrder<T>(s: Cells, cooling: seq<T>, rep: T -> Attempt, terms: Terms, now: int): seq<T> {
    ItemsOf(SortByLift(WithLifts(s, cooling, rep, terms, now)))
  }

  /** The order: bands end to end, judged against the breaker as it stood before. */
  function Ordered<T>(s: Cells, items: seq<T>, rep: T -> Attempt, terms: Terms, now: int): seq<T> {
    InBand(s, items, rep, terms, now, Probation) + InBand(s, items, rep, terms, now, Live)
    + InBand(s, items, rep, terms, now, Slow) + InBand(s, items, rep, terms, now, Paced)
    + InBand(s, items, rep, terms, now, Faulted)
    + CoolingOrder(TouchedAll(s, items, rep, terms, now), InBand(s, items, rep, terms, now, Cooling), rep, terms, now)
  }

  // ---------------------------------------------------------------- what the bands mean

  /** What speaks for each of the four lower bands. */
  predicate SpeaksFor(s: Cells, a: Attempt, terms: Terms, now: int, band: Usability) {
    match band
    case Cooling =>
      || (KeyOf(a.target) in s.at && s.at[KeyOf(a.target)].cooldownUntil > now)
      || (terms(a).allowanceUntil.Some? && terms(a).allowanceUntil.value > now)
      || terms(a).spentUntil.Some?
    case Faulted => KeyOf(a.target) in s.at && s.at[KeyOf(a.target)].credentialFaultUntil > now
    case Paced => terms(a).paced
    case Slow => terms(a).slow
    case _ => false
  }

  /**
   * A candidate lands in the lowest band anything speaks for. Only one that nothing speaks against is
   * put on probation or live, by whether it is unproven.
   */
  lemma LowestBandWins(s: Cells, a: Attempt, terms: Terms, now: int)
    ensures var u := BandOf(s, a, terms, now);
            && (forall band :: SpeaksFor(s, a, terms, now, band) ==> Rank(band) <= Rank(u))
            && (u != Probation && u != Live ==> SpeaksFor(s, a, terms, now, u))
            && (u == Probation ==> terms(a).unproven) && (u == Live ==> !terms(a).unproven)
  {
  }

  /**
   * Classifying cools a candidate's cell exactly when nothing else cooled it and its allowance is spent:
   * to the stated end, never shorter than it was, and no other cell.
   */
  lemma TouchedMeans(s: Cells, a: Attempt, terms: Terms, now: int, k: string)
    requires now >= 0
    ensures var (t, key) := (terms(a), KeyOf(a.target));
            var cooling := UntilOf(s, a.target) > now || (t.allowanceUntil.Some? && t.allowanceUntil.value > now);
            && UntilOf(Touched(s, a, terms, now), a.target)
               == (if !cooling && t.spentUntil.Some? && t.spentUntil.value > now then t.spentUntil.value
                   else UntilOf(s, a.target))
            && (k != key ==> (k in s.at <==> k in Touched(s, a, terms, now).at))
            && (k != key && k in s.at ==> Touched(s, a, terms, now).at[k] == s.at[k])
  {
    hide KeyOf, Apply, Run;
    if terms(a).spentUntil.Some? && terms(a).spentUntil.value > now {
      QuotaStep(s, a.target, terms(a).spentUntil.value, now);
    }
  }

  /**
   * The lift time of a candidate: the first instant at which the breaker no longer cools it, if it does;
   * otherwise the end of its allowance's pause, if that is still to come.
   */
  lemma LiftMeans(s: Cells, a: Attempt, terms: Terms, now: int)
    requires now >= 0
    ensures var lift := LiftOf(s, a, terms, now);
            && (lift.Some? ==> lift.value > now)
            && (!Healthy(s, a.target, now) ==>
                  lift.Some? && forall t :: now <= t ==> (Healthy(s, a.target, t) <==> lift.value <= t))
            && (Healthy(s, a.target, now) && lift.Some? ==> lift == terms(a).allowanceUntil)
            && (Healthy(s, a.target, now) && lift.None?
                ==> terms(a).allowanceUntil.None? || terms(a).allowanceUntil.value <= now)
  {
  }

  // ---------------------------------------------------------------- classifying does not disturb the bands

  /** Cells that may only have been cooled further, and only where the allowance is spent. */
  ghost predicate CooledOnlyIfSpent(s: Cells, u: Cells, terms: Terms, now: int) {
    forall a: Attempt ::
      && (HasFault(u, a.target, now) <==> HasFault(s, a.target, now))
      && UntilOf(u, a.target) >= UntilOf(s, a.target)
      && (!Healthy(s, a.target, now) ==> !Healthy(u, a.target, now))
      && (Healthy(s, a.target, now) && !Healthy(u, a.target, now) ==> terms(a).spentUntil.Some?)
  }

  lemma CooledTrans(s: Cells, u: Cells, v: Cells, terms: Terms, now: int)
    requires CooledOnlyIfSpent(s, u, terms, now) && CooledOnlyIfSpent(u, v, terms, now)
    ensures CooledOnlyIfSpent(s, v, terms, now)
  {
    hide HasFault, Healthy, UntilOf, KeyOf;
  }

  lemma QuotaStep(s: Cells, t: Target, until: int, now: int)
    requires until > now
    ensures var u := Apply(s, t, [QuotaUntil(until, now)]);
            && KeyOf(t) in u.at && u.at[KeyOf(t)] == QuotaCooled(Get(s, t), until, now)
            && (forall k :: k != KeyOf(t) ==> (k in u.at <==> k in s.at) && (k in s.at ==> u.at[k] == s.at[k]))
  {
    var es := [QuotaUntil(until, now)];
    assert es[..|es| - 1] == [] && es[|es| - 1] == QuotaUntil(until, now);
    assert Run(Get(s, t), []) == Get(s, t);
    assert Run(Get(s, t), es) == QuotaCooled(Get(s, t), until, now);
    hide Run;
  }

  lemma {:induction false} TouchedCools(s: Cells, a: Attempt, terms: Terms, now: int)
    requires SpentByCell(terms) && now >= 0
    ensures CooledOnlyIfSpent(s, Touched(s, a, terms, now), terms, now)
    ensures terms(a).spentUntil.Some? && terms(a).spentUntil.value > now && BandOf(s, a, terms, now) == Cooling
            && !(terms(a).allowanceUntil.Some? && now < terms(a).allowanceUntil.value)
            ==> !Healthy(Touched(s, a, terms, now), a.target, now)
  {
    hide KeyOf, Apply, Run;
    if terms(a).spentUntil.Some? && terms(a).spentUntil.value > now {
      QuotaStep(s, a.target, terms(a).spentUntil.value, now);
    }
  }

  lemma {:induction false} TouchedAllCools<T>(s: Cells, items: seq<T>, rep: T -> Attempt, terms: Terms, now: int)
    requires SpentByCell(terms) && now >= 0
    ensures CooledOnlyIfSpent(s, TouchedAll(s, items, rep, terms, now), terms, now)
  {
    hide CooledOnlyIfSpent, Touched, SpentByCell;
    if |items| == 0 {
      CooledNothing(s, terms, now);
    } else {
      var init, last := items[..|items| - 1], items[|items| - 1];
      TouchedAllCools(s, init, rep, terms, now);
      var u := TouchedAll(s, init, rep, terms, now);
      TouchedCools(u, rep(last), terms, now);
      CooledTrans(s, u, Touched(u, rep(last), terms, now), terms, now);
    }
  }

  lemma CooledNothing(s: Cells, terms: Terms, now: int)
    ensures CooledOnlyIfSpent(s, s, terms, now)
  {
  }

  /** A candidate's band is the same before and after others were classified. */
  lemma BandsAgree(s: Cells, u: Cells, a: Attempt, terms: Terms, now: int)
    requires CooledOnlyIfSpent(s, u, terms, now)
    ensures BandOf(u, a, terms, now) == BandOf(s, a, terms, now)
  {
    hide HasFault, Healthy, UntilOf, KeyOf;
  }

  // ---------------------------------------------------------------- the order is a reordering

  lemma {:induction false} InBandStep<T>(s: Cells, items: seq<T>, x: T, rep: T -> Attempt, terms: Terms, now: int,
        band: Usability)
    ensures InBand(s, items + [x], rep, terms, now, band)
            == InBand(s, items, rep, terms, now, band) + if BandOf(s, rep(x), terms, now) == band then [x] else []
  {
    assert (items + [x])[..|items|] == items;
  }

  lemma {:induction false} InBandConcat<T>(s: Cells, xs: seq<T>, ys: seq<T>, rep: T -> Attempt, terms: Terms, now: int,
        band: Usability)
    ensures InBand(s, xs + ys, rep, terms, now, band)
            == InBand(s, xs, rep, terms, now, band) + InBand(s, ys, rep, terms, now, band)
  {
    hide BandOf;
    if |ys| == 0 {
      assert xs + ys == xs;
    } else {
      assert (xs + ys)[..|xs + ys| - 1] == xs + ys[..|ys| - 1];
      InBandConcat(s, xs, ys[..|ys| - 1], rep, terms, now, band);
    }
  }

  /** A list of one band is all of that band, and none of any other. */
  lemma {:induction false} InBandUniform<T>(s: Cells, xs: seq<T>, rep: T -> Attempt, terms: Terms, now: int,
        own: Usability, band: Usability)
    requires forall i :: 0 <= i < |xs| ==> BandOf(s, rep(xs[i]), terms, now) == own
    ensures InBand(s, xs, rep, terms, now, band) == if band == own then xs else []
  {
    hide BandOf;
    if |xs| > 0 {
      InBandUniform(s, xs[..|xs| - 1], rep, terms, now, own, band);
      assert xs == xs[..|xs| - 1] + [xs[|xs| - 1]];
    }
  }

  lemma {:induction false} InBandMembers<T>(s: Cells, items: seq<T>, rep: T -> Attempt, terms: Terms, now: int,
        band: Usability)
    ensures forall x :: x in InBand(s, items, rep, terms, now, band) ==>
              x in items && BandOf(s, rep(x), terms, now) == band
  {
    hide BandOf;
    if |items| > 0 { InBandMembers(s, items[..|items| - 1], rep, terms, now, band); }
  }

  lemma MultisetStep<T>(xs: seq<T>, y: T, x: T)
    ensures multiset(xs + [y])[x] == multiset(xs)[x] + if x == y then 1 else 0
  {
  }

  /** How often a candidate stands in a band. */
  ghost function CountIn<T>(s: Cells, items: seq<T>, rep: T -> Attempt, terms: Terms, now: int, band: Usability,
        x: T): nat {
    multiset(InBand(s, items, rep, terms, now, band))[x]
  }

  lemma {:induction false} CountInStep<T>(s: Cells, items: seq<T>, y: T, rep: T -> Attempt, terms: Terms, now: int,
        band: Usability, x: T)
    ensures CountIn(s, items + [y], rep, terms, now, band, x)
            == CountIn(s, items, rep, terms, now, band, x) + if x == y && band == BandOf(s, rep(y), terms, now) then 1
              else 0
  {
    hide BandOf, InBand;
    InBandStep(s, items, y, rep, terms, now, band);
    MultisetStep(InBand(s, items, rep, terms, now, band), y, x);
    assert InBand(s, items, rep, terms, now, band) + [] == InBand(s, items, rep, terms, now, band);
  }

  lemma NoneIn<T>(s: Cells, items: seq<T>, rep: T -> Attempt, terms: Terms, now: int, x: T)
    ensures |items| == 0 ==> forall band :: CountIn(s, items, rep, terms, now, band, x) == 0
  {
  }

  lemma {:induction false} BandsPartitionAt<T>(s: Cells, items: seq<T>, rep: T -> Attempt, terms: Terms, now: int, x: T)
    ensures CountIn(s, items, rep, terms, now, Probation, x) + CountIn(s, items, rep, terms, now, Live, x)
            + CountIn(s, items, rep, terms, now, Slow, x) + CountIn(s, items, rep, terms, now, Paced, x)
            + CountIn(s, items, rep, terms, now, Faulted, x) + CountIn(s, items, rep, terms, now, Cooling, x)
            == multiset(items)[x]
  {
    hide BandOf, CountIn;
    NoneIn(s, items, rep, terms, now, x);
    if |items| > 0 {
      var init, last := items[..|items| - 1], items[|items| - 1];
      assert items == init + [last];
      BandsPartitionAt(s, init, rep, terms, now, x);
      MultisetStep(init, last, x);
      CountInStep(s, init, last, rep, terms, now, Probation, x);
      CountInStep(s, init, last, rep, terms, now, Live, x);
      CountInStep(s, init, last, rep, terms, now, Slow, x);
      CountInStep(s, init, last, rep, terms, now, Paced, x);
      CountInStep(s, init, last, rep, terms, now, Faulted, x);
      CountInStep(s, init, last, rep, terms, now, Cooling, x);
    }
  }

  lemma {:induction false} BandsPartition<T>(s: Cells, items: seq<T>, rep: T -> Attempt, terms: Terms, now: int)
    ensures multiset(InBand(s, items, rep, terms, now, Probation)) + multiset(InBand(s, items, rep, terms, now, Live))
            + multiset(InBand(s, items, rep, terms, now, Slow)) + multiset(InBand(s, items, rep, terms, now, Paced))
            + multiset(InBand(s, items, rep, terms, now, Faulted))
              + multiset(InBand(s, items, rep, terms, now, Cooling))
            == multiset(items)
  {
    hide BandOf, InBand;
    forall x: T { BandsPartitionAt(s, items, rep, terms, now, x); }
  }

  lemma {:induction false} InsertItems<T>(s: seq<Lift<T>>, x: Lift<T>)
    ensures multiset(ItemsOf(Insert(s, x))) == multiset(ItemsOf(s)) + multiset{x.item}
  {
    if |s| == 0 || NotAfter(s[|s| - 1].at, x.at) {
      assert ItemsOf(s + [x]) == ItemsOf(s) + [x.item];
    } else {
      var init, last := s[..|s| - 1], s[|s| - 1];
      InsertItems(init, x);
      assert ItemsOf(Insert(init, x) + [last]) == ItemsOf(Insert(init, x)) + [last.item];
      assert ItemsOf(s) == ItemsOf(init) + [last.item];
    }
  }

  lemma {:induction false} SortItems<T>(s: seq<Lift<T>>)
    ensures multiset(ItemsOf(SortByLift(s))) == multiset(ItemsOf(s))
  {
    if |s| > 0 {
      SortItems(s[..|s| - 1]);
      InsertItems(SortByLift(s[..|s| - 1]), s[|s| - 1]);
      assert ItemsOf(s) == ItemsOf(s[..|s| - 1]) + [s[|s| - 1].item];
    }
  }

  lemma {:induction false} CoolingMembers<T>(s: Cells, cooling: seq<T>, rep: T -> Attempt, terms: Terms, now: int)
    ensures multiset(CoolingOrder(s, cooling, rep, terms, now)) == multiset(cooling)
  {
    hide LiftOf, SortByLift;
    var lifts := WithLifts(s, cooling, rep, terms, now);
    SortItems(lifts);
    assert ItemsOf(lifts) == cooling;
  }

  /** Ordering drops no candidate, adds none and duplicates none. */
  lemma {:induction false} OrderedIsPermutation<T>(s: Cells, items: seq<T>, rep: T -> Attempt, terms: Terms, now: int)
    ensures multiset(Ordered(s, items, rep, terms, now)) == multiset(items)
  {
    hide InBand, CoolingOrder, TouchedAll;
    BandsPartition(s, items, rep, terms, now);
    CoolingMembers(TouchedAll(s, items, rep, terms, now), InBand(s, items, rep, terms, now, Cooling), rep, terms, now);
  }

  function Rank(u: Usability): nat {
    match u
    case Probation => 0
    case Live => 1
    case Slow => 2
    case Paced => 3
    case Faulted => 4
    case Cooling => 5
  }

  /** Every member of one list is in one band. */
  ghost predicate Uniform<T>(s: Cells, xs: seq<T>, rep: T -> Attempt, terms: Terms, now: int, band: Usability) {
    forall i :: 0 <= i < |xs| ==> BandOf(s, rep(xs[i]), terms, now) == band
  }

  lemma {:induction false} BandUniform<T>(s: Cells, items: seq<T>, rep: T -> Attempt, terms: Terms, now: int,
        band: Usability)
    ensures Uniform(s, InBand(s, items, rep, terms, now, band), rep, terms, now, band)
  {
    hide BandOf, InBand;
    InBandMembers(s, items, rep, terms, now, band);
    var xs := InBand(s, items, rep, terms, now, band);
    forall i | 0 <= i < |xs| ensures BandOf(s, rep(xs[i]), terms, now) == band {
      assert xs[i] in xs;
    }
  }

  lemma {:induction false} CoolingUniform<T>(s: Cells, u: Cells, items: seq<T>, rep: T -> Attempt, terms: Terms,
        now: int)
    ensures Uniform(s, CoolingOrder(u, InBand(s, items, rep, terms, now, Cooling), rep, terms, now), rep, terms, now,
                    Cooling)
  {
    hide BandOf, InBand, CoolingOrder;
    var cooling := InBand(s, items, rep, terms, now, Cooling);
    InBandMembers(s, items, rep, terms, now, Cooling);
    CoolingMembers(u, cooling, rep, terms, now);
    var xs := CoolingOrder(u, cooling, rep, terms, now);
    forall i | 0 <= i < |xs| ensures BandOf(s, rep(xs[i]), terms, now) == Cooling {
      assert xs[i] in multiset(xs);
      assert xs[i] in cooling;
    }
  }

  /** Each band of the order is that band of the input, in its order; cooling is sorted by lift time. */
  lemma {:induction false} OrderedBands<T>(s: Cells, items: seq<T>, rep: T -> Attempt, terms: Terms, now: int,
        band: Usability)
    ensures InBand(s, Ordered(s, items, rep, terms, now), rep, terms, now, band)
            == if band == Cooling
               then CoolingOrder(TouchedAll(s, items, rep, terms, now), InBand(s, items, rep, terms, now, Cooling),
                                 rep, terms, now)
               else InBand(s, items, rep, terms, now, band)
  {
    hide BandOf, InBand, CoolingOrder, TouchedAll;
    var u := TouchedAll(s, items, rep, terms, now);
    var p, l, o := InBand(s, items, rep, terms, now, Probation), InBand(s, items, rep, terms, now, Live),
                   InBand(s, items, rep, terms, now, Slow);
    var d, f := InBand(s, items, rep, terms, now, Paced), InBand(s, items, rep, terms, now, Faulted);
    var c := CoolingOrder(u, InBand(s, items, rep, terms, now, Cooling), rep, terms, now);
    Alone(s, items, rep, terms, now, Probation, band);
    Alone(s, items, rep, terms, now, Live, band);
    Alone(s, items, rep, terms, now, Slow, band);
    Alone(s, items, rep, terms, now, Paced, band);
    Alone(s, items, rep, terms, now, Faulted, band);
    CoolingUniform(s, u, items, rep, terms, now);
    InBandUniform(s, c, rep, terms, now, Cooling, band);
    InBandConcat(s, p, l, rep, terms, now, band);
    InBandConcat(s, p + l, o, rep, terms, now, band);
    InBandConcat(s, p + l + o, d, rep, terms, now, band);
    InBandConcat(s, p + l + o + d, f, rep, terms, now, band);
    InBandConcat(s, p + l + o + d + f, c, rep, terms, now, band);
  }

  lemma {:induction false} Alone<T>(s: Cells, items: seq<T>, rep: T -> Attempt, terms: Terms, now: int, own: Usability,
        band: Usability)
    ensures InBand(s, InBand(s, items, rep, terms, now, own), rep, terms, now, band)
            == if band == own then InBand(s, items, rep, terms, now, own) else []
  {
    hide BandOf, InBand;
    BandUniform(s, items, rep, terms, now, own);
    InBandUniform(s, InBand(s, items, rep, terms, now, own), rep, terms, now, own, band);
  }

  lemma Ranks()
    ensures Rank(Probation) == 0 && Rank(Live) == 1 && Rank(Slow) == 2 && Rank(Paced) == 3 && Rank(Faulted) == 4
            && Rank(Cooling) == 5
  {
  }

  /** The bands stand in their fixed order, probation first and cooling last. */
  lemma {:induction false} BandsInOrder<T>(s: Cells, items: seq<T>, rep: T -> Attempt, terms: Terms, now: int)
    ensures var out := Ordered(s, items, rep, terms, now);
            forall i, j :: 0 <= i < j < |out| ==>
                Rank(BandOf(s, rep(out[i]), terms, now)) <= Rank(BandOf(s, rep(out[j]), terms, now))
  {
    hide BandOf, InBand, CoolingOrder, TouchedAll, Rank;
    Ranks();
    var u := TouchedAll(s, items, rep, terms, now);
    BandUniform(s, items, rep, terms, now, Probation);
    BandUniform(s, items, rep, terms, now, Live);
    BandUniform(s, items, rep, terms, now, Slow);
    BandUniform(s, items, rep, terms, now, Paced);
    BandUniform(s, items, rep, terms, now, Faulted);
    CoolingUniform(s, u, items, rep, terms, now);
    var p, l, o := InBand(s, items, rep, terms, now, Probation), InBand(s, items, rep, terms, now, Live),
                   InBand(s, items, rep, terms, now, Slow);
    var d, f := InBand(s, items, rep, terms, now, Paced), InBand(s, items, rep, terms, now, Faulted);
    var c := CoolingOrder(u, InBand(s, items, rep, terms, now, Cooling), rep, terms, now);
    Between(s, [], p, rep, terms, now, 0, 0);
    assert [] + p == p;
    Between(s, p, l, rep, terms, now, 0, 1);
    Between(s, p + l, o, rep, terms, now, 1, 2);
    Between(s, p + l + o, d, rep, terms, now, 2, 3);
    Between(s, p + l + o + d, f, rep, terms, now, 3, 4);
    Between(s, p + l + o + d + f, c, rep, terms, now, 4, 5);
  }

  /** In order, and no band beyond a rank. */
  ghost predicate UpTo<T>(s: Cells, xs: seq<T>, rep: T -> Attempt, terms: Terms, now: int, rank: nat) {
    && (forall i :: 0 <= i < |xs| ==> Rank(BandOf(s, rep(xs[i]), terms, now)) <= rank)
    && (forall i, j :: 0 <= i < j < |xs| ==>
          Rank(BandOf(s, rep(xs[i]), terms, now)) <= Rank(BandOf(s, rep(xs[j]), terms, now)))
  }

  lemma {:induction false} Between<T>(s: Cells, xs: seq<T>, ys: seq<T>, rep: T -> Attempt, terms: Terms, now: int,
        low: nat, high: nat)
    requires UpTo(s, xs, rep, terms, now, low) && low <= high
    requires forall i :: 0 <= i < |ys| ==> Rank(BandOf(s, rep(ys[i]), terms, now)) == high
    ensures UpTo(s, xs + ys, rep, terms, now, high)
  {
    hide BandOf, Rank;
  }

  // ---------------------------------------------------------------- ordering again changes nothing

  predicate SpentNow(a: Attempt, terms: Terms, now: int) {
    && terms(a).spentUntil.Some? && terms(a).spentUntil.value > now
    && !(terms(a).allowanceUntil.Some? && now < terms(a).allowanceUntil.value)
  }

  lemma {:induction false} SpentIsCooled<T>(s: Cells, items: seq<T>, rep: T -> Attempt, terms: Terms, now: int)
    requires SpentByCell(terms) && now >= 0
    ensures forall i :: 0 <= i < |items| && SpentNow(rep(items[i]), terms, now) ==>
              !Healthy(TouchedAll(s, items, rep, terms, now), rep(items[i]).target, now)
  {
    hide Touched, SpentByCell, HasFault, UntilOf, Healthy, BandOf;
    if |items| > 0 {
      var init, last := items[..|items| - 1], items[|items| - 1];
      SpentIsCooled(s, init, rep, terms, now);
      var u := TouchedAll(s, init, rep, terms, now);
      TouchedCools(u, rep(last), terms, now);
      SpentBandIsCooling(u, rep(last), terms, now);
    }
  }

  lemma SpentBandIsCooling(s: Cells, a: Attempt, terms: Terms, now: int)
    ensures SpentNow(a, terms, now) ==> BandOf(s, a, terms, now) == Cooling
  {
  }

  lemma {:induction false} NothingMoreToTouch<T>(u: Cells, items: seq<T>, rep: T -> Attempt, terms: Terms, now: int)
    requires forall i :: 0 <= i < |items| && SpentNow(rep(items[i]), terms, now) ==>
               !Healthy(u, rep(items[i]).target, now)
    ensures TouchedAll(u, items, rep, terms, now) == u
  {
    hide Healthy, Apply;
    if |items| > 0 { NothingMoreToTouch(u, items[..|items| - 1], rep, terms, now); }
  }

  lemma {:induction false} SameBands<T>(s: Cells, u: Cells, items: seq<T>, rep: T -> Attempt, terms: Terms, now: int,
        band: Usability)
    requires CooledOnlyIfSpent(s, u, terms, now)
    ensures InBand(u, items, rep, terms, now, band) == InBand(s, items, rep, terms, now, band)
  {
    hide BandOf, CooledOnlyIfSpent;
    if |items| > 0 {
      SameBands(s, u, items[..|items| - 1], rep, terms, now, band);
      BandsAgree(s, u, rep(items[|items| - 1]), terms, now);
    }
  }

  lemma {:induction false} CoolingFixed<T>(u: Cells, cooling: seq<T>, rep: T -> Attempt, terms: Terms, now: int)
    ensures CoolingOrder(u, CoolingOrder(u, cooling, rep, terms, now), rep, terms, now)
            == CoolingOrder(u, cooling, rep, terms, now)
  {
    hide LiftOf, SortByLift;
    var lifts := WithLifts(u, cooling, rep, terms, now);
    var sorted := SortByLift(lifts);
    SortHolds(lifts, None);
    forall i | 0 <= i < |sorted| ensures sorted[i].at == LiftOf(u, rep(sorted[i].item), terms, now) {
      assert sorted[i] in multiset(lifts);
    }
    assert WithLifts(u, ItemsOf(sorted), rep, terms, now) == sorted;
    SortedIsFixed(sorted);
  }

  /**
   * Ordering an order again, against the breaker as the first ordering left it, gives the same order
   * and leaves the breaker alone, although classifying records cooldowns.
   */
  lemma {:induction false} OrderingAgainChangesNothing<T>(s: Cells, items: seq<T>, rep: T -> Attempt, terms: Terms,
        now: int)
    requires SpentByCell(terms) && now >= 0
    ensures var out, u := Ordered(s, items, rep, terms, now), TouchedAll(s, items, rep, terms, now);
            TouchedAll(u, out, rep, terms, now) == u && Ordered(u, out, rep, terms, now) == out
  {
    hide BandOf, InBand, CoolingOrder, TouchedAll, SpentByCell, SpentNow, Healthy, CooledOnlyIfSpent;
    var out, u := Ordered(s, items, rep, terms, now), TouchedAll(s, items, rep, terms, now);
    TouchedAllCools(s, items, rep, terms, now);
    SpentIsCooled(s, items, rep, terms, now);
    OrderedIsPermutation(s, items, rep, terms, now);
    forall i | 0 <= i < |out| && SpentNow(rep(out[i]), terms, now) ensures !Healthy(u, rep(out[i]).target, now) {
      assert out[i] in multiset(out);
      assert out[i] in items;
      var j :| 0 <= j < |items| && items[j] == out[i];
    }
    NothingMoreToTouch(u, out, rep, terms, now);
    SameAgain(s, u, items, rep, terms, now, Probation);
    SameAgain(s, u, items, rep, terms, now, Live);
    SameAgain(s, u, items, rep, terms, now, Slow);
    SameAgain(s, u, items, rep, terms, now, Paced);
    SameAgain(s, u, items, rep, terms, now, Faulted);
    SameAgain(s, u, items, rep, terms, now, Cooling);
    CoolingFixed(u, InBand(s, items, rep, terms, now, Cooling), rep, terms, now);
  }

  lemma {:induction false} SameAgain<T>(s: Cells, u: Cells, items: seq<T>, rep: T -> Attempt, terms: Terms, now: int,
        band: Usability)
    requires CooledOnlyIfSpent(s, u, terms, now) && u == TouchedAll(s, items, rep, terms, now)
    ensures InBand(u, Ordered(s, items, rep, terms, now), rep, terms, now, band)
            == if band == Cooling then CoolingOrder(u, InBand(s, items, rep, terms, now, Cooling), rep, terms, now)
               else InBand(s, items, rep, terms, now, band)
  {
    hide BandOf, InBand, CoolingOrder, TouchedAll, Ordered, CooledOnlyIfSpent;
    SameBands(s, u, Ordered(s, items, rep, terms, now), rep, terms, now, band);
    OrderedBands(s, items, rep, terms, now, band);
  }
}
