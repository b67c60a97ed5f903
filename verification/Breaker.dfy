/** The circuit breaker: one-shot attempt handles, credential leases, start logs and cells. */
module Breaker {
  import opened Common
  import opened AttemptLogs
  import opened BreakerCells
  import opened CellHistories
  import opened BreakerStates
  import opened BreakerRows
  import opened Sorting

  /** An opaque handle: which breaker issued it, and which of its attempts it is. */
  datatype Handle = Handle(owner: nat, serial: nat)

  datatype Record = Record(generation: nat, target: Target, seen: Option<Observation>, completed: bool)

  datatype Verdict = Accepted | Stale | Foreign | Duplicate | CrossTarget | SeenAlready

  /** `sameProviderTarget`: the base URL is not part of the identity. */
  predicate SameTarget(a: Target, b: Target) {
    a.provider == b.provider && a.model == b.model && a.kind == b.kind && a.credentialId == b.credentialId
  }

  /** The begun, uncompleted attempts of one generation on one credential. */
  function Leases(attempts: map<Handle, Record>, generation: nat, credentialId: string): set<Handle> {
    set h | h in attempts && attempts[h].generation == generation && !attempts[h].completed
            && attempts[h].target.credentialId == credentialId
  }

  ghost predicate LeasesCounted(inFlight: map<string, nat>, attempts: map<Handle, Record>, generation: nat) {
    && (forall c :: c in inFlight ==> inFlight[c] == |Leases(attempts, generation, c)| > 0)
    && (forall c :: c !in inFlight ==> |Leases(attempts, generation, c)| == 0)
  }

  lemma {:induction false} LeaseBegun(attempts: map<Handle, Record>, h: Handle, r: Record, generation: nat, c: string)
    requires h !in attempts && r.generation == generation && !r.completed
    ensures var added := Leases(attempts[h := r], generation, c);
            if r.target.credentialId == c
            then added == Leases(attempts, generation, c) + {h} && |added| == |Leases(attempts, generation, c)| + 1
            else added == Leases(attempts, generation, c)
  {
    var added := Leases(attempts[h := r], generation, c);
    if r.target.credentialId == c {
      assert added == Leases(attempts, generation, c) + {h};
    } else {
      assert added == Leases(attempts, generation, c);
    }
  }

  lemma {:induction false} LeaseEnded(attempts: map<Handle, Record>, h: Handle, generation: nat, c: string)
    requires h in attempts && attempts[h].generation == generation && !attempts[h].completed
    ensures var left := Leases(attempts[h := attempts[h].(completed := true)], generation, c);
            if attempts[h].target.credentialId == c
            then h in Leases(attempts, generation, c) && left == Leases(attempts, generation, c) - {h}
                 && |left| == |Leases(attempts, generation, c)| - 1
            else left == Leases(attempts, generation, c)
  {
    var left := Leases(attempts[h := attempts[h].(completed := true)], generation, c);
    if attempts[h].target.credentialId == c {
      assert left == Leases(attempts, generation, c) - {h};
    } else {
      assert left == Leases(attempts, generation, c);
    }
  }

  lemma NoLeases(attempts: map<Handle, Record>, generation: nat, c: string)
    requires forall h :: h in attempts ==> attempts[h].generation < generation
    ensures |Leases(attempts, generation, c)| == 0
  {
  }

  lemma {:induction false} BegunCounted(inFlight: map<string, nat>, attempts: map<Handle, Record>, h: Handle,
        r: Record, generation: nat)
    requires LeasesCounted(inFlight, attempts, generation) && h !in attempts && r.generation == generation
             && !r.completed
    ensures var c := r.target.credentialId;
            LeasesCounted(inFlight[c := (if c in inFlight then inFlight[c] else 0) + 1], attempts[h := r], generation)
  {
    hide Leases;
    forall c { LeaseBegun(attempts, h, r, generation, c); }
  }

  function Released(inFlight: map<string, nat>, c: string): map<string, nat> {
    var n := if c in inFlight then inFlight[c] else 0;
    if n <= 1 then inFlight - {c} else inFlight[c := n - 1]
  }

  lemma {:induction false} EndedCounted(inFlight: map<string, nat>, attempts: map<Handle, Record>, h: Handle,
        generation: nat)
    requires LeasesCounted(inFlight, attempts, generation)
    requires h in attempts && attempts[h].generation == generation && !attempts[h].completed
    ensures LeasesCounted(Released(inFlight, attempts[h].target.credentialId),
                          attempts[h := attempts[h].(completed := true)], generation)
  {
    hide Leases;
    forall c { LeaseEnded(attempts, h, generation, c); }
  }

  /** What the breaker makes of a handle that claims a target. */
  function Judge(attempts: map<Handle, Record>, generation: nat, owner: nat, h: Handle, target: Target): Verdict {
    if h !in attempts then if h.owner != owner then Foreign else Stale
    else if attempts[h].generation != generation then Stale
    else if attempts[h].completed then Duplicate
    else if !SameTarget(attempts[h].target, target) then CrossTarget
    else Accepted
  }

  /** Which handle gets which answer; the base URL of a target does not matter. */
  lemma VerdictMeans(attempts: map<Handle, Record>, generation: nat, owner: nat, h: Handle, target: Target)
    ensures var v := Judge(attempts, generation, owner, h, target);
            && (v == Foreign <==> h !in attempts && h.owner != owner)
            && (v == Stale <==> if h in attempts then attempts[h].generation != generation else h.owner == owner)
            && (v == Duplicate <==> h in attempts && attempts[h].generation == generation && attempts[h].completed)
            && (v == Accepted <==>
                  && h in attempts && attempts[h].generation == generation && !attempts[h].completed
                  && attempts[h].target.(base := None) == target.(base := None))
            && (v == CrossTarget <==>
                  && h in attempts && attempts[h].generation == generation && !attempts[h].completed
                  && attempts[h].target.(base := None) != target.(base := None))
  {
  }

  class CircuitBreaker {
    const owner: nat
    var cells: Cells
    var inFlight: map<string, nat>
    var starts: map<string, seq<Start>>
    var attempts: map<Handle, Record>
    var generation: nat
    var issued: nat

    /** Every start of a cell since the last reset, and every event of the cells this process created. */
    ghost var history: map<string, seq<Start>>
    ghost var trails: map<string, seq<Event>>

    ghost predicate Valid() reads this {
      && CellsOk(cells) && LeasesCounted(inFlight, attempts, generation)
      && (forall h :: h in attempts ==> attempts[h].generation <= generation && h.owner == owner && h.serial < issued)
      && starts.Keys == history.Keys && (forall k :: k in starts ==> starts[k] == LogOf(history[k]))
      && TrailsOk(cells, trails)
    }

    constructor (owner: nat)
      ensures Valid() && cells == NO_CELLS && attempts == map[] && inFlight == map[] && starts == map[]
              && trails == map[]
      ensures this.owner == owner
    {
      this.owner := owner;
      cells, inFlight, starts, attempts, generation, issued := NO_CELLS, map[], map[], map[], 1, 0;
      history, trails := map[], map[];
    }

    /** `beginAttempt`: a fresh handle, one more lease of the credential, one more start in the cell's log. */
    method BeginAttempt(target: Target, at: int, tokens: Option<nat>) returns (h: Handle)
      requires Valid()
      modifies this
      ensures Valid() && h !in old(attempts)
      ensures attempts == old(attempts)[h := Record(generation, target, None, false)]
      ensures generation == old(generation) && cells == old(cells) && trails == old(trails)
      ensures InFlight(target.credentialId) == old(InFlight(target.credentialId)) + 1
      ensures forall c :: c != target.credentialId ==> InFlight(c) == old(InFlight(c))
      ensures history == old(history)[KeyOf(target) := HistoryOf(old(history), KeyOf(target)) + [Start(at, tokens)]]
    {
      hide CellsOk, TrailsOk, LogOf, Leases, LeasesCounted;
      h := Handle(owner, issued);
      var r := Record(generation, target, None, false);
      BegunCounted(inFlight, attempts, h, r, generation);
      var c := target.credentialId;
      inFlight := inFlight[c := (if c in inFlight then inFlight[c] else 0) + 1];
      attempts, issued := attempts[h := r], issued + 1;
      NoteStart(KeyOf(target), Start(at, tokens));
    }

    method NoteStart(key: string, s: Start)
      requires Valid()
      modifies this`starts, this`history
      ensures Valid() && history == old(history)[key := HistoryOf(old(history), key) + [s]]
    {
      hide CellsOk, TrailsOk, LogOf, LeasesCounted;
      assert LogOf([]) == [] by { EmptyLog(); }
      LogGrows(HistoryOf(history, key), s);
      var log := if key in starts then starts[key] else [];
      var grown := RecordStart(log, s);
      starts, history := starts[key := grown], history[key := HistoryOf(history, key) + [s]];
    }

    /** `inFlightCredential`. */
    function InFlight(credentialId: string): nat reads this {
      if credentialId in inFlight then inFlight[credentialId] else 0
    }

    /** Lease conservation: the count is the number of open handles of this generation. */
    lemma LeasesConserved(credentialId: string)
      requires Valid()
      ensures InFlight(credentialId) == |Leases(attempts, generation, credentialId)|
    {
      hide Leases, CellsOk, TrailsOk, LogOf;
    }

    method ObserveHeaders(h: Handle, target: Target, seen: Observation) returns (v: Verdict)
      requires Valid()
      modifies this`attempts
      ensures Valid()
      ensures v == (if Judge(old(attempts), generation, owner, h, target) == Accepted && old(attempts)[h].seen.Some?
                    then SeenAlready
                    else Judge(old(attempts), generation, owner, h, target))
      ensures attempts == if v == Accepted then old(attempts)[h := old(attempts)[h].(seen := Some(seen))]
              else old(attempts)
    {
      hide CellsOk, TrailsOk, LogOf;
      v := Judge(attempts, generation, owner, h, target);
      if v != Accepted { return; }
      if attempts[h].seen.Some? { return SeenAlready; }
      SameLeases(attempts, h, seen, generation);
      attempts := attempts[h := attempts[h].(seen := Some(seen))];
    }

    /**
     * `completeAttempt`: a handle counts once, for its own target, in its own generation; whatever
     * else is tried changes nothing at all.
     */
    method CompleteAttempt(h: Handle, o: AttemptOutcome) returns (v: Verdict)
      requires Valid() && o.at >= 0
      modifies this
      ensures Valid() && v == Judge(old(attempts), old(generation), owner, h, o.target)
      ensures generation == old(generation) && starts == old(starts) && history == old(history) && issued == old(issued)
      ensures if v == Accepted
              then && attempts == old(attempts)[h := old(attempts)[h].(completed := true)]
                   && cells == Apply(old(cells), old(attempts)[h].target,
                                     EventsOf(old(attempts)[h].target, o, old(attempts)[h].seen))
                   && InFlight(o.target.credentialId) == old(InFlight(o.target.credentialId)) - 1
                   && forall c :: c != o.target.credentialId ==> InFlight(c) == old(InFlight(c))
              else && attempts == old(attempts) && cells == old(cells)
                   && inFlight == old(inFlight) && trails == old(trails)
    {
      hide CellsOk, TrailsOk, LogOf, Leases, Apply, EventsOf;
      v := Judge(attempts, generation, owner, h, o.target);
      if v != Accepted { return; }
      EndedCounted(inFlight, attempts, h, generation);
      LeaseEnded(attempts, h, generation, o.target.credentialId);
      var r := attempts[h];
      inFlight := Released(inFlight, r.target.credentialId);
      attempts := attempts[h := r.(completed := true)];
      hide LeasesCounted, Released;
      EventsDated(r.target, o, r.seen);
      Absorb(r.target, EventsOf(r.target, o, r.seen));
    }

    /** Events on one target's cell; the cell is created by the first of them. */
    method Absorb(target: Target, es: seq<Event>)
      requires Valid() && AllDated(es)
      modifies this`cells, this`trails
      ensures Valid() && cells == Apply(old(cells), target, es)
    {
      hide CellsOk, LogOf, LeasesCounted, Run, TrailsOk;
      ApplyOk(cells, target, es);
      ApplyTrails(cells, trails, target, es);
      trails := Trailed(cells, trails, target, es);
      cells := Apply(cells, target, es);
    }

    method RecordOutcome(target: Target, o: Outcome)
      requires Valid() && o.at >= 0
      modifies this`cells, this`trails
      ensures Valid() && cells == Apply(old(cells), target, [Health(o.(loopback := OnThisMachine(target)))])
    {
      hide Valid, Apply;
      Absorb(target, [Health(o.(loopback := OnThisMachine(target)))]);
    }

    /** `recordQuotaCooldown`: declined outright when the reset has passed, and never shortens. */
    method RecordQuotaCooldown(target: Target, until: int, at: int)
      requires Valid() && at >= 0
      modifies this`cells, this`trails
      ensures Valid()
      ensures cells == if until <= at then old(cells) else Apply(old(cells), target, [QuotaUntil(until, at)])
    {
      hide Valid, Apply;
      if until <= at { return; }
      Absorb(target, [QuotaUntil(until, at)]);
    }

    /** `endRateLimitCooldown`. */
    method EndRateLimitCooldown(target: Target, at: int) returns (ended: bool)
      requires Valid()
      modifies this`cells, this`trails
      ensures Valid() && (ended <==> KeyOf(target) in old(cells).at && Endable(old(cells).at[KeyOf(target)], at))
      ensures cells == if ended then Apply(old(cells), target, [Probe(at)]) else old(cells)
    {
      hide Valid, Apply;
      ended := KeyOf(target) in cells.at && Endable(cells.at[KeyOf(target)], at);
      if ended { Absorb(target, [Probe(at)]); }
    }

    /** `clearCooldownState`: one pass over the cells. */
    method ClearCooldownState(sel: Selector)
      requires Valid()
      modifies this`cells, this`trails
      ensures Valid() && cells == Cleared(old(cells), sel)
    {
      hide CellsOk, LogOf, LeasesCounted, TrailsOk, Cleared;
      ClearedOk(cells, sel);
      ClearTrails(cells, trails, sel);
      trails := ClearedTrails(cells, trails, sel);
      cells := ClearEach(cells, sel);
    }

    static method ClearEach(s: Cells, sel: Selector) returns (r: Cells)
      requires CellsOk(s)
      ensures r == Cleared(s, sel)
    {
      hide CellsOk, Run, Matches, Cleared;
      InOrder(s);
      SameCleared(s, sel);
      ghost var goal := Cleared(s, sel);
      var at, i := s.at, 0;
      while i < |s.order|
        invariant 0 <= i <= |s.order| && at.Keys == s.at.Keys
        invariant forall j :: 0 <= j < i ==> at[s.order[j]] == goal.at[s.order[j]]
        invariant forall j :: i <= j < |s.order| ==> at[s.order[j]] == s.at[s.order[j]]
      {
        var k := s.order[i];
        ClearedAt(s, sel, k);
        if Matches(at[k].target, sel) { at := at[k := Run(at[k], CLEARING)]; }
        i := i + 1;
      }
      SameCells(s, at, goal.at);
      r := s.(at := at);
    }

    /**
     * `restoreState`: rows for keys this process has no cell for; how many were applied. What is known
     * of the events behind a row, in the process that wrote it, stays known.
     */
    method RestoreState(rows: seq<Cell>, ghost past: map<string, seq<Event>>) returns (applied: nat)
      requires Valid() && RowsRun(rows, past)
      modifies this`cells, this`trails
      ensures Valid() && cells == Restored(old(cells), rows) && applied == |cells.order| - |old(cells).order|
      ensures trails == RestoredTrails(old(cells), old(trails), rows, past)
    {
      hide LogOf, LeasesCounted, TrailsOk, CellsOk, RowRuns, Restored, RestoredTrails, KeyOf, Trimmed, WithPast;
      applied := 0;
      RestoredNone(cells, trails, rows[..0], past);
      for i := 0 to |rows|
        invariant Valid() && cells == Restored(old(cells), rows[..i]) && applied == |cells.order| - |old(cells).order|
        invariant trails == RestoredTrails(old(cells), old(trails), rows[..i], past)
      {
        RestoredOne(old(cells), old(trails), rows, i, past);
        var row := rows[i];
        if KeyOf(row.target) !in cells.at {
          RestoreKeeps(cells, trails, row, past);
          cells := Put(cells, KeyOf(row.target), Trimmed(row));
          trails := WithPast(trails, KeyOf(row.target), past);
          applied := applied + 1;
        }
      }
      assert rows[..|rows|] == rows;
    }

    /** `exportState`: every cell, cooling or not, in order of creation. */
    method ExportState() returns (rows: seq<Cell>)
      requires Valid()
      ensures rows == Exported(cells)
    {
      hide LogOf, LeasesCounted, TrailsOk, CellsOk;
      InOrder(cells);
      rows := [];
      for i := 0 to |cells.order|
        invariant rows == Exported(cells)[..i]
      {
        rows := rows + [cells.at[cells.order[i]]];
      }
    }

    predicate IsHealthy(target: Target, now: int) reads this {
      KeyOf(target) !in cells.at || cells.at[KeyOf(target)].cooldownUntil <= now
    }

    predicate HasCredentialFault(target: Target, now: int) reads this {
      KeyOf(target) in cells.at && cells.at[KeyOf(target)].credentialFaultUntil > now
    }

    /** `rateLimitCoolingCells`: the cells worth a probe, soonest lift first. */
    method RateLimitCoolingCells(now: int) returns (listed: seq<Lift<string>>)
      requires Valid()
      ensures listed == SortByLift(Listed(cells, cells.order, now))
    {
      hide CellOk, CellsOk, TrailsOk, LogOf, LeasesCounted;
      var out := [];
      for i := 0 to |cells.order|
        invariant out == Listed(cells, cells.order[..i], now)
      {
        var k := cells.order[i];
        assert cells.order[..i + 1][..i] == cells.order[..i];
        if k in cells.at && Listable(cells.at[k], now) { out := out + [Lift(k, Some(cells.at[k].cooldownUntil))]; }
      }
      assert cells.order[..|cells.order|] == cells.order;
      listed := SortByLift(out);
    }

    /**
     * A cell whose events are known, across restarts too, is listed exactly while it cools on a rung the relay
     * invented.
     */
    lemma ListedByItsHistory(k: string, now: int)
      requires Valid() && k in trails
      ensures var armed := ArmedBy(FreshCell(cells.at[k].target), trails[k]);
              && k in cells.at
              && (Listable(cells.at[k], now)
                  <==> cells.at[k].cooldownUntil > now && cells.at[k].source.Some? && armed.Some?
                       && Invented(cells.at[k].source.value, armed.value.status))
    {
      hide CellsOk, LogOf, LeasesCounted, Run, ArmedBy, Listable;
      ListedExactlyWhenInvented(cells.at[k].target, trails[k], now);
    }

    /** Every field of a cell whose events are known is what those events say. */
    lemma CellTellsItsHistory(k: string)
      requires Valid() && k in trails
      ensures k in cells.at && Tells(cells.at[k], cells.at[k].target, trails[k])
    {
      hide CellsOk, LogOf, LeasesCounted, Run, Tells;
      CellIsItsHistory(cells.at[k].target, trails[k]);
    }

    /** A target is healthy and without fault as its history says, or because nothing is known of it. */
    lemma StandsByItsHistory(target: Target, now: int)
      requires Valid() && (KeyOf(target) in cells.at ==> KeyOf(target) in trails) && now >= 0
      ensures var es := if KeyOf(target) in trails then trails[KeyOf(target)] else [];
              && (IsHealthy(target, now) <==> InForce(es).until <= now)
              && (HasCredentialFault(target, now) <==> LastFault(es).Some? && LastFault(es).value.at + 300_000 > now)
    {
      hide CellsOk, LogOf, LeasesCounted, Run;
      if KeyOf(target) in trails { CellTellsItsHistory(KeyOf(target)); }
    }

    /** `attemptsInWindow`. */
    method AttemptsIn(target: Target, windowMs: int, now: int) returns (w: Window)
      requires Valid()
      ensures var log := if KeyOf(target) in starts then starts[KeyOf(target)] else [];
              w == WindowOf(log, windowMs, now)
    {
      hide CellsOk, TrailsOk, LogOf, LeasesCounted;
      var log := if KeyOf(target) in starts then starts[KeyOf(target)] else [];
      w := AttemptsInWindow(log, windowMs, now);
    }

    /** `reset`: every cell, lease and log is forgotten, and every handle issued so far is stale. */
    method Reset()
      requires Valid()
      modifies this
      ensures Valid() && cells == NO_CELLS && inFlight == map[] && starts == map[]
      ensures forall h, t :: h in old(attempts) ==> Judge(attempts, generation, owner, h, t) == Stale
    {
      hide LogOf, Leases;
      cells, inFlight, starts, history, trails := NO_CELLS, map[], map[], map[], map[];
      generation := generation + 1;
      forall c { NoLeases(attempts, generation, c); }
    }
  }

  // ---------------------------------------------------------------- trails

  /** Every cell this process created is the run of a fresh one over its events. */
  ghost predicate TrailsOk(s: Cells, trails: map<string, seq<Event>>) {
    forall k :: k in trails ==>
      k in s.at && AllDated(trails[k]) && s.at[k] == Run(FreshCell(s.at[k].target), trails[k])
  }

  /** The trails after some events; a cell restored from elsewhere has none. */
  ghost function Trailed(s: Cells, trails: map<string, seq<Event>>, target: Target,
        es: seq<Event>): map<string, seq<Event>> {
    var k := KeyOf(target);
    if |es| == 0 || (k in s.at && k !in trails) then trails
    else trails[k := (if k in trails then trails[k] else []) + es]
  }

  lemma {:induction false} RunConcat(c: Cell, xs: seq<Event>, ys: seq<Event>)
    ensures Run(c, xs + ys) == Run(Run(c, xs), ys)
  {
    hide Step;
    if |ys| == 0 {
      assert xs + ys == xs;
    } else {
      assert (xs + ys)[..|xs + ys| - 1] == xs + ys[..|ys| - 1];
      RunConcat(c, xs, ys[..|ys| - 1]);
    }
  }

  lemma {:induction false} ApplyTrails(s: Cells, trails: map<string, seq<Event>>, target: Target, es: seq<Event>)
    requires TrailsOk(s, trails) && AllDated(es)
    ensures TrailsOk(Apply(s, target, es), Trailed(s, trails, target, es))
  {
    hide Step;
    var k := KeyOf(target);
    var before := if k in trails then trails[k] else [];
    StepKeepsTarget(Get(s, target), es);
    if k in s.at { RunConcat(FreshCell(s.at[k].target), before, es); }
    else { RunConcat(FreshCell(target), before, es); }
  }

  ghost function ClearedTrails(s: Cells, trails: map<string, seq<Event>>, sel: Selector): map<string, seq<Event>> {
    map k | k in trails :: if k in s.at && Matches(s.at[k].target, sel) then trails[k] + CLEARING else trails[k]
  }

  lemma {:induction false} ClearTrails(s: Cells, trails: map<string, seq<Event>>, sel: Selector)
    requires TrailsOk(s, trails)
    ensures TrailsOk(Cleared(s, sel), ClearedTrails(s, trails, sel))
  {
    hide Run, Matches, Cleared, Dated;
    forall k | k in trails
      ensures k in Cleared(s, sel).at && AllDated(ClearedTrails(s, trails, sel)[k])
      ensures var c := Cleared(s, sel).at[k];
              c == Run(FreshCell(c.target), ClearedTrails(s, trails, sel)[k])
    {
      ClearedAt(s, sel, k);
      if Matches(s.at[k].target, sel) { ClearedRuns(s.at[k], trails[k]); }
    }
  }

  lemma {:induction false} ClearedRuns(c: Cell, es: seq<Event>)
    requires AllDated(es) && c == Run(FreshCell(c.target), es)
    ensures Run(c, CLEARING).target == c.target && AllDated(es + CLEARING)
    ensures Run(c, CLEARING) == Run(FreshCell(c.target), es + CLEARING)
  {
    hide Run;
    RunConcat(FreshCell(c.target), es, CLEARING);
    StepKeepsTarget(c, CLEARING);
  }

  lemma SameCells(s: Cells, a: map<string, Cell>, b: map<string, Cell>)
    requires CellsOk(s) && a.Keys == b.Keys == s.at.Keys
    requires forall j :: 0 <= j < |s.order| ==> s.order[j] in a && a[s.order[j]] == b[s.order[j]]
    ensures a == b
  {
    forall k | k in a ensures a[k] == b[k] {
      assert k in s.order;
    }
  }

  lemma SameCleared(s: Cells, sel: Selector)
    ensures Cleared(s, sel).order == s.order && Cleared(s, sel).at.Keys == s.at.Keys
  {
    hide Run, Matches;
  }

  lemma InOrder(s: Cells)
    requires CellsOk(s)
    ensures forall i :: 0 <= i < |s.order| ==> s.order[i] in s.at
    ensures forall i, j :: 0 <= i < j < |s.order| ==> s.order[i] != s.order[j]
    ensures forall k :: k in s.at ==> exists i :: 0 <= i < |s.order| && s.order[i] == k
  {
  }

  /** The events behind a row, where they are known, made the row what it is. */
  ghost predicate RowRuns(row: Cell, past: map<string, seq<Event>>) {
    KeyOf(row.target) in past ==>
      AllDated(past[KeyOf(row.target)]) && row == Run(FreshCell(row.target), past[KeyOf(row.target)])
  }

  ghost predicate RowsRun(rows: seq<Cell>, past: map<string, seq<Event>>) {
    forall i :: 0 <= i < |rows| ==> RowRuns(rows[i], past)
  }

  ghost function WithPast(trails: map<string, seq<Event>>, k: string,
        past: map<string, seq<Event>>): map<string, seq<Event>> {
    if k in past then trails[k := past[k]] else trails
  }

  /** The trails after a restore: those there were, and the past of every row that was applied. */
  ghost function RestoredTrails(
      s: Cells, trails: map<string, seq<Event>>, rows: seq<Cell>,
        past: map<string, seq<Event>>): map<string, seq<Event>>
  {
    if |rows| == 0 then trails
    else
      var k, before := KeyOf(rows[|rows| - 1].target), RestoredTrails(s, trails, rows[..|rows| - 1], past);
      if k in Restored(s, rows[..|rows| - 1]).at then before else WithPast(before, k, past)
  }

  lemma RestoredNone(s: Cells, trails: map<string, seq<Event>>, rows: seq<Cell>, past: map<string, seq<Event>>)
    requires |rows| == 0
    ensures Restored(s, rows) == s && RestoredTrails(s, trails, rows, past) == trails
  {
  }

  lemma RestoredOne(s: Cells, trails: map<string, seq<Event>>, rows: seq<Cell>, i: nat, past: map<string, seq<Event>>)
    requires i < |rows|
    ensures var r, ts, k := Restored(s, rows[..i]), RestoredTrails(s, trails, rows[..i], past), KeyOf(rows[i].target);
            && Restored(s, rows[..i + 1]) == (if k in r.at then r else Put(r, k, Trimmed(rows[i])))
            && RestoredTrails(s, trails, rows[..i + 1], past) == (if k in r.at then ts else WithPast(ts, k, past))
  {
    hide KeyOf, Put, Trimmed, WithPast;
    assert rows[..i + 1][..i] == rows[..i];
  }

  lemma RestoreKeeps(s: Cells, trails: map<string, seq<Event>>, row: Cell, past: map<string, seq<Event>>)
    requires CellsOk(s) && TrailsOk(s, trails) && KeyOf(row.target) !in s.at && RowRuns(row, past)
    ensures CellsOk(Put(s, KeyOf(row.target), Trimmed(row)))
    ensures TrailsOk(Put(s, KeyOf(row.target), Trimmed(row)), WithPast(trails, KeyOf(row.target), past))
  {
    hide CellOk, Run, KeyOf, Dated;
    PutOk(s, Trimmed(row));
    if KeyOf(row.target) in past { RunIsTrimmed(row.target, past[KeyOf(row.target)]); }
  }

  lemma RunIsTrimmed(target: Target, es: seq<Event>)
    requires AllDated(es)
    ensures Trimmed(Run(FreshCell(target), es)) == Run(FreshCell(target), es)
  {
    hide Run, Dated;
    RunOk(FreshCell(target), es);
  }

  /** What one process exports and the next one loads carries the trails of the first. */
  lemma {:induction false} ExportedRowsRun(s: Cells, trails: map<string, seq<Event>>)
    requires CellsOk(s) && TrailsOk(s, trails)
    ensures RowsRun(Loaded(Exported(s)), trails)
  {
    hide Loaded, Run, Dated;
    LoadedRowsRun(Exported(s), trails);
  }

  lemma {:induction false} LoadedRowsRun(rows: seq<Cell>, trails: map<string, seq<Event>>)
    requires RowsRun(rows, trails)
    ensures RowsRun(Loaded(rows), trails)
  {
    hide IsRow, RowRuns;
    if |rows| > 0 { LoadedRowsRun(rows[..|rows| - 1], trails); }
  }

  lemma EventsDated(target: Target, o: AttemptOutcome, seen: Option<Observation>)
    requires o.at >= 0
    ensures AllDated(EventsOf(target, o, seen))
  {
  }

  lemma {:induction false} SameLeases(attempts: map<Handle, Record>, h: Handle, seen: Observation, generation: nat)
    requires h in attempts
    ensures forall c ::
              Leases(attempts[h := attempts[h].(seen := Some(seen))], generation, c) == Leases(attempts, generation, c)
  {
  }

  // ---------------------------------------------------------------- logs and lists

  function HistoryOf(history: map<string, seq<Start>>, k: string): seq<Start> {
    if k in history then history[k] else []
  }

  lemma EmptyLog()
    ensures LogOf([]) == []
  {
  }

  lemma LogGrows(history: seq<Start>, s: Start)
    ensures LogOf(history + [s]) == Append(LogOf(history), s)
  {
    assert (history + [s])[..|history|] == history;
  }

  /** The cells worth a probe, in order of creation. */
  function Listed(s: Cells, keys: seq<string>, now: int): seq<Lift<string>> {
    if |keys| == 0 then []
    else
      var k := keys[|keys| - 1];
      Listed(s, keys[..|keys| - 1], now)
      + if k in s.at && Listable(s.at[k], now) then [Lift(k, Some(s.at[k].cooldownUntil))] else []
  }

  /** Exactly the listable cells are listed. */
  lemma {:induction false} ListedHolds(s: Cells, keys: seq<string>, now: int, k: string)
    ensures (exists x :: x in Listed(s, keys, now) && x.item == k) <==> k in keys && k in s.at && Listable(s.at[k], now)
    ensures forall x :: x in Listed(s, keys, now) ==> x.item in s.at && x.at == Some(s.at[x.item].cooldownUntil)
  {
    if |keys| > 0 {
      var init, last := keys[..|keys| - 1], keys[|keys| - 1];
      ListedHolds(s, init, now, k);
      assert keys == init + [last];
      if last in s.at && Listable(s.at[last], now) && k == last {
        assert Lift(k, Some(s.at[k].cooldownUntil)) in Listed(s, keys, now);
      }
    }
  }
}
