/**
 * The attempt-start log of one breaker cell: pruned on every append, read as a sliding window. The
 * pruned log answers as the full history would, or says that it may not.
 */
module AttemptLogs {
  import opened Common

  const WINDOW_MS: int := 86_400_000
  const MAX_STARTS: nat := 10_000

  /** One attempt start; null when the request had no usable estimate. */
  datatype Start = Start(at: int, tokens: Option<nat>)

  datatype Window = Window(requests: nat, tokens: Option<nat>, saturated: bool)

  // ---------------------------------------------------------------- appending

  /** The first place from `i` on that a floor does not cut off. */
  function Old(log: seq<Start>, floor: int, i: nat): (n: nat)
    requires i <= |log|
    ensures i <= n <= |log|
    ensures forall j :: i <= j < n ==> log[j].at < floor
    ensures n < |log| ==> log[n].at >= floor
    decreases |log| - i
  {
    if i < |log| && log[i].at < floor then Old(log, floor, i + 1) else i
  }

  /** How many leading entries one append drops: the old ones, then any beyond the cap. */
  function Drop(all: seq<Start>, floor: int): (n: nat)
    ensures n <= |all| && |all| - n <= MAX_STARTS
  {
    var old' := Old(all, floor, 0);
    if |all| - old' > MAX_STARTS then |all| - MAX_STARTS else old'
  }

  function Append(log: seq<Start>, s: Start): seq<Start> {
    (log + [s])[Drop(log + [s], s.at - WINDOW_MS)..]
  }

  /** `recordAttemptStart` on the cell's log. */
  method RecordStart(log: seq<Start>, s: Start) returns (r: seq<Start>)
    ensures r == Append(log, s)
  {
    var all, floor := log + [s], s.at - WINDOW_MS;
    var drop := 0;
    while drop < |all| && all[drop].at < floor
      invariant 0 <= drop <= |all| && Old(all, floor, drop) == Old(all, floor, 0)
    {
      drop := drop + 1;
    }
    var overflow := |all| - drop - MAX_STARTS;
    if overflow > 0 { drop := drop + overflow; }
    r := all[drop..];
  }

  // ---------------------------------------------------------------- reading

  predicate Inside(s: Start, since: int, now: int) {
    since < s.at <= now
  }

  function AddTokens(sum: Option<nat>, s: Start): Option<nat> {
    if sum.None? || s.tokens.None? then None else Some(sum.value + s.tokens.value)
  }

  /** How many starts fall in a window. */
  function Count(starts: seq<Start>, since: int, now: int): nat {
    if |starts| == 0 then 0
    else Count(starts[..|starts| - 1], since, now) + if Inside(starts[|starts| - 1], since, now) then 1 else 0
  }

  /** Their estimated tokens: null as soon as one of them has no estimate. */
  function Tokens(starts: seq<Start>, since: int, now: int): Option<nat> {
    if |starts| == 0 then Some(0)
    else
      var t, last := Tokens(starts[..|starts| - 1], since, now), starts[|starts| - 1];
      if Inside(last, since, now) then AddTokens(t, last) else t
  }

  predicate Sorted(starts: seq<Start>) {
    forall i, j :: 0 <= i < j < |starts| ==> starts[i].at <= starts[j].at
  }

  /** Where the reading stops: everything from here on was started after the window opened. */
  function Tail(log: seq<Start>, since: int): (i: nat)
    ensures i <= |log| && forall j :: i <= j < |log| ==> log[j].at > since
  {
    if |log| == 0 || log[|log| - 1].at <= since then |log| else Tail(log[..|log| - 1], since)
  }

  /** What the log says about a window. */
  function WindowOf(log: seq<Start>, windowMs: int, now: int): Window {
    if windowMs <= 0 then Window(0, Some(0), false)
    else
      var since := now - windowMs;
      var tail := log[Tail(log, since)..];
      Window(Count(tail, since, now), Tokens(tail, since, now), |log| >= MAX_STARTS && Count(tail, since, now) == |log|)
  }

  /** `attemptsInWindow` on the cell's log: newest first, stopping at the first start outside. */
  method AttemptsInWindow(log: seq<Start>, windowMs: int, now: int) returns (w: Window)
    ensures w == WindowOf(log, windowMs, now)
  {
    hide Count, Tokens, Tail;
    if windowMs <= 0 { return Window(0, Some(0), false); }
    var since := now - windowMs;
    var requests, tokens: Option<nat>, i := 0, Some(0), |log|;
    assert log[..|log|] == log;
    NoneInside(log[|log|..], since, now);
    while i > 0 && log[i - 1].at > since
      invariant 0 <= i <= |log| && Tail(log[..i], since) == Tail(log, since)
      invariant requests == Count(log[i..], since, now) && tokens == Tokens(log[i..], since, now)
    {
      OneMore(log, i, since, now);
      if log[i - 1].at <= now {
        requests := requests + 1;
        tokens := AddTokens(tokens, log[i - 1]);
      }
      i := i - 1;
    }
    w := Window(requests, tokens, |log| >= MAX_STARTS && requests == |log|);
  }

  lemma {:induction false} OneMore(log: seq<Start>, i: nat, since: int, now: int)
    requires 0 < i <= |log| && log[i - 1].at > since
    ensures Count(log[i - 1..], since, now) == Count(log[i..], since, now) + if log[i - 1].at <= now then 1 else 0
    ensures Tokens(log[i - 1..], since, now)
            == if log[i - 1].at <= now then AddTokens(Tokens(log[i..], since, now), log[i - 1])
              else Tokens(log[i..], since, now)
    ensures Tail(log[..i], since) == Tail(log[..i - 1], since)
  {
    var one := [log[i - 1]];
    assert log[i - 1..] == one + log[i..];
    CountConcat(one, log[i..], since, now);
    assert one[..0] == [] && log[..i][..i - 1] == log[..i - 1];
    assert Count([], since, now) == 0 && Tokens([], since, now) == Some(0);
  }

  /** On a log in order of time the reading misses nothing. */
  lemma {:induction false} WindowOfSorted(log: seq<Start>, windowMs: int, now: int)
    requires Sorted(log) && windowMs > 0
    ensures var since := now - windowMs;
            WindowOf(log, windowMs, now) == Window(Count(log, since, now), Tokens(log, since, now),
                                                   |log| >= MAX_STARTS && Count(log, since, now) == |log|)
  {
    hide Count, Tokens, Tail;
    var since := now - windowMs;
    var i := Tail(log, since);
    assert log == log[..i] + log[i..];
    CountConcat(log[..i], log[i..], since, now);
    TailStops(log, since);
    NoneInside(log[..i], since, now);
  }

  lemma {:induction false} TailStops(log: seq<Start>, since: int)
    ensures Tail(log, since) > 0 ==> log[Tail(log, since) - 1].at <= since
  {
    if |log| > 0 && log[|log| - 1].at > since { TailStops(log[..|log| - 1], since); }
  }

  function Sum(a: Option<nat>, b: Option<nat>): Option<nat> {
    if a.None? || b.None? then None else Some(a.value + b.value)
  }

  lemma {:induction false} NoneInside(starts: seq<Start>, since: int, now: int)
    requires forall i :: 0 <= i < |starts| ==> !Inside(starts[i], since, now)
    ensures Count(starts, since, now) == 0 && Tokens(starts, since, now) == Some(0)
  {
    if |starts| > 0 { NoneInside(starts[..|starts| - 1], since, now); }
  }

  lemma {:induction false} CountBounded(starts: seq<Start>, since: int, now: int)
    ensures Count(starts, since, now) <= |starts|
    ensures Count(starts, since, now) == |starts| ==> forall i :: 0 <= i < |starts| ==> Inside(starts[i], since, now)
  {
    if |starts| > 0 { CountBounded(starts[..|starts| - 1], since, now); }
  }

  lemma {:induction false} CountConcat(xs: seq<Start>, ys: seq<Start>, since: int, now: int)
    ensures Count(xs + ys, since, now) == Count(xs, since, now) + Count(ys, since, now)
    ensures Tokens(xs + ys, since, now) == Sum(Tokens(xs, since, now), Tokens(ys, since, now))
  {
    if |ys| == 0 {
      assert xs + ys == xs;
    } else {
      assert (xs + ys)[..|xs + ys| - 1] == xs + ys[..|ys| - 1];
      CountConcat(xs, ys[..|ys| - 1], since, now);
    }
  }

  /** The token sum is null exactly when some counted start had no estimate. */
  lemma {:induction false} TokensNullExactlyWhen(starts: seq<Start>, since: int, now: int)
    ensures Tokens(starts, since, now).None?
            <==> exists i :: 0 <= i < |starts| && Inside(starts[i], since, now) && starts[i].tokens.None?
  {
    if |starts| > 0 {
      var init := starts[..|starts| - 1];
      TokensNullExactlyWhen(init, since, now);
      forall i | 0 <= i < |init| ensures init[i] == starts[i] {}
    }
  }

  // ---------------------------------------------------------------- the log against the history

  /** The log after every start ever. */
  function LogOf(history: seq<Start>): seq<Start> {
    if |history| == 0 then [] else Append(LogOf(history[..|history| - 1]), history[|history| - 1])
  }

  /**
   * The log is what is left of the history after its first k starts; those are older than the
   * widest window before the last start, unless the log is full.
   */
  predicate Represents(log: seq<Start>, history: seq<Start>, k: nat) {
    && k + |log| == |history| && log == history[k..] && |log| <= MAX_STARTS && (|history| > 0 ==> |log| > 0)
    && (|log| == MAX_STARTS || forall i :: 0 <= i < k ==> history[i].at < history[|history| - 1].at - WINDOW_MS)
  }

  lemma {:induction false} AppendRepresents(log: seq<Start>, history: seq<Start>, k: nat, s: Start)
    requires Represents(log, history, k) && Sorted(history + [s])
    ensures Represents(Append(log, s), history + [s], k + Drop(log + [s], s.at - WINDOW_MS))
  {
    hide Drop, Sorted;
    var all, floor := log + [s], s.at - WINDOW_MS;
    var d := Drop(all, floor);
    DropIsOld(all, floor);
    SliceOfWhole(log, history, k, s, d);
    if |all| - d != MAX_STARTS {
      PrefixIsOld(log, history, k, s, d);
    }
  }

  lemma {:induction false} SliceOfWhole(log: seq<Start>, history: seq<Start>, k: nat, s: Start, d: nat)
    requires k + |log| == |history| && log == history[k..] && d <= |log| + 1
    ensures (log + [s])[d..] == (history + [s])[k + d..]
  {
    assert log + [s] == (history + [s])[k..];
  }

  /** Everything the append dropped, and everything dropped before it, is older than the floor. */
  lemma {:induction false} PrefixIsOld(log: seq<Start>, history: seq<Start>, k: nat, s: Start, d: nat)
    requires Represents(log, history, k) && Sorted(history + [s]) && d <= |log|
    requires forall j :: 0 <= j < d ==> (log + [s])[j].at < s.at - WINDOW_MS
    requires |log| == MAX_STARTS ==> d > 0
    ensures forall i :: 0 <= i < k + d ==> (history + [s])[i].at < s.at - WINDOW_MS
  {
    forall i | 0 <= i < k + d ensures (history + [s])[i].at < s.at - WINDOW_MS {
      EntryIsOld(log, history, k, s, d, i);
    }
  }

  lemma {:induction false} EntryIsOld(log: seq<Start>, history: seq<Start>, k: nat, s: Start, d: nat, i: nat)
    requires Represents(log, history, k) && Sorted(history + [s]) && d <= |log| && i < k + d
    requires forall j :: 0 <= j < d ==> (log + [s])[j].at < s.at - WINDOW_MS
    requires |log| == MAX_STARTS ==> d > 0
    ensures (history + [s])[i].at < s.at - WINDOW_MS
  {
    var whole, all := history + [s], log + [s];
    if i >= k {
      assert whole[i] == log[i - k] == all[i - k];
    } else if d > 0 {
      assert whole[k] == log[0] == all[0];
    } else {
      assert whole[i] == history[i] && history[|history| - 1] == whole[|history| - 1];
      assert whole[|history| - 1].at <= whole[|history|].at;
    }
  }

  lemma {:induction false} DropIsOld(all: seq<Start>, floor: int)
    requires |all| > 0 && all[|all| - 1].at >= floor
    ensures var d := Drop(all, floor);
            && d < |all| && (|all| - d == MAX_STARTS || forall j :: 0 <= j < d ==> all[j].at < floor)
            && (|all| > MAX_STARTS ==> d > 0)
  {
  }

  lemma {:induction false} LogRepresents(history: seq<Start>) returns (k: nat)
    requires Sorted(history)
    ensures Represents(LogOf(history), history, k)
  {
    hide Append, Drop;
    k := 0;
    if |history| > 0 {
      var init, last := history[..|history| - 1], history[|history| - 1];
      k := LogRepresents(init);
      assert history == init + [last];
      AppendRepresents(LogOf(init), init, k, last);
      k := k + Drop(LogOf(init) + [last], last.at - WINDOW_MS);
    }
  }

  /**
   * The log answers for the full history: the count is the history's up to the cap, it is marked
   * saturated exactly when the history holds a capful, and the token sum is the history's too,
   * of its newest starts when saturated. Windows up to the widest, read no earlier than the last start.
   */
  lemma {:induction false} WindowOfHistory(history: seq<Start>, windowMs: int, now: int)
    requires Sorted(history) && 0 < windowMs <= WINDOW_MS
    requires |history| > 0 ==> history[|history| - 1].at <= now
    ensures var w, since := WindowOf(LogOf(history), windowMs, now), now - windowMs;
            && w.requests == Min(Count(history, since, now), MAX_STARTS)
            && (w.saturated <==> Count(history, since, now) >= MAX_STARTS)
            && (w.saturated ==> |history| >= MAX_STARTS)
            && w.tokens == Tokens(if w.saturated then history[|history| - MAX_STARTS..] else history, since, now)
  {
    hide LogOf, Count, Tokens, WindowOf, Represents, Inside;
    var k := LogRepresents(history);
    var log, since := LogOf(history), now - windowMs;
    RepresentsTail(log, history, k);
    WindowOfSorted(log, windowMs, now);
    if |log| >= MAX_STARTS && Count(log, since, now) == |log| {
      ReadingFull(log, history, k, since, now);
    } else {
      ReadingWhole(log, history, k, since, now);
    }
  }

  lemma {:induction false} RepresentsTail(log: seq<Start>, history: seq<Start>, k: nat)
    requires Represents(log, history, k) && Sorted(history)
    ensures Sorted(log)
  {
  }

  lemma {:induction false} ReadingFull(log: seq<Start>, history: seq<Start>, k: nat, since: int, now: int)
    requires Represents(log, history, k) && |log| >= MAX_STARTS && Count(log, since, now) == |log|
    ensures |log| == MAX_STARTS <= |history| && log == history[|history| - MAX_STARTS..]
    ensures Count(history, since, now) >= MAX_STARTS
  {
    assert history == history[..k] + log;
    CountConcat(history[..k], log, since, now);
  }

  lemma {:induction false} ReadingWhole(log: seq<Start>, history: seq<Start>, k: nat, since: int, now: int)
    requires Sorted(history) && Represents(log, history, k) && now - WINDOW_MS <= since
    requires |history| > 0 ==> history[|history| - 1].at <= now
    requires |log| < MAX_STARTS || Count(log, since, now) != |log|
    ensures Count(history, since, now) == Count(log, since, now) < MAX_STARTS
    ensures Tokens(history, since, now) == Tokens(log, since, now)
  {
    hide Count, Tokens, Inside, Sorted;
    assert history == history[..k] + log;
    CountConcat(history[..k], log, since, now);
    CountBounded(log, since, now);
    DroppedOutside(history, log, k, since, now);
    NoneInside(history[..k], since, now);
  }

  lemma {:induction false} DroppedOutside(history: seq<Start>, log: seq<Start>, k: nat, since: int, now: int)
    requires Sorted(history) && Represents(log, history, k) && now - WINDOW_MS <= since
    requires |history| > 0 ==> history[|history| - 1].at <= now
    requires |log| < MAX_STARTS || Count(log, since, now) < |log|
    ensures forall i :: 0 <= i < k ==> !Inside(history[..k][i], since, now)
  {
    hide Count;
    forall i | 0 <= i < k ensures !Inside(history[i], since, now) {
      if |log| == MAX_STARTS {
        OneOutside(log, since, now);
        assert history[i].at <= history[k].at == log[0].at;
      }
    }
  }

  lemma {:induction false} OneOutside(log: seq<Start>, since: int, now: int)
    requires Sorted(log) && Count(log, since, now) < |log|
    requires forall i :: 0 <= i < |log| ==> log[i].at <= now
    ensures log[0].at <= since
  {
    if log[0].at > since {
      AllInside(log, since, now);
    }
  }

  lemma {:induction false} AllInside(log: seq<Start>, since: int, now: int)
    requires forall i :: 0 <= i < |log| ==> Inside(log[i], since, now)
    ensures Count(log, since, now) == |log|
  {
    if |log| > 0 { AllInside(log[..|log| - 1], since, now); }
  }

  /**
   * A ceiling kept at every start is kept in every fixed window: if no window ending at a start
   * holds more than a limit, no window of that width does, wherever it lies.
   */
  lemma {:induction false} SlidingBoundsFixed(history: seq<Start>, windowMs: int, limit: nat, from: int)
    requires Sorted(history) && windowMs > 0
    requires forall i :: 0 <= i < |history| ==> Count(history, history[i].at - windowMs, history[i].at) <= limit
    ensures Count(history, from, from + windowMs) <= limit
  {
    if exists i :: 0 <= i < |history| && Inside(history[i], from, from + windowMs) {
      var last :| 0 <= last < |history| && Inside(history[last], from, from + windowMs);
      while last + 1 < |history| && Inside(history[last + 1], from, from + windowMs)
        invariant 0 <= last < |history| && Inside(history[last], from, from + windowMs)
        decreases |history| - last
      {
        last := last + 1;
      }
      assert forall j :: last < j < |history| ==> !Inside(history[j], from, from + windowMs);
      Narrower(history, from, from + windowMs, history[last].at - windowMs, history[last].at);
    } else {
      NoneInside(history, from, from + windowMs);
    }
  }

  lemma {:induction false} Narrower(starts: seq<Start>, since: int, now: int, since': int, now': int)
    requires forall i :: 0 <= i < |starts| && Inside(starts[i], since, now) ==> Inside(starts[i], since', now')
    ensures Count(starts, since, now) <= Count(starts, since', now')
  {
    if |starts| > 0 { Narrower(starts[..|starts| - 1], since, now, since', now'); }
  }
}
