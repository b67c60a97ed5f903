/** Redelivered works: a day counts each request id once, for as long as its index has room. */
module Deliveries {
  import opened Common
  import opened Facts
  import opened Coverages
  import opened Minutes
  import opened Packets
  import opened Days

  /** What `applyTerminal` makes of a day it could open. */
  function Deliver(d: Day, w: TerminalWork, limit: nat): Day {
    if w.event.requestId in IdsOf(d.dedup) then d else DayAfter(d, w, limit)
  }

  function DeliverAll(d: Day, ws: seq<TerminalWork>, limit: nat): Day {
    if |ws| == 0 then d else Deliver(DeliverAll(d, ws[..|ws| - 1], limit), ws[|ws| - 1], limit)
  }

  function Requests(ws: seq<TerminalWork>): set<nat> {
    set i | 0 <= i < |ws| :: ws[i].event.requestId
  }

  /** The works whose id is neither known beforehand nor delivered earlier. */
  function Firsts(ws: seq<TerminalWork>, known: set<nat>): seq<TerminalWork> {
    if |ws| == 0 then []
    else
      var init, w := ws[..|ws| - 1], ws[|ws| - 1];
      if w.event.requestId in known + Requests(init) then Firsts(init, known) else Firsts(init, known) + [w]
  }

  predicate AreWorks(ws: seq<TerminalWork>) {
    forall i :: 0 <= i < |ws| ==> IsWork(ws[i])
  }

  lemma {:induction false} IdsCounted(ids: seq<nat>)
    requires StrictlySorted(ids)
    ensures |(set i | 0 <= i < |ids| :: ids[i])| == |ids|
  {
    var all := set i | 0 <= i < |ids| :: ids[i];
    if |ids| > 0 {
      var init, last := ids[..|ids| - 1], ids[|ids| - 1];
      IdsCounted(init);
      var fewer := set i | 0 <= i < |init| :: init[i];
      forall x | x in all ensures x in fewer + {last} {
        var i :| 0 <= i < |ids| && ids[i] == x;
        if i < |init| { assert init[i] == x; }
      }
      forall x | x in fewer ensures x in all && x != last {
        var i :| 0 <= i < |init| && init[i] == x;
        assert ids[i] == x;
      }
      assert ids[|ids| - 1] in all;
      assert all == fewer + {last};
    }
  }

  /** A work touches its day's index as `addDedup` does, whatever its folds do. */
  lemma {:induction false} IndexAfter(d: Day, w: TerminalWork, limit: nat)
    ensures DayAfter(d, w, limit).dedup == AddDedup(d, w.event.requestId, limit).dedup
  {
    hide MinuteAfter, NewlyDropped, MinuteOf, InsertId, Mark, MarkDroppedRows;
  }

  /** The index after a run of deliveries is the one before plus every id delivered, while it fits. */
  lemma {:induction false} IndexHolds(d: Day, ws: seq<TerminalWork>, limit: nat)
    requires SoundDay(d) && AreWorks(ws) && |IdsOf(d.dedup) + Requests(ws)| <= limit <= MAX_DEDUP_IDS
    ensures SoundDay(DeliverAll(d, ws, limit))
    ensures IdsOf(DeliverAll(d, ws, limit).dedup) == IdsOf(d.dedup) + Requests(ws)
  {
    hide SoundDay, IsWork, DayAfter, IdsOf, Requests;
    if |ws| == 0 {
      NoRequests(ws);
    } else {
      var init, w := ws[..|ws| - 1], ws[|ws| - 1];
      OneMoreRequest(ws);
      var known := IdsOf(d.dedup) + Requests(init);
      SubsetSize(known, IdsOf(d.dedup) + Requests(ws));
      IndexHolds(d, init, limit);
      var before := DeliverAll(d, init, limit);
      if w.event.requestId !in known {
        assert |known + {w.event.requestId}| == |known| + 1;
        assert IdsOf(d.dedup) + Requests(ws) == known + {w.event.requestId};
        DayStaysSound(before, w, limit);
        RoomFor(before, w, limit);
      }
    }
  }

  lemma NoRequests(ws: seq<TerminalWork>)
    requires |ws| == 0
    ensures Requests(ws) == {}
  {
  }

  lemma OneMoreRequest(ws: seq<TerminalWork>)
    requires |ws| > 0
    ensures Requests(ws) == Requests(ws[..|ws| - 1]) + {ws[|ws| - 1].event.requestId}
  {
    forall x | x in Requests(ws) ensures x in Requests(ws[..|ws| - 1]) + {ws[|ws| - 1].event.requestId} {
      var i :| 0 <= i < |ws| && ws[i].event.requestId == x;
      if i < |ws| - 1 { assert ws[..|ws| - 1][i] == ws[i]; }
    }
    forall x | x in Requests(ws[..|ws| - 1]) ensures x in Requests(ws) {
      var i :| 0 <= i < |ws| - 1 && ws[..|ws| - 1][i].event.requestId == x;
      assert ws[i].event.requestId == x;
    }
    assert ws[|ws| - 1].event.requestId in Requests(ws);
  }

  lemma {:induction false} RoomFor(d: Day, w: TerminalWork, limit: nat)
    requires SoundDay(d) && w.event.requestId !in IdsOf(d.dedup) && |IdsOf(d.dedup)| < limit
    ensures IdsOf(DayAfter(d, w, limit).dedup) == IdsOf(d.dedup) + {w.event.requestId}
  {
    hide SoundCell, IsCoverage, DayAfter, DayRows;
    IdsCounted(d.dedup.ids);
    IndexAfter(d, w, limit);
    AddDedupIds(d, w.event.requestId, limit);
  }

  /**
   * However often works are redelivered, the day is the one that got each request once, at its
   * first delivery; and what remains of the run really has one work per new request.
   */
  lemma {:induction false} EachRequestCountsOnce(d: Day, ws: seq<TerminalWork>, limit: nat)
    requires SoundDay(d) && AreWorks(ws) && |IdsOf(d.dedup) + Requests(ws)| <= limit <= MAX_DEDUP_IDS
    ensures DeliverAll(d, ws, limit) == DeliverAll(d, Firsts(ws, IdsOf(d.dedup)), limit)
    ensures Requests(Firsts(ws, IdsOf(d.dedup))) == Requests(ws) - IdsOf(d.dedup)
    ensures |Firsts(ws, IdsOf(d.dedup))| == |Requests(ws) - IdsOf(d.dedup)|
  {
    hide SoundDay, IsWork, DayAfter, IdsOf, Requests;
    if |ws| == 0 {
      NoRequests(ws);
      assert Requests(ws) - IdsOf(d.dedup) == {};
    } else {
      var init, w, known := ws[..|ws| - 1], ws[|ws| - 1], IdsOf(d.dedup);
      OneMoreRequest(ws);
      SubsetSize(known + Requests(init), known + Requests(ws));
      EachRequestCountsOnce(d, init, limit);
      IndexHolds(d, init, limit);
      var kept := Firsts(init, known);
      if w.event.requestId in known + Requests(init) {
        assert Requests(ws) - known == Requests(init) - known;
      } else {
        assert (kept + [w])[..|kept + [w]| - 1] == kept;
        OneMoreRequest(kept + [w]);
        assert Requests(ws) - known == (Requests(init) - known) + {w.event.requestId};
      }
    }
  }

  /**
   * A second delivery changes nothing exactly when the first one left the id in the index: it was
   * known, or there was room. A full index forgets, and the second delivery is counted again.
   */
  lemma {:induction false} RedeliveryIsFreeExactlyWhen(d: Day, w: TerminalWork, limit: nat)
    requires SoundDay(d) && IsWork(w) && limit <= MAX_DEDUP_IDS && d.dedup.dropped + 1 < MAX
    ensures Deliver(Deliver(d, w, limit), w, limit) == Deliver(d, w, limit)
            <==> w.event.requestId in IdsOf(d.dedup) || |d.dedup.ids| < limit
  {
    hide SoundCell, IsCoverage, DayAfter, DayRows, InsertId;
    var id := w.event.requestId;
    if id !in IdsOf(d.dedup) {
      var once := DayAfter(d, w, limit);
      DayStaysSound(d, w, limit);
      IndexAfter(d, w, limit);
      AddDedupIds(d, id, limit);
      IndexAfter(once, w, limit);
      assert forall x :: x in d.dedup.ids ==> x in IdsOf(d.dedup);
    }
  }
}
