/** The bounded list of recent requests and the smaller set of details kept beside it. */
module RecentList {
  import opened Common
  import opened Facts
  import opened Coverages
  import opened Packets

  const MAX_RECENT_ROWS: nat := 100

  datatype Recent = Recent(rows: seq<RequestPacket>, details: map<nat, RequestPacket>, coverage: Coverage)

  const EMPTY_RECENT := Recent([], map[], EMPTY_COVERAGE)

  /** `isRecent` without the byte ceiling. */
  predicate IsRecent(r: Recent) {
    && |r.rows| <= MAX_RECENT_ROWS && (forall i :: 0 <= i < |r.rows| ==> IsRequestPacket(r.rows[i]))
    && |r.details| <= MAX_RECENT_ROWS
    && (forall id :: id in r.details ==> IsRequestPacket(r.details[id]) && r.details[id].requestId == id)
    && IsCoverage(r.coverage) && DistinctRequests(r.rows)
  }

  predicate DistinctRequests(rows: seq<RequestPacket>) {
    forall i, j :: 0 <= i < j < |rows| ==> rows[i].requestId != rows[j].requestId
  }

  /** Newest first: later end, then greater id. */
  predicate Newer(a: RequestPacket, b: RequestPacket) {
    a.endedAt > b.endedAt || (a.endedAt == b.endedAt && a.requestId > b.requestId)
  }

  predicate NewestFirst(rows: seq<RequestPacket>) {
    forall i, j :: 0 <= i < j < |rows| ==> Newer(rows[i], rows[j])
  }

  // ---------------------------------------------------------------- the simple thing

  /** The place of p in a list sorted newest first. */
  function Insert(rows: seq<RequestPacket>, p: RequestPacket): (r: seq<RequestPacket>)
    ensures |r| == |rows| + 1
  {
    if |rows| == 0 then [p]
    else if Newer(p, rows[0]) then [p] + rows
    else [rows[0]] + Insert(rows[1..], p)
  }

  /** Everything ever added, newest first. */
  function Ranking(history: seq<RequestPacket>): (r: seq<RequestPacket>)
    ensures |r| == |history|
  {
    if |history| == 0 then [] else Insert(Ranking(history[..|history| - 1]), history[|history| - 1])
  }

  function Take<T>(s: seq<T>, k: nat): seq<T> {
    if |s| <= k then s else s[..k]
  }

  function ById(rows: seq<RequestPacket>): map<nat, RequestPacket> {
    if |rows| == 0 then map[] else ById(rows[..|rows| - 1])[rows[|rows| - 1].requestId := rows[|rows| - 1]]
  }

  lemma {:induction false} InsertMembers(rows: seq<RequestPacket>, p: RequestPacket)
    ensures multiset(Insert(rows, p)) == multiset(rows) + multiset{p}
  {
    if |rows| > 0 && !Newer(p, rows[0]) {
      InsertMembers(rows[1..], p);
      assert rows == [rows[0]] + rows[1..];
    }
  }

  lemma {:induction false} InsertKeepsOrder(rows: seq<RequestPacket>, p: RequestPacket)
    requires NewestFirst(rows) && forall i :: 0 <= i < |rows| ==> rows[i].requestId != p.requestId
    ensures NewestFirst(Insert(rows, p))
  {
    if |rows| > 0 && !Newer(p, rows[0]) {
      InsertKeepsOrder(rows[1..], p);
      var rest := Insert(rows[1..], p);
      InsertMembers(rows[1..], p);
      forall i | 0 <= i < |rest| ensures Newer(rows[0], rest[i]) {
        assert rest[i] in multiset(rows[1..]) + multiset{p};
      }
    }
  }

  /** Cutting before or after an insertion gives the same top k. */
  lemma {:induction false} TakeInsert(rows: seq<RequestPacket>, p: RequestPacket, k: nat)
    ensures Take(Insert(Take(rows, k), p), k) == Take(Insert(rows, p), k)
    decreases |rows|
  {
    if |rows| > k {
      if k == 0 {
      } else if Newer(p, rows[0]) {
        assert Take(rows, k)[0] == rows[0];
        assert Take([p] + rows[..k], k) == Take([p] + rows, k);
      } else {
        assert rows[1..][..k - 1] == rows[..k][1..];
        TakeInsert(rows[1..], p, k - 1);
        assert Take(rows, k)[0] == rows[0] && Take(rows, k)[1..] == Take(rows[1..], k - 1);
        TakeCons(rows[0], Insert(Take(rows[1..], k - 1), p), k);
        TakeCons(rows[0], Insert(rows[1..], p), k);
      }
    }
  }

  lemma {:induction false} TakeCons(x: RequestPacket, s: seq<RequestPacket>, k: nat)
    requires k > 0
    ensures Take([x] + s, k) == [x] + Take(s, k - 1)
  {
  }

  lemma {:induction false} TakeTake(s: seq<RequestPacket>, j: nat, k: nat)
    requires j <= k
    ensures Take(Take(s, k), j) == Take(s, j)
  {
  }

  predicate FreshId(history: seq<RequestPacket>, p: RequestPacket) {
    forall i :: 0 <= i < |history| ==> history[i].requestId != p.requestId
  }

  lemma {:induction false} RankingMembers(history: seq<RequestPacket>)
    ensures multiset(Ranking(history)) == multiset(history)
  {
    hide Insert;
    if |history| > 0 {
      RankingMembers(history[..|history| - 1]);
      InsertMembers(Ranking(history[..|history| - 1]), history[|history| - 1]);
      assert history == history[..|history| - 1] + [history[|history| - 1]];
    }
  }

  /** The ranking of distinct requests is the one list of them sorted newest first. */
  lemma {:induction false} RankingSorted(history: seq<RequestPacket>)
    requires DistinctRequests(history)
    ensures NewestFirst(Ranking(history))
  {
    if |history| > 0 {
      var init, p := history[..|history| - 1], history[|history| - 1];
      RankingSorted(init);
      RankingMembers(init);
      forall i | 0 <= i < |Ranking(init)| ensures Ranking(init)[i].requestId != p.requestId {
        assert Ranking(init)[i] in multiset(init);
      }
      InsertKeepsOrder(Ranking(init), p);
    }
  }

  // ---------------------------------------------------------------- details

  function Ids(rows: seq<RequestPacket>): set<nat> {
    set i | 0 <= i < |rows| :: rows[i].requestId
  }

  lemma {:induction false} IdsAppend(rows: seq<RequestPacket>, p: RequestPacket)
    ensures Ids(rows + [p]) == Ids(rows) + {p.requestId}
  {
    var grown := rows + [p];
    assert grown[|rows|] == p;
    forall i | 0 <= i < |rows| ensures rows[i].requestId in Ids(grown) { assert grown[i] == rows[i]; }
  }

  lemma {:induction false} IdsCount(rows: seq<RequestPacket>)
    requires DistinctRequests(rows)
    ensures |Ids(rows)| == |rows|
  {
    if |rows| > 0 {
      var init, p := rows[..|rows| - 1], rows[|rows| - 1];
      IdsCount(init);
      IdsAppend(init, p);
      assert rows == init + [p];
      assert p.requestId !in Ids(init);
    }
  }

  /** Each kept detail is the row of its id. */
  predicate DetailsOf(details: map<nat, RequestPacket>, rows: seq<RequestPacket>) {
    forall id :: id in details ==> details[id].requestId == id && details[id] in rows
  }

  lemma {:induction false} ByIdHolds(rows: seq<RequestPacket>)
    requires DistinctRequests(rows)
    ensures ById(rows).Keys == Ids(rows) && DetailsOf(ById(rows), rows)
  {
    if |rows| > 0 {
      var init, p := rows[..|rows| - 1], rows[|rows| - 1];
      ByIdHolds(init);
      IdsAppend(init, p);
      assert rows == init + [p];
    }
  }

  /** A detail map over distinct rows is settled by its keys. */
  lemma {:induction false} SettledByKeys(details: map<nat, RequestPacket>, rows: seq<RequestPacket>,
        kept: seq<RequestPacket>)
    requires DistinctRequests(rows) && kept <= rows && DetailsOf(details, rows) && details.Keys == Ids(kept)
    ensures details == ById(kept)
  {
    ByIdHolds(kept);
    forall id | id in details ensures details[id] == ById(kept)[id] {
      var a, b := details[id], ById(kept)[id];
      var i :| 0 <= i < |rows| && rows[i] == a;
      var j :| 0 <= j < |kept| && kept[j] == b;
      assert rows[j] == b;
    }
  }

  // ---------------------------------------------------------------- the list over its history

  /** The recent list is exactly what the whole history says it should be. */
  ghost predicate Reflects(r: Recent, history: seq<RequestPacket>, limit: nat, detailLimit: nat) {
    && r.rows == Take(Ranking(history), limit)
    && r.details == ById(Take(r.rows, detailLimit))
    && |history| == |r.rows| + r.coverage.droppedRecent
    && |history| == |r.details| + r.coverage.droppedDetails
  }

  /** The rows after one more packet, before any cut: the old row of that request is replaced. */
  function Without(rows: seq<RequestPacket>, id: nat): seq<RequestPacket> {
    if |rows| == 0 then []
    else Without(rows[..|rows| - 1], id) + if rows[|rows| - 1].requestId == id then [] else [rows[|rows| - 1]]
  }

  lemma {:induction false} WithoutAbsent(rows: seq<RequestPacket>, id: nat)
    requires forall i :: 0 <= i < |rows| ==> rows[i].requestId != id
    ensures Without(rows, id) == rows
  {
    if |rows| > 0 {
      WithoutAbsent(rows[..|rows| - 1], id);
      assert rows == rows[..|rows| - 1] + [rows[|rows| - 1]];
    }
  }

  function DropRecent(c: Coverage): Coverage {
    Mark(c.(droppedRecent := Bump(c.droppedRecent)), DetailCap, TruncatedLoss, RecentField, 1)
  }

  function DropDetail(c: Coverage): Coverage {
    Mark(c.(droppedDetails := Bump(c.droppedDetails)), DetailCap, TruncatedLoss, DetailsField, 1)
  }

  lemma {:induction false} PopCounts(c: Coverage)
    ensures DropRecent(c).droppedRecent == Bump(c.droppedRecent) && DropRecent(c).droppedDetails == c.droppedDetails
  {
  }

  lemma {:induction false} DetailCounts(c: Coverage)
    ensures DropDetail(c).droppedDetails == Bump(c.droppedDetails) && DropDetail(c).droppedRecent == c.droppedRecent
  {
    hide AddLoss, KeepReason;
  }

  lemma {:induction false} DropsKeepGuard(c: Coverage)
    requires IsCoverage(c)
    ensures IsCoverage(DropRecent(c)) && IsCoverage(DropDetail(c))
  {
    MarkKeepsGuard(c.(droppedRecent := Bump(c.droppedRecent)), DetailCap, TruncatedLoss, RecentField, 1);
    MarkKeepsGuard(c.(droppedDetails := Bump(c.droppedDetails)), DetailCap, TruncatedLoss, DetailsField, 1);
  }

  // ---------------------------------------------------------------- one more packet

  predicate Limits(limit: nat, detailLimit: nat) {
    0 < limit <= MAX_RECENT_ROWS && 0 < detailLimit <= MAX_RECENT_ROWS
  }

  /** Sorting a sorted list with one packet after it is inserting that packet. */
  lemma {:induction false} RankingOfSorted(rows: seq<RequestPacket>)
    requires NewestFirst(rows)
    ensures Ranking(rows) == rows
  {
    if |rows| > 0 {
      var init, p := rows[..|rows| - 1], rows[|rows| - 1];
      RankingOfSorted(init);
      InsertLast(init, p);
    }
  }

  lemma {:induction false} InsertLast(rows: seq<RequestPacket>, p: RequestPacket)
    requires forall i :: 0 <= i < |rows| ==> Newer(rows[i], p)
    ensures Insert(rows, p) == rows + [p]
  {
    if |rows| > 0 { InsertLast(rows[1..], p); }
  }

  lemma {:induction false} RankingAppend(rows: seq<RequestPacket>, p: RequestPacket)
    ensures Ranking(rows + [p]) == Insert(Ranking(rows), p)
  {
    assert (rows + [p])[..|rows|] == rows;
  }

  /** The newest k after an insertion were among the newest k before it, or are the new packet. */
  lemma {:induction false} TopStays(rows: seq<RequestPacket>, p: RequestPacket, k: nat)
    ensures Ids(Take(Insert(rows, p), k)) <= Ids(Take(rows, k)) + {p.requestId}
  {
    TakeInsert(rows, p, k);
    var top := Insert(Take(rows, k), p);
    InsertMembers(Take(rows, k), p);
    forall i | 0 <= i < |Take(top, k)| ensures Take(top, k)[i].requestId in Ids(Take(rows, k)) + {p.requestId} {
      assert Take(top, k)[i] == top[i] && top[i] in multiset(Take(rows, k)) + multiset{p};
      if top[i] != p {
        var j :| 0 <= j < |Take(rows, k)| && Take(rows, k)[j] == top[i];
      }
    }
  }

  lemma {:induction false} WithoutMembers(rows: seq<RequestPacket>, id: nat)
    ensures forall p :: p in Without(rows, id) <==> p in rows && p.requestId != id
    ensures Ids(Without(rows, id)) == Ids(rows) - {id}
    ensures |Without(rows, id)| <= |rows|
  {
    if |rows| > 0 {
      var init, p := rows[..|rows| - 1], rows[|rows| - 1];
      WithoutMembers(init, id);
      IdsAppend(init, p);
      IdsAppend(Without(init, id), p);
      assert rows == init + [p];
    }
  }

  lemma {:induction false} WithoutOrder(rows: seq<RequestPacket>, id: nat)
    requires NewestFirst(rows)
    ensures NewestFirst(Without(rows, id))
  {
    if |rows| > 0 {
      var init, p := rows[..|rows| - 1], rows[|rows| - 1];
      WithoutOrder(init, id);
      WithoutMembers(init, id);
      var kept := Without(init, id);
      forall i | 0 <= i < |kept| ensures Newer(kept[i], p) {
        assert kept[i] in init;
      }
    }
  }

  lemma {:induction false} WithoutDistinct(rows: seq<RequestPacket>, id: nat)
    requires DistinctRequests(rows)
    ensures DistinctRequests(Without(rows, id))
  {
    if |rows| > 0 {
      var init, p := rows[..|rows| - 1], rows[|rows| - 1];
      WithoutDistinct(init, id);
      WithoutMembers(init, id);
      var kept := Without(init, id);
      forall i | 0 <= i < |kept| ensures kept[i].requestId != p.requestId {
        assert kept[i] in init;
      }
    }
  }

  /** The order needed to cut the list is always there, and the details are always its rows. */
  predicate Ordered(rows: seq<RequestPacket>, details: map<nat, RequestPacket>) {
    NewestFirst(rows) && DistinctRequests(rows) && DetailsOf(details, rows)
  }

  lemma {:induction false} NewRowsOrdered(rows: seq<RequestPacket>, p: RequestPacket, k: nat)
    requires NewestFirst(rows) && DistinctRequests(rows)
    ensures var r := Take(Insert(Without(rows, p.requestId), p), k);
            NewestFirst(r) && DistinctRequests(r)
    ensures forall q :: q in Take(Insert(Without(rows, p.requestId), p), k) ==> q == p || q in rows
  {
    hide Insert, Without;
    var others := Without(rows, p.requestId);
    WithoutMembers(rows, p.requestId);
    WithoutOrder(rows, p.requestId);
    WithoutDistinct(rows, p.requestId);
    assert FreshId(others, p) by {
      assert forall i :: 0 <= i < |others| ==> others[i] in others;
    }
    InsertKeepsOrder(others, p);
    InsertDistinct(others, p);
    InsertedAreOld(rows, p, k);
  }

  lemma {:induction false} InsertedAreOld(rows: seq<RequestPacket>, p: RequestPacket, k: nat)
    ensures forall q :: q in Take(Insert(Without(rows, p.requestId), p), k) ==> q == p || q in rows
  {
    hide Insert, Without;
    var others := Without(rows, p.requestId);
    WithoutMembers(rows, p.requestId);
    InsertMembers(others, p);
    forall q | q in Take(Insert(others, p), k) ensures q == p || q in rows {
      assert q in multiset(others) + multiset{p};
    }
  }

  lemma {:induction false} InsertDistinct(rows: seq<RequestPacket>, p: RequestPacket)
    requires DistinctRequests(rows) && FreshId(rows, p)
    ensures DistinctRequests(Insert(rows, p))
  {
    if |rows| > 0 && !Newer(p, rows[0]) {
      var rest := Insert(rows[1..], p);
      InsertDistinct(rows[1..], p);
      InsertMembers(rows[1..], p);
      forall i | 0 <= i < |rest| ensures rest[i].requestId != rows[0].requestId {
        assert rest[i] in multiset(rows[1..]) + multiset{p};
      }
    }
  }

  lemma {:induction false} RemoveOne(m: map<nat, RequestPacket>, id: nat)
    requires id in m
    ensures |m - {id}| == |m| - 1
  {
    assert (m - {id}).Keys == m.Keys - {id};
    assert |(m - {id}).Keys| == |m.Keys| - 1;
  }

  lemma {:induction false} WidenOne(m: map<nat, RequestPacket>, p: RequestPacket)
    ensures |m[p.requestId := p]| <= |m| + 1
    ensures p.requestId !in m ==> |m[p.requestId := p]| == |m| + 1
  {
    assert m[p.requestId := p].Keys == m.Keys + {p.requestId};
    assert |m.Keys + {p.requestId}| <= |m.Keys| + 1;
  }

  lemma {:induction false} SubsetSize(a: set<nat>, b: set<nat>)
    requires a <= b
    ensures |a| <= |b| && (|a| == |b| ==> a == b)
  {
    assert b == a + (b - a);
    if a != b {
      var x :| x in b - a;
      assert |b - a| > 0;
    }
  }

  lemma {:induction false} DetailIds(rows: seq<RequestPacket>, details: map<nat, RequestPacket>)
    requires DetailsOf(details, rows)
    ensures details.Keys <= Ids(rows)
  {
    forall id | id in details ensures id in Ids(rows) {
      var i :| 0 <= i < |rows| && rows[i] == details[id];
    }
  }

  lemma {:induction false} SomeDetailed(rows: seq<RequestPacket>, details: map<nat, RequestPacket>)
    requires DetailsOf(details, rows) && |details| > 0
    ensures exists i :: 0 <= i < |rows| && rows[i].requestId in details
  {
    assert details.Keys != {};
    var id :| id in details.Keys;
    var i :| 0 <= i < |rows| && rows[i] == details[id];
    assert rows[i].requestId in details;
  }

  /** With more than k details, the oldest detailed row is not among the newest k. */
  lemma {:induction false} OldestIsBeyond(rows: seq<RequestPacket>, details: map<nat, RequestPacket>, k: nat, j: nat)
    requires DistinctRequests(rows) && DetailsOf(details, rows) && |details| > k
    requires j < |rows| && forall i :: j < i < |rows| ==> rows[i].requestId !in details
    ensures rows[j].requestId !in Ids(Take(rows, k))
  {
    var seen := rows[..j + 1];
    forall id | id in details ensures id in Ids(seen) {
      var i :| 0 <= i < |rows| && rows[i] == details[id];
      assert seen[i] == rows[i];
    }
    IdsCount(seen);
    SubsetSize(details.Keys, Ids(seen));
    assert j >= k;
    forall i | 0 <= i < |Take(rows, k)| ensures Take(rows, k)[i].requestId != rows[j].requestId { }
  }

  /** At most k details that cover the newest k rows are exactly the details of those rows. */
  lemma {:induction false} TrimmedIsTop(rows: seq<RequestPacket>, details: map<nat, RequestPacket>, k: nat)
    requires DistinctRequests(rows) && DetailsOf(details, rows) && |details| <= k
    requires Ids(Take(rows, k)) <= details.Keys
    ensures details == ById(Take(rows, k))
  {
    var top := Take(rows, k);
    DetailIds(rows, details);
    IdsCount(top);
    SubsetSize(Ids(top), details.Keys);
    if |rows| > k { assert |top| == k; }
    SettledByKeys(details, rows, top);
  }

  lemma {:induction false} DetailsFollow(
    rows: seq<RequestPacket>, details: map<nat, RequestPacket>, p: RequestPacket,
    rows': seq<RequestPacket>, details': map<nat, RequestPacket>, limit: nat)
    requires NewestFirst(rows) && DistinctRequests(rows) && DetailsOf(details, rows)
    requires rows' == Take(Insert(Without(rows, p.requestId), p), limit)
    requires details' == map id | id in details[p.requestId := p] && id in Ids(rows') :: details[p.requestId := p][id]
    ensures DetailsOf(details', rows')
  {
    NewRowsOrdered(rows, p, limit);
    forall id | id in details' ensures details'[id].requestId == id && details'[id] in rows' {
      var i :| 0 <= i < |rows'| && rows'[i].requestId == id;
      if id == p.requestId {
        if rows'[i] != p { PacketWins(rows, p, rows', limit, i); }
      } else {
        assert rows'[i] in rows;
        var a :| 0 <= a < |rows| && rows[a] == rows'[i];
        var b :| 0 <= b < |rows| && rows[b] == details[id];
        assert a == b;
      }
    }
  }

  /** After an insertion the packet's id belongs to the packet itself. */
  lemma {:induction false} PacketWins(rows: seq<RequestPacket>, p: RequestPacket, rows': seq<RequestPacket>,
        limit: nat, i: nat)
    requires rows' == Take(Insert(Without(rows, p.requestId), p), limit) && i < |rows'|
    requires rows'[i].requestId == p.requestId
    ensures rows'[i] == p
  {
    WithoutMembers(rows, p.requestId);
    InsertMembers(Without(rows, p.requestId), p);
    assert rows'[i] in multiset(Without(rows, p.requestId)) + multiset{p};
  }

  /** The newest details were there before, so they are still there after a fresh packet. */
  lemma {:induction false} TopKept(
    rows: seq<RequestPacket>, details: map<nat, RequestPacket>, p: RequestPacket,
    rows': seq<RequestPacket>, details': map<nat, RequestPacket>, limit: nat, k: nat)
    requires DistinctRequests(rows) && FreshId(rows, p) && |rows| <= limit
    requires rows' == Take(Insert(rows, p), limit)
    requires Ids(Take(rows, k)) <= details.Keys
    requires details' == map id | id in details[p.requestId := p] && id in Ids(rows') :: details[p.requestId := p][id]
    ensures Ids(Take(rows', k)) <= details'.Keys
  {
    var m := if k <= limit then k else limit;
    TakeTake(Insert(rows, p), m, limit);
    TopStays(rows, p, m);
    assert Take(rows', k) == Take(Insert(rows, p), m);
    assert Ids(Take(rows, m)) <= Ids(Take(rows, k)) by {
      forall i | 0 <= i < |Take(rows, m)| ensures Take(rows, m)[i].requestId in Ids(Take(rows, k)) {
        assert Take(rows, k)[i] == rows[i];
      }
    }
    forall id | id in Ids(Take(rows', k)) ensures id in details' {
      var i :| 0 <= i < |Take(rows', k)| && Take(rows', k)[i].requestId == id;
      assert rows'[i].requestId == id;
    }
  }

  /** Every row and every detail of the new list is guarded. */
  lemma {:induction false} KeptGuarded(before: Recent, p: RequestPacket, rows: seq<RequestPacket>,
        details: map<nat, RequestPacket>)
    requires IsRecent(before) && IsRequestPacket(p) && DetailsOf(details, rows)
    requires forall q :: q in rows ==> q == p || q in before.rows
    ensures forall i :: 0 <= i < |rows| ==> IsRequestPacket(rows[i])
    ensures forall id :: id in details ==> IsRequestPacket(details[id]) && details[id].requestId == id
  {
    hide IsRequestPacket;
    forall i | 0 <= i < |rows| ensures IsRequestPacket(rows[i]) {
      assert rows[i] in rows;
    }
    forall id | id in details ensures IsRequestPacket(details[id]) {
      var i :| 0 <= i < |rows| && rows[i] == details[id];
    }
  }

  lemma {:induction false} FreshInHistory(history: seq<RequestPacket>, p: RequestPacket)
    requires DistinctRequests(history + [p])
    ensures DistinctRequests(history)
  {
    var grown := history + [p];
    forall i, j | 0 <= i < j < |history| ensures history[i].requestId != history[j].requestId {
      assert grown[i] == history[i] && grown[j] == history[j];
    }
  }

  lemma {:induction false} CountsFit(before: Recent, history: seq<RequestPacket>, p: RequestPacket, limit: nat,
        detailLimit: nat)
    requires Reflects(before, history, limit, detailLimit) && |history| < MAX && DistinctRequests(before.rows)
    ensures before.coverage.droppedRecent + |Insert(Without(before.rows, p.requestId), p)| <= MAX
    ensures before.coverage.droppedDetails + |before.details[p.requestId := p]| <= MAX
  {
    WithoutMembers(before.rows, p.requestId);
    WidenOne(before.details, p);
  }

  /** One fresh packet later, the list is again what the longer history says. */
  lemma {:induction false} StillReflects(
    before: Recent, history: seq<RequestPacket>, p: RequestPacket, after: Recent,
    active: map<nat, RequestPacket>, limit: nat, detailLimit: nat)
    requires DistinctRequests(history + [p]) && Limits(limit, detailLimit)
    requires Reflects(before, history, limit, detailLimit) && DistinctRequests(before.rows)
    requires after.rows == Take(Insert(Without(before.rows, p.requestId), p), limit)
    requires active
             == map id | id in before.details[p.requestId := p] && id in Ids(after.rows)
                         :: before.details[p.requestId := p][id]
    requires Ids(Take(after.rows, detailLimit)) <= active.Keys ==> after.details == ById(Take(after.rows, detailLimit))
    requires after.coverage.droppedRecent
             == before.coverage.droppedRecent + |Insert(Without(before.rows, p.requestId), p)| - |after.rows|
    requires after.coverage.droppedDetails
             == before.coverage.droppedDetails + |before.details[p.requestId := p]| - |after.details|
    ensures Reflects(after, history + [p], limit, detailLimit)
  {
    hide Insert, Ranking, Without, ById, NewestFirst;
    FreshInRows(before.rows, history, p, limit);
    WithoutAbsent(before.rows, p.requestId);
    TakeInsert(Ranking(history), p, limit);
    RankingAppend(history, p);
    var top := Take(before.rows, detailLimit);
    ByIdHolds(top);
    TopKept(before.rows, before.details, p, after.rows, active, limit, detailLimit);
    assert p.requestId !in before.details by {
      DetailIds(top, before.details);
      assert forall i :: 0 <= i < |top| ==> top[i] == before.rows[i];
    }
    WidenOne(before.details, p);
  }

  lemma {:induction false} AddedReflects(
    before: Recent, history: seq<RequestPacket>, p: RequestPacket, after: Recent,
    active: map<nat, RequestPacket>, limit: nat, detailLimit: nat)
    requires Limits(limit, detailLimit) && DistinctRequests(before.rows)
    requires DistinctRequests(history) && |history| <= MAX ==> Reflects(before, history, limit, detailLimit)
    requires after.rows == Take(Insert(Without(before.rows, p.requestId), p), limit)
    requires active
             == map id | id in before.details[p.requestId := p] && id in Ids(after.rows)
                         :: before.details[p.requestId := p][id]
    requires Ids(Take(after.rows, detailLimit)) <= active.Keys ==> after.details == ById(Take(after.rows, detailLimit))
    requires var popped := |Insert(Without(before.rows, p.requestId), p)| - |after.rows|;
             before.coverage.droppedRecent + popped <= MAX ==>
                 after.coverage.droppedRecent == before.coverage.droppedRecent + popped
    requires |after.details| <= |active| <= |before.details[p.requestId := p]|
    requires var gone := |before.details[p.requestId := p]| - |after.details|;
             before.coverage.droppedDetails + gone <= MAX ==>
                 after.coverage.droppedDetails == before.coverage.droppedDetails + gone
    ensures DistinctRequests(history + [p]) && |history + [p]| <= MAX ==>
              Reflects(after, history + [p], limit, detailLimit)
  {
    if DistinctRequests(history + [p]) && |history + [p]| <= MAX {
      FreshInHistory(history, p);
      CountsFit(before, history, p, limit, detailLimit);
      hide Insert, Without, ById, DistinctRequests, Reflects, Ids;
      StillReflects(before, history, p, after, active, limit, detailLimit);
    }
  }

  lemma {:induction false} FreshInRows(rows: seq<RequestPacket>, history: seq<RequestPacket>, p: RequestPacket,
        limit: nat)
    requires DistinctRequests(history + [p]) && rows == Take(Ranking(history), limit)
    ensures FreshId(rows, p) && DistinctRequests(history)
  {
    RankingMembers(history);
    var grown := history + [p];
    forall i, j | 0 <= i < j < |history| ensures history[i].requestId != history[j].requestId {
      assert grown[i] == history[i] && grown[j] == history[j];
    }
    forall i | 0 <= i < |rows| ensures rows[i].requestId != p.requestId {
      assert Ranking(history)[i] in multiset(history);
      var j :| 0 <= j < |history| && history[j] == rows[i];
      assert grown[j].requestId != grown[|history|].requestId;
    }
  }

  /** The mutable recent list of the store; `history` is everything ever added to it. */
  class RecentBook {
    const limit: nat
    const detailLimit: nat
    var rows: seq<RequestPacket>
    var details: map<nat, RequestPacket>
    var coverage: Coverage
    ghost var history: seq<RequestPacket>

    ghost function View(): Recent reads this {
      Recent(rows, details, coverage)
    }

    ghost predicate Valid() reads this {
      && Limits(limit, detailLimit) && IsRecent(View())
      && |rows| <= limit && |details| <= detailLimit && Ordered(rows, details)
      && (DistinctRequests(history) && |history| <= MAX ==> Reflects(View(), history, limit, detailLimit))
    }

    constructor (limit: nat, detailLimit: nat)
      requires Limits(limit, detailLimit)
      ensures Valid() && View() == EMPTY_RECENT && history == []
      ensures this.limit == limit && this.detailLimit == detailLimit
    {
      this.limit, this.detailLimit := limit, detailLimit;
      rows, details, coverage, history := [], map[], EMPTY_COVERAGE, [];
    }

    /** The recent list's share of a loss announced elsewhere. */
    method MarkLoss(reason: Reason, kind: LossKind, field: Field, count: nat)
      requires Valid() && 0 < count <= MAX
      modifies this`coverage
      ensures Valid() && coverage == Mark(old(coverage), reason, kind, field, count)
    {
      hide IsRequestPacket, AreLosses, DistinctRequests, Ordered, Ranking, ById;
      CoverageParts(coverage);
      MarkKeepsGuard(coverage, reason, kind, field, count);
      hide AddLoss, IsCoverage;
      coverage := Mark(coverage, reason, kind, field, count);
    }

    /** Rows beyond the cap are popped from the old end, each pop announced. */
    method PopExcess()
      requires IsCoverage(coverage)
      modifies this`rows, this`coverage
      ensures rows == Take(old(rows), limit)
      ensures IsCoverage(coverage) && coverage.droppedDetails == old(coverage).droppedDetails
      ensures old(coverage).droppedRecent + |old(rows)| - |rows| <= MAX
              ==> coverage.droppedRecent == old(coverage).droppedRecent + |old(rows)| - |rows|
    {
      hide IsCoverage, DropRecent;
      ghost var all := rows;
      while |rows| > limit
        invariant if |all| <= limit then |rows| == |all| else limit <= |rows| <= |all|
        invariant rows == all[..|rows|]
        invariant IsCoverage(coverage) && coverage.droppedDetails == old(coverage).droppedDetails
        invariant old(coverage).droppedRecent + |all| - |rows| <= MAX
                  ==> coverage.droppedRecent == old(coverage).droppedRecent + |all| - |rows|
      {
        DropsKeepGuard(coverage);
        PopCounts(coverage);
        rows, coverage := rows[..|rows| - 1], DropRecent(coverage);
      }
    }

    /** The rows: replace the request's old row, sort, then pop what is too old. */
    method AddRow(p: RequestPacket)
      requires NewestFirst(rows) && IsCoverage(coverage)
      modifies this`rows, this`coverage
      ensures rows == Take(Insert(Without(old(rows), p.requestId), p), limit)
      ensures IsCoverage(coverage)
      ensures coverage.droppedDetails == old(coverage).droppedDetails
      ensures var popped := |Insert(Without(old(rows), p.requestId), p)| - |rows|;
              old(coverage).droppedRecent + popped <= MAX ==>
                  coverage.droppedRecent == old(coverage).droppedRecent + popped
    {
      hide Insert, Ranking, Without, NewestFirst, IsCoverage;
      WithoutOrder(rows, p.requestId);
      RankingOfSorted(Without(rows, p.requestId));
      RankingAppend(Without(rows, p.requestId), p);
      rows := Ranking(Without(rows, p.requestId) + [p]);
      PopExcess();
    }

    /** The details of rows that are gone go too. */
    method DropInactive()
      requires IsCoverage(coverage)
      modifies this`details, this`coverage
      ensures details == (map id | id in old(details) && id in Ids(rows) :: old(details)[id])
      ensures IsCoverage(coverage) && coverage.droppedRecent == old(coverage).droppedRecent
      ensures old(coverage).droppedDetails + |old(details)| - |details| <= MAX
              ==> coverage.droppedDetails == old(coverage).droppedDetails + |old(details)| - |details|
      ensures |details| <= |old(details)|
    {
      var active := Ids(rows);
      var stale := details.Keys - active;
      ghost var before := details;
      while stale != {}
        invariant stale <= before.Keys - active
        invariant details == map id | id in before && (id in active || id in stale) :: before[id]
        invariant stale <= details.Keys
        invariant |details| <= |before|
        invariant IsCoverage(coverage) && coverage.droppedRecent == old(coverage).droppedRecent
        invariant old(coverage).droppedDetails + |before| - |details| <= MAX
                  ==> coverage.droppedDetails == old(coverage).droppedDetails + |before| - |details|
        decreases stale
      {
        var id :| id in stale;
        DropsKeepGuard(coverage);
        RemoveOne(details, id);
        details := details - {id};
        coverage := DropDetail(coverage);
        stale := stale - {id};
      }
    }

    /** The oldest row that still has a detail. */
    method OldestDetailed() returns (j: nat)
      requires exists i :: 0 <= i < |rows| && rows[i].requestId in details
      ensures j < |rows| && rows[j].requestId in details
      ensures forall i :: j < i < |rows| ==> rows[i].requestId !in details
    {
      j := |rows| - 1;
      while rows[j].requestId !in details
        invariant j < |rows|
        invariant forall i :: j < i < |rows| ==> rows[i].requestId !in details
        invariant exists i :: 0 <= i <= j && rows[i].requestId in details
        decreases j
      {
        j := j - 1;
      }
    }

    /** Details beyond the cap go, oldest row first. */
    method TrimDetails()
      requires Ordered(rows, details) && IsCoverage(coverage)
      modifies this`details, this`coverage
      ensures Ordered(rows, details) && |details| <= detailLimit
      ensures Ids(Take(rows, detailLimit)) <= old(details).Keys ==> details == ById(Take(rows, detailLimit))
      ensures IsCoverage(coverage) && coverage.droppedRecent == old(coverage).droppedRecent
      ensures |details| <= |old(details)|
      ensures old(coverage).droppedDetails + |old(details)| - |details| <= MAX
              ==> coverage.droppedDetails == old(coverage).droppedDetails + |old(details)| - |details|
    {
      hide IsCoverage, DropDetail, ById, IsRequestPacket, Ids;
      ghost var before := |details|;
      ghost var covered := Ids(Take(rows, detailLimit)) <= details.Keys;
      while |details| > detailLimit
        invariant Ordered(rows, details) && (covered ==> Ids(Take(rows, detailLimit)) <= details.Keys)
        invariant |details| <= before
        invariant IsCoverage(coverage) && coverage.droppedRecent == old(coverage).droppedRecent
        invariant old(coverage).droppedDetails + before - |details| <= MAX
                  ==> coverage.droppedDetails == old(coverage).droppedDetails + before - |details|
        decreases |details|
      {
        DetailCounts(coverage);
        DropOldestDetail();
      }
      if covered { TrimmedIsTop(rows, details, detailLimit); }
    }

    /** One turn of the trimming loop: the oldest row that still has a detail loses it. */
    method DropOldestDetail()
      requires Ordered(rows, details) && IsCoverage(coverage) && |details| > detailLimit
      modifies this`details, this`coverage
      ensures Ordered(rows, details) && IsCoverage(coverage)
      ensures |details| == |old(details)| - 1 && coverage == DropDetail(old(coverage))
      ensures Ids(Take(rows, detailLimit)) <= old(details).Keys ==> Ids(Take(rows, detailLimit)) <= details.Keys
    {
      hide IsCoverage, DropDetail, IsRequestPacket;
      SomeDetailed(rows, details);
      var j := OldestDetailed();
      OldestIsBeyond(rows, details, detailLimit, j);
      DropsKeepGuard(coverage);
      RemoveOne(details, rows[j].requestId);
      details := details - {rows[j].requestId};
      coverage := DropDetail(coverage);
    }

    /** `addRecent` up to the detail cap: the new row and its detail are in, dead details are out. */
    method Admit(p: RequestPacket) returns (ghost active: map<nat, RequestPacket>)
      requires Limits(limit, detailLimit) && Ordered(rows, details) && IsCoverage(coverage)
      modifies this`rows, this`details, this`coverage
      ensures rows == Take(Insert(Without(old(rows), p.requestId), p), limit)
      ensures active == details
      ensures details
              == (map id | id in old(details)[p.requestId := p] && id in Ids(rows)
                           :: old(details)[p.requestId := p][id])
      ensures Ordered(rows, details) && IsCoverage(coverage)
      ensures |details| <= |old(details)[p.requestId := p]| <= |old(details)| + 1
      ensures var popped := |Insert(Without(old(rows), p.requestId), p)| - |rows|;
              old(coverage).droppedRecent + popped <= MAX ==>
                  coverage.droppedRecent == old(coverage).droppedRecent + popped
      ensures var gone := |old(details)[p.requestId := p]| - |details|;
              old(coverage).droppedDetails + gone <= MAX ==>
                  coverage.droppedDetails == old(coverage).droppedDetails + gone
    {
      hide Insert, Without, NewestFirst, IsCoverage, DistinctRequests;
      ghost var rows0, details0 := rows, details;
      NewRowsOrdered(rows, p, limit);
      AddRow(p);
      WidenOne(details, p);
      details := details[p.requestId := p];
      DropInactive();
      active := details;
      DetailsFollow(rows0, details0, p, rows, active, limit);
    }

    /** `addRecent`. */
    method Add(p: RequestPacket)
      requires Valid() && IsRequestPacket(p)
      modifies this
      ensures Valid() && history == old(history) + [p]
      ensures rows == Take(Insert(Without(old(rows), p.requestId), p), limit)
    {
      hide IsRequestPacket, Insert, Without, IsCoverage, NewestFirst, Reflects, DistinctRequests, DetailsOf;
      ghost var before := View();
      ghost var h := history;
      NewRowsOrdered(rows, p, limit);
      ghost var active := Admit(p);
      TrimDetails();
      history := history + [p];
      KeptGuarded(before, p, rows, details);
      hide Ordered;
      AddedReflects(before, h, p, View(), active, limit, detailLimit);
    }
  }
}
