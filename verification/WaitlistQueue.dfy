/** Waitlist rows and the order (createdAt, id) in which they are served. */
module WaitlistQueue {
  import opened Domain

  predicate Before(a: WaitlistEntry, b: WaitlistEntry) {
    a.createdAt < b.createdAt || (a.createdAt == b.createdAt && a.id < b.id)
  }

  /** Keys are unique, and so is the pair of trip and passenger. */
  ghost predicate UniqueRows(rows: seq<WaitlistEntry>) {
    forall i, j :: 0 <= i < j < |rows| ==>
      rows[i].id != rows[j].id
      && !(rows[i].tripId == rows[j].tripId && rows[i].passengerId == rows[j].passengerId)
  }

  ghost predicate Sorted(rows: seq<WaitlistEntry>) {
    forall i, j :: 0 <= i < j < |rows| ==> Before(rows[i], rows[j])
  }

  function Insert(e: WaitlistEntry, rows: seq<WaitlistEntry>): seq<WaitlistEntry> {
    if rows == [] || Before(e, rows[0]) then [e] + rows
    else [rows[0]] + Insert(e, rows[1..])
  }

  /** The query: rows of the given trips, ordered by creation time and then by key. */
  function Ordered(rows: seq<WaitlistEntry>, tripIds: set<TripId>): seq<WaitlistEntry> {
    if rows == [] then []
    else if rows[0].tripId in tripIds then Insert(rows[0], Ordered(rows[1..], tripIds))
    else Ordered(rows[1..], tripIds)
  }

  function Queue(rows: seq<WaitlistEntry>, tripId: TripId): seq<WaitlistEntry> {
    Ordered(rows, {tripId})
  }

  function OnTrip(rows: seq<WaitlistEntry>, tripId: TripId): nat {
    if rows == [] then 0
    else OnTrip(rows[..|rows| - 1], tripId) + if rows[|rows| - 1].tripId == tripId then 1 else 0
  }

  lemma OnTripAfterOne(rows: seq<WaitlistEntry>, i: nat, tripId: TripId)
    requires i < |rows|
    ensures OnTrip(rows[..i + 1], tripId) == OnTrip(rows[..i], tripId) + if rows[i].tripId == tripId then 1 else 0
  {
    assert rows[..i + 1][..i] == rows[..i];
  }

  /** How many rows of the same trip come before this one. */
  function Ahead(rows: seq<WaitlistEntry>, e: WaitlistEntry): nat {
    if rows == [] then 0
    else (if rows[0].tripId == e.tripId && Before(rows[0], e) then 1 else 0) + Ahead(rows[1..], e)
  }

  /** The place in the queue, counted from the unordered table alone. */
  function Rank(rows: seq<WaitlistEntry>, e: WaitlistEntry): nat {
    1 + Ahead(rows, e)
  }

  // ---- the query ----

  lemma {:induction false} InsertMembers(e: WaitlistEntry, rows: seq<WaitlistEntry>)
    ensures multiset(Insert(e, rows)) == multiset(rows) + multiset{e}
  {
    if !(rows == [] || Before(e, rows[0])) {
      InsertMembers(e, rows[1..]);
      assert rows == [rows[0]] + rows[1..];
    }
  }

  lemma {:induction false} InsertSorted(e: WaitlistEntry, rows: seq<WaitlistEntry>)
    requires Sorted(rows) && forall f :: f in rows ==> f.id != e.id
    ensures Sorted(Insert(e, rows))
  {
    if !(rows == [] || Before(e, rows[0])) {
      InsertSorted(e, rows[1..]);
      InsertMembers(e, rows[1..]);
      forall f | f in Insert(e, rows[1..]) ensures Before(rows[0], f) {
        assert f in multiset(Insert(e, rows[1..]));
        assert f == e || f in rows[1..];
        assert rows[0] in rows;
      }
    }
  }

  /** The query returns exactly the rows of those trips, each once, in order. */
  lemma {:induction false} OrderedIsQuery(rows: seq<WaitlistEntry>, tripIds: set<TripId>)
    requires UniqueRows(rows)
    ensures Sorted(Ordered(rows, tripIds))
    ensures var answer := Ordered(rows, tripIds);
            forall i, j :: 0 <= i < j < |answer| ==>
              answer[i].createdAt < answer[j].createdAt
              || (answer[i].createdAt == answer[j].createdAt && answer[i].id < answer[j].id)
    ensures forall e :: e in Ordered(rows, tripIds) <==> e in rows && e.tripId in tripIds
  {
    if rows != [] {
      var rest := Ordered(rows[1..], tripIds);
      OrderedIsQuery(rows[1..], tripIds);
      assert rows == [rows[0]] + rows[1..];
      if rows[0].tripId in tripIds {
        InsertSorted(rows[0], rest);
        InsertMembers(rows[0], rest);
        forall e ensures e in Insert(rows[0], rest) <==> e in rest || e == rows[0] {
          assert e in Insert(rows[0], rest) <==> e in multiset(Insert(rows[0], rest));
        }
      }
    }
  }

  // ---- ranks ----

  lemma {:induction false} AheadInsert(x: WaitlistEntry, rows: seq<WaitlistEntry>, e: WaitlistEntry)
    ensures Ahead(Insert(x, rows), e) == Ahead([x] + rows, e)
  {
    assert ([x] + rows)[1..] == rows;
    if !(rows == [] || Before(x, rows[0])) {
      AheadInsert(x, rows[1..], e);
      assert ([rows[0]] + Insert(x, rows[1..]))[1..] == Insert(x, rows[1..]);
      assert ([x] + rows[1..])[1..] == rows[1..];
    }
  }

  /** Sorting and dropping other trips does not change who is ahead. */
  lemma {:induction false} AheadOrdered(rows: seq<WaitlistEntry>, tripIds: set<TripId>, e: WaitlistEntry)
    requires e.tripId in tripIds
    ensures Ahead(Ordered(rows, tripIds), e) == Ahead(rows, e)
  {
    if rows != [] {
      AheadOrdered(rows[1..], tripIds, e);
      var rest := Ordered(rows[1..], tripIds);
      AheadInsert(rows[0], rest, e);
      assert ([rows[0]] + rest)[1..] == rest;
    }
  }

  lemma {:induction false} AheadConcat(a: seq<WaitlistEntry>, b: seq<WaitlistEntry>, e: WaitlistEntry)
    ensures Ahead(a + b, e) == Ahead(a, e) + Ahead(b, e)
  {
    if a == [] {
      assert a + b == b;
    } else {
      AheadConcat(a[1..], b, e);
      assert (a + b)[1..] == a[1..] + b;
    }
  }

  lemma {:induction false} AheadNone(rows: seq<WaitlistEntry>, e: WaitlistEntry)
    requires forall f :: f in rows ==> !Before(f, e)
    ensures Ahead(rows, e) == 0
  {
    if rows != [] {
      assert rows[0] in rows;
      AheadNone(rows[1..], e);
    }
  }

  lemma {:induction false} AheadAll(rows: seq<WaitlistEntry>, e: WaitlistEntry)
    requires forall f :: f in rows ==> Before(f, e)
    ensures Ahead(rows, e) == OnTrip(rows, e.tripId)
  {
    if rows != [] {
      var last := |rows| - 1;
      AheadAll(rows[..last], e);
      AheadConcat(rows[..last], [rows[last]], e);
      assert rows == rows[..last] + [rows[last]];
      assert rows[last] in rows;
    }
  }

  /** In an ordered list the rows ahead of one are exactly the earlier ones of its trip. */
  lemma AheadInSorted(rows: seq<WaitlistEntry>, i: nat)
    requires Sorted(rows) && i < |rows|
    ensures Ahead(rows, rows[i]) == OnTrip(rows[..i], rows[i].tripId)
  {
    assert rows == rows[..i] + rows[i..];
    AheadConcat(rows[..i], rows[i..], rows[i]);
    AheadAll(rows[..i], rows[i]);
    forall f | f in rows[i..] ensures !Before(f, rows[i]) {
      var k :| i <= k < |rows| && rows[k] == f;
    }
    AheadNone(rows[i..], rows[i]);
  }

  lemma KeysDiffer(rows: seq<WaitlistEntry>, e: WaitlistEntry, f: WaitlistEntry)
    requires UniqueRows(rows) && e in rows && f in rows && e != f
    ensures e.id != f.id
  {
    var i :| 0 <= i < |rows| && rows[i] == e;
    var j :| 0 <= j < |rows| && rows[j] == f;
    assert i < j || j < i;
  }

  /** Over several trips at once: the rank of a row is one more than the rows of its trip before it in
      the answer of the query. */
  lemma OrderedRank(rows: seq<WaitlistEntry>, tripIds: set<TripId>, j: nat)
    requires UniqueRows(rows) && j < |Ordered(rows, tripIds)|
    ensures var answer := Ordered(rows, tripIds);
            Rank(rows, answer[j]) == OnTrip(answer[..j], answer[j].tripId) + 1
  {
    var answer := Ordered(rows, tripIds);
    OrderedIsQuery(rows, tripIds);
    assert answer[j] in answer;
    AheadInSorted(answer, j);
    AheadOrdered(rows, tripIds, answer[j]);
  }

  lemma OrderedKeysDiffer(rows: seq<WaitlistEntry>, tripIds: set<TripId>)
    requires UniqueRows(rows)
    ensures DistinctKeys(Ordered(rows, tripIds))
  {
    var answer := Ordered(rows, tripIds);
    OrderedIsQuery(rows, tripIds);
    forall i, j | 0 <= i < j < |answer| ensures answer[i].id != answer[j].id {
      assert answer[i] in answer && answer[j] in answer && Before(answer[i], answer[j]);
      KeysDiffer(rows, answer[i], answer[j]);
    }
  }

  ghost predicate DistinctKeys(rows: seq<WaitlistEntry>) {
    forall i, j :: 0 <= i < j < |rows| ==> rows[i].id != rows[j].id
  }

  lemma {:induction false} AllOnTrip(rows: seq<WaitlistEntry>, tripId: TripId)
    requires forall e :: e in rows ==> e.tripId == tripId
    ensures OnTrip(rows, tripId) == |rows|
  {
    if rows != [] {
      assert rows[|rows| - 1] in rows;
      AllOnTrip(rows[..|rows| - 1], tripId);
    }
  }

  /** The k-th row served on a trip has rank k + 1. */
  lemma QueuePositionIsRank(rows: seq<WaitlistEntry>, tripId: TripId, k: nat)
    requires UniqueRows(rows) && k < |Queue(rows, tripId)|
    ensures Rank(rows, Queue(rows, tripId)[k]) == k + 1
  {
    var queue := Queue(rows, tripId);
    OrderedIsQuery(rows, {tripId});
    OrderedRank(rows, {tripId}, k);
    assert queue[k] in queue;
    forall e | e in queue[..k] ensures e.tripId == tripId {
      assert e in queue;
    }
    AllOnTrip(queue[..k], tripId);
  }

  ghost predicate HasRank(rows: seq<WaitlistEntry>, tripId: TripId, p: nat) {
    exists e :: e in rows && e.tripId == tripId && Rank(rows, e) == p
  }

  /** On one trip the ranks are a bijection onto 1..n, n being the length of its queue. */
  lemma RanksAreABijection(rows: seq<WaitlistEntry>, tripId: TripId)
    requires UniqueRows(rows)
    ensures forall e :: e in rows && e.tripId == tripId ==> 1 <= Rank(rows, e) <= |Queue(rows, tripId)|
    ensures forall p: nat :: 1 <= p <= |Queue(rows, tripId)| ==> HasRank(rows, tripId, p)
    ensures forall e, f ::
      e in rows && f in rows && e.tripId == f.tripId == tripId && Rank(rows, e) == Rank(rows, f) ==> e == f
  {
    var queue := Queue(rows, tripId);
    OrderedIsQuery(rows, {tripId});
    forall k: nat | k < |queue| ensures Rank(rows, queue[k]) == k + 1 && queue[k] in queue {
      QueuePositionIsRank(rows, tripId, k);
    }
    forall e | e in rows && e.tripId == tripId ensures exists k: nat :: k < |queue| && queue[k] == e {
      assert e in queue;
    }
    forall p: nat | 1 <= p <= |queue| ensures HasRank(rows, tripId, p) {
      assert queue[p - 1] in queue;
    }
  }

  // ---- the order of service, by the columns alone ----

  /** Everybody on the same trip who joined earlier, or at the same instant with a smaller key. */
  ghost function AheadOf(rows: seq<WaitlistEntry>, e: WaitlistEntry): set<WaitlistEntry> {
    set f | f in rows && f.tripId == e.tripId
            && (f.createdAt < e.createdAt || (f.createdAt == e.createdAt && f.id < e.id))
  }

  lemma OneMoreAhead(row: WaitlistEntry, rest: seq<WaitlistEntry>, e: WaitlistEntry)
    requires row !in rest
    ensures |AheadOf([row] + rest, e)|
         == |AheadOf(rest, e)|
          + if row.tripId == e.tripId
               && (row.createdAt < e.createdAt || (row.createdAt == e.createdAt && row.id < e.id)) then 1 else 0
  {
    var rows := [row] + rest;
    if row in AheadOf(rows, e) {
      assert AheadOf(rows, e) == AheadOf(rest, e) + {row};
    } else {
      assert AheadOf(rows, e) == AheadOf(rest, e);
    }
  }

  /** The rank is one more than the number of those ahead. */
  lemma {:induction false} RankIsCount(rows: seq<WaitlistEntry>, e: WaitlistEntry)
    requires UniqueRows(rows)
    ensures Rank(rows, e) == 1 + |AheadOf(rows, e)|
  {
    if rows == [] {
      assert AheadOf(rows, e) == {};
    } else {
      var rest := rows[1..];
      RankIsCount(rest, e);
      assert rows == [rows[0]] + rest;
      assert rows[0] !in rest by {
        forall i | 0 <= i < |rest| ensures rest[i] != rows[0] {
          assert rest[i] == rows[i + 1];
        }
      }
      OneMoreAhead(rows[0], rest, e);
    }
  }

  /** First come, first served; the key decides between passengers who joined at the same instant. */
  lemma FirstComeFirstServed(rows: seq<WaitlistEntry>, e: WaitlistEntry, f: WaitlistEntry)
    requires UniqueRows(rows) && e in rows && f in rows && e.tripId == f.tripId
    ensures e.createdAt < f.createdAt ==> Rank(rows, e) < Rank(rows, f)
    ensures e.createdAt == f.createdAt && e.id < f.id ==> Rank(rows, e) < Rank(rows, f)
  {
    RankIsCount(rows, e);
    RankIsCount(rows, f);
    if e.createdAt < f.createdAt || (e.createdAt == f.createdAt && e.id < f.id) {
      assert e in AheadOf(rows, f) && e !in AheadOf(rows, e);
      SmallerSet(AheadOf(rows, e) + {e}, AheadOf(rows, f));
    }
  }

  lemma {:induction false} SmallerSet(a: set<WaitlistEntry>, b: set<WaitlistEntry>)
    requires a <= b
    ensures |a| <= |b|
  {
    assert b == a + (b - a);
  }

  /** The position told to somebody who has just joined. */
  lemma JoinedIsCounted(rows: seq<WaitlistEntry>, e: WaitlistEntry)
    requires UniqueRows(rows + [e])
    ensures Rank(rows + [e], e) == 1 + |AheadOf(rows, e)|
  {
    RankIsCount(rows + [e], e);
    assert AheadOf(rows + [e], e) == AheadOf(rows, e);
  }

  lemma {:induction false} NoRepeatsCount(rows: seq<WaitlistEntry>)
    requires forall i, j :: 0 <= i < j < |rows| ==> rows[i] != rows[j]
    ensures |set e | e in rows| == |rows|
  {
    if rows != [] {
      var last := |rows| - 1;
      NoRepeatsCount(rows[..last]);
      assert (set e | e in rows) == (set e | e in rows[..last]) + {rows[last]};
    }
  }

  lemma QueueHasNoRepeats(rows: seq<WaitlistEntry>, tripId: TripId)
    requires UniqueRows(rows)
    ensures |set e | e in Queue(rows, tripId)| == |Queue(rows, tripId)|
  {
    OrderedKeysDiffer(rows, {tripId});
    NoRepeatsCount(Queue(rows, tripId));
  }

  // ---- positions over several trips ----

  /** The map after giving the first `n` rows of an answer their position on their own trip. */
  ghost function PositionsUpTo(answer: seq<WaitlistEntry>, n: nat): map<nat, nat>
    requires n <= |answer|
  {
    if n == 0 then map[]
    else PositionsUpTo(answer, n - 1)[answer[n - 1].id := OnTrip(answer[..n - 1], answer[n - 1].tripId) + 1]
  }

  lemma {:induction false} PositionsAreOnTrip(answer: seq<WaitlistEntry>, n: nat, j: nat)
    requires j < n <= |answer| && DistinctKeys(answer)
    ensures answer[j].id in PositionsUpTo(answer, n)
    ensures PositionsUpTo(answer, n)[answer[j].id] == OnTrip(answer[..j], answer[j].tripId) + 1
  {
    if j < n - 1 {
      PositionsAreOnTrip(answer, n - 1, j);
    }
  }

  ghost predicate KeyOnTrips(rows: seq<WaitlistEntry>, tripIds: set<TripId>, id: nat) {
    exists e :: e in rows && e.tripId in tripIds && e.id == id
  }

  lemma {:induction false} OnlyAnswersHavePositions(rows: seq<WaitlistEntry>, tripIds: set<TripId>,
                                                    answer: seq<WaitlistEntry>, n: nat)
    requires n <= |answer| && forall e :: e in answer ==> e in rows && e.tripId in tripIds
    ensures forall id :: id in PositionsUpTo(answer, n) ==> KeyOnTrips(rows, tripIds, id)
  {
    if n > 0 {
      OnlyAnswersHavePositions(rows, tripIds, answer, n - 1);
      assert answer[n - 1] in answer;
      assert KeyOnTrips(rows, tripIds, answer[n - 1].id);
    }
  }

  /** Every waiting entry of those trips, and nobody else, is given its rank. */
  lemma PositionsAreRanks(rows: seq<WaitlistEntry>, tripIds: set<TripId>)
    requires UniqueRows(rows)
    ensures var positions := PositionsUpTo(Ordered(rows, tripIds), |Ordered(rows, tripIds)|);
            && (forall e :: e in rows && e.tripId in tripIds ==>
                  e.id in positions && positions[e.id] == Rank(rows, e) == 1 + |AheadOf(rows, e)|)
            && (forall id :: id in positions ==> KeyOnTrips(rows, tripIds, id))
  {
    var answer := Ordered(rows, tripIds);
    OrderedIsQuery(rows, tripIds);
    OnlyAnswersHavePositions(rows, tripIds, answer, |answer|);
    forall e | e in rows && e.tripId in tripIds
      ensures e.id in PositionsUpTo(answer, |answer|)
      ensures PositionsUpTo(answer, |answer|)[e.id] == Rank(rows, e) == 1 + |AheadOf(rows, e)|
    {
      PositionIsRank(rows, tripIds, e);
      RankIsCount(rows, e);
    }
  }

  lemma PositionIsRank(rows: seq<WaitlistEntry>, tripIds: set<TripId>, e: WaitlistEntry)
    requires UniqueRows(rows) && e in rows && e.tripId in tripIds
    ensures var answer := Ordered(rows, tripIds);
            e.id in PositionsUpTo(answer, |answer|) && PositionsUpTo(answer, |answer|)[e.id] == Rank(rows, e)
  {
    var answer := Ordered(rows, tripIds);
    assert e in answer by { OrderedIsQuery(rows, tripIds); }
    var j: nat :| j < |answer| && answer[j] == e;
    OrderedRank(rows, tripIds, j);
    OrderedKeysDiffer(rows, tripIds);
    PositionsAreOnTrip(answer, |answer|, j);
  }

  // ---- leaving ----

  function Without(rows: seq<WaitlistEntry>, i: nat): seq<WaitlistEntry>
    requires i < |rows|
  {
    rows[..i] + rows[i + 1..]
  }

  /** When an entry leaves, exactly the entries of its trip behind it move up by one. */
  lemma LeavingMovesUpThoseBehind(rows: seq<WaitlistEntry>, i: nat, e: WaitlistEntry)
    requires UniqueRows(rows) && i < |rows|
    ensures UniqueRows(Without(rows, i))
    ensures Rank(Without(rows, i), e)
         == Rank(rows, e)
          - if rows[i].tripId == e.tripId
               && (rows[i].createdAt < e.createdAt || (rows[i].createdAt == e.createdAt && rows[i].id < e.id))
            then 1 else 0
  {
    assert rows == rows[..i] + ([rows[i]] + rows[i + 1..]);
    AheadConcat(rows[..i], [rows[i]] + rows[i + 1..], e);
    AheadConcat([rows[i]], rows[i + 1..], e);
    AheadConcat(rows[..i], rows[i + 1..], e);
  }
}
