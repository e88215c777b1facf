/** Who may still review which trips: one trip at a time, and in one batch. */
module Reviews {
  import opened Domain
  import Text

  type Id = string

  datatype RideBooking = RideBooking(tripId: Id, passengerId: Id, status: BookingStatus)

  datatype Review = Review(tripId: Id, authorId: Id, rating: int, comment: string)

  /** The tables the review feature only reads: bookings, the concert of each trip, concert starts. */
  datatype Tables = Tables(bookings: seq<RideBooking>, concertOf: map<Id, Id>, startAt: map<Id, Instant>)

  datatype Verdict = Admitted | Unauthorized | NoSuchTrip | NotYetPast | NotAPassenger

  predicate IsHex(c: char) {
    '0' <= c <= '9' || 'a' <= c <= 'f' || 'A' <= c <= 'F'
  }

  predicate IsUuid(id: Id) {
    |id| == 36 && forall i :: 0 <= i < 36 ==> if i in {8, 13, 18, 23} then id[i] == '-' else IsHex(id[i])
  }

  /** Primary keys are UUIDs. */
  ghost predicate Keyed(db: Tables) {
    forall id :: id in db.concertOf ==> IsUuid(id)
  }

  predicate ConfirmedPassenger(bookings: seq<RideBooking>, tripId: Id, userId: Id) {
    exists i :: 0 <= i < |bookings| && bookings[i] == RideBooking(tripId, userId, BookingStatus.Confirmed)
  }

  predicate HasReviewed(reviews: seq<Review>, tripId: Id, authorId: Id) {
    exists i :: 0 <= i < |reviews| && reviews[i].tripId == tripId && reviews[i].authorId == authorId
  }

  /** The guard in front of posting one review. */
  function CanActivate(db: Tables, user: Option<Id>, tripId: Id, now: Instant): Verdict {
    if user.None? then Unauthorized
    else if !IsUuid(tripId) then NoSuchTrip
    else if tripId !in db.concertOf then NoSuchTrip
    else if db.concertOf[tripId] !in db.startAt then NoSuchTrip
    else if db.startAt[db.concertOf[tripId]] >= now then NotYetPast
    else if !ConfirmedPassenger(db.bookings, tripId, user.value) then NotAPassenger
    else Admitted
  }

  ghost predicate RodeAlong(db: Tables, tripId: Id, userId: Id) {
    exists b :: b in db.bookings && b.tripId == tripId && b.passengerId == userId && b.status == BookingStatus.Confirmed
  }

  /** A logged-in author may review a trip once its concert has started, as a passenger with a confirmed booking;
      the checks are made in this order. */
  lemma GuardInWords(db: Tables, user: Option<Id>, tripId: Id, now: Instant)
    requires Keyed(db)
    ensures var verdict := CanActivate(db, user, tripId, now);
            var known := tripId in db.concertOf && db.concertOf[tripId] in db.startAt;
            var past := known && db.startAt[db.concertOf[tripId]] < now;
            && (verdict == Unauthorized <==> user.None?)
            && (verdict == NoSuchTrip <==> user.Some? && !known)
            && (verdict == NotYetPast <==> user.Some? && known && !past)
            && (verdict == NotAPassenger <==> user.Some? && past && !RodeAlong(db, tripId, user.value))
            && (verdict == Admitted <==> user.Some? && past && RodeAlong(db, tripId, user.value))
  {
  }

  // ---- the batch ----

  /** The trip column of the author's confirmed bookings on the given trips, one entry per booking. */
  function ConfirmedIds(bookings: seq<RideBooking>, authorId: Id, ids: set<Id>): seq<Id> {
    if bookings == [] then []
    else
      var rest := ConfirmedIds(bookings[1..], authorId, ids);
      var b := bookings[0];
      if b.passengerId == authorId && b.tripId in ids && b.status == BookingStatus.Confirmed
      then [b.tripId] + rest else rest
  }

  function Excluding(ids: seq<Id>, gone: set<Id>): seq<Id> {
    if ids == [] then []
    else if ids[0] in gone then Excluding(ids[1..], gone)
    else [ids[0]] + Excluding(ids[1..], gone)
  }

  /** Batched over many trips, with a query per table and an early exit after each. */
  function ReviewableTripIds(db: Tables, reviews: seq<Review>, authorId: Id, tripIds: seq<Id>, now: Instant): set<Id> {
    var uniqueIds := set id | id in tripIds && id != "";
    if uniqueIds == {} then {}
    else
      var confirmedIds := ConfirmedIds(db.bookings, authorId, uniqueIds);
      if confirmedIds == [] then {}
      else
        var reviewed := set r | r in reviews && r.authorId == authorId && r.tripId in confirmedIds :: r.tripId;
        var candidates := Excluding(confirmedIds, reviewed);
        if candidates == [] then {}
        else
          var trips := set id | id in db.concertOf && id in candidates;
          var concertIds := set id | id in trips :: db.concertOf[id];
          var past := set c | c in db.startAt && c in concertIds && db.startAt[c] < now;
          set id | id in trips && db.concertOf[id] in past
  }

  lemma {:induction false} ConfirmedIdsAre(bookings: seq<RideBooking>, authorId: Id, ids: set<Id>, id: Id)
    ensures id in ConfirmedIds(bookings, authorId, ids) <==> id in ids && ConfirmedPassenger(bookings, id, authorId)
  {
    if bookings != [] {
      ConfirmedIdsAre(bookings[1..], authorId, ids, id);
      if ConfirmedPassenger(bookings[1..], id, authorId) {
        var i :| 0 <= i < |bookings[1..]| && bookings[1..][i] == RideBooking(id, authorId, BookingStatus.Confirmed);
        assert bookings[i + 1] == bookings[1..][i];
      }
      if ConfirmedPassenger(bookings, id, authorId)
         && bookings[0] != RideBooking(id, authorId, BookingStatus.Confirmed) {
        var i :| 0 <= i < |bookings| && bookings[i] == RideBooking(id, authorId, BookingStatus.Confirmed);
        assert bookings[1..][i - 1] == bookings[i];
      }
    }
  }

  lemma {:induction false} ExcludingIs(ids: seq<Id>, gone: set<Id>, id: Id)
    ensures id in Excluding(ids, gone) <==> id in ids && id !in gone
  {
    if ids != [] {
      ExcludingIs(ids[1..], gone, id);
      assert ids == [ids[0]] + ids[1..];
    }
  }

  /** The batch contains a trip exactly when it was asked for, the guard would admit the author to it,
      and the author has not reviewed it. */
  lemma BatchAgreesWithGuard(db: Tables, reviews: seq<Review>, authorId: Id, tripIds: seq<Id>, now: Instant, id: Id)
    requires Keyed(db)
    ensures id in ReviewableTripIds(db, reviews, authorId, tripIds, now)
       <==> id in tripIds && CanActivate(db, Some(authorId), id, now) == Admitted && !HasReviewed(reviews, id, authorId)
  {
    var uniqueIds := set i | i in tripIds && i != "";
    var confirmedIds := ConfirmedIds(db.bookings, authorId, uniqueIds);
    var reviewed := set r | r in reviews && r.authorId == authorId && r.tripId in confirmedIds :: r.tripId;
    ConfirmedIdsAre(db.bookings, authorId, uniqueIds, id);
    ExcludingIs(confirmedIds, reviewed, id);
    if HasReviewed(reviews, id, authorId) {
      var i :| 0 <= i < |reviews| && reviews[i].tripId == id && reviews[i].authorId == authorId;
      assert reviews[i] in reviews;
    } else {
      assert id !in reviewed;
    }
    if id in db.concertOf && id in Excluding(confirmedIds, reviewed) {
      var trips := set i | i in db.concertOf && i in Excluding(confirmedIds, reviewed);
      assert id in trips;
      assert db.concertOf[id] in set i | i in trips :: db.concertOf[i];
    }
  }

  // ---- posting ----

  class ReviewsService {
    var reviews: seq<Review>

    ghost predicate Valid()
      reads this
    {
      OneReviewEach(reviews)
    }

    constructor ()
      ensures Valid() && reviews == []
    {
      reviews := [];
    }

    /** Uniqueness is enforced here; the guard has already admitted the author. */
    method Create(tripId: Id, authorId: Id, rating: int, comment: string) returns (created: bool)
      requires Valid()
      modifies this
      ensures Valid()
      ensures created <==> !exists r :: r in old(reviews) && r.tripId == tripId && r.authorId == authorId
      ensures reviews == if created then old(reviews) + [Review(tripId, authorId, rating, Text.Trim(comment))]
                         else old(reviews)
    {
      for i := 0 to |reviews|
        invariant reviews == old(reviews)
        invariant forall r :: r in reviews[..i] ==> !(r.tripId == tripId && r.authorId == authorId)
      {
        if reviews[i].tripId == tripId && reviews[i].authorId == authorId {
          return false;
        }
      }
      assert reviews[..|reviews|] == reviews;
      reviews := reviews + [Review(tripId, authorId, rating, Text.Trim(comment))];
      return true;
    }
  }

  ghost predicate OneReviewEach(reviews: seq<Review>) {
    forall i, j :: 0 <= i < j < |reviews| ==>
      !(reviews[i].tripId == reviews[j].tripId && reviews[i].authorId == reviews[j].authorId)
  }

  /** Posting a review takes exactly that trip off that author's list, and off nobody else's. */
  lemma PostingTakesOneOff(db: Tables, reviews: seq<Review>, posted: Review, authorId: Id, tripIds: seq<Id>,
                           now: Instant, id: Id)
    requires Keyed(db)
    ensures id in ReviewableTripIds(db, reviews + [posted], authorId, tripIds, now)
       <==> id in ReviewableTripIds(db, reviews, authorId, tripIds, now)
            && !(id == posted.tripId && authorId == posted.authorId)
  {
    BatchAgreesWithGuard(db, reviews, authorId, tripIds, now, id);
    BatchAgreesWithGuard(db, reviews + [posted], authorId, tripIds, now, id);
    var after := reviews + [posted];
    if HasReviewed(reviews, id, authorId) {
      var i :| 0 <= i < |reviews| && reviews[i].tripId == id && reviews[i].authorId == authorId;
      assert after[i] == reviews[i];
    } else if HasReviewed(after, id, authorId) {
      var i :| 0 <= i < |after| && after[i].tripId == id && after[i].authorId == authorId;
      assert i < |reviews| ==> after[i] == reviews[i];
    }
    assert after[|reviews|] == posted;
  }
}
