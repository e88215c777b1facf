/** The status a trip should have, derived from its confirmed seats. */
module StateMachine {
  import opened Domain

  /** Still taking bookings: the band that booking changes move a trip around in. */
  predicate IsActive(status: TripStatus) {
    status == TripStatus.Open || status == TripStatus.Full || status == TripStatus.Ready
  }

  predicate IsFinished(status: TripStatus) {
    status == TripStatus.Cancelled || status == TripStatus.Completed
  }

  function DeriveStatus(status: TripStatus, confirmed: nat, min: int, max: int): TripStatus {
    if !IsActive(status) then status
    else if confirmed >= max then TripStatus.Full
    else if confirmed >= min then TripStatus.Ready
    else TripStatus.Open
  }
}
