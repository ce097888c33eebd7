/** The two request validators the lifecycle actions run before they change
    anything: the one-live-membership guard of a purchase and the freeze window rules. */
module Validation {
  import opened Common
  import opened Memberships

  /** The purchase guard: a member who already holds an ACTIVE or FROZEN
      membership is refused; EXPIRED memberships are not looked at. */
  function ValidatePurchase(ms: seq<Membership>, user: UserId): (r: Result<UserId>)
    ensures r.Err? ==> r.error == AlreadyLive
    ensures r.Ok? ==> r.value == user
    ensures r.Err? <==> exists i :: 0 <= i < |ms| && ms[i].member == user && ms[i].status in {Active, Frozen}
  {
    if HasLiveMembership(ms, user) then Err(AlreadyLive) else Ok(user)
  }

  /** Only the member's own ACTIVE or FROZEN records matter: a history made of
      EXPIRED memberships, and other members' records of any status, never block. */
  lemma ExpiredNeverBlocks(ms: seq<Membership>, user: UserId)
    requires forall i :: 0 <= i < |ms| && ms[i].member == user ==> ms[i].status == Expired
    ensures ValidatePurchase(ms, user).Ok?
  {
  }

  datatype FreezeWindow = FreezeWindow(from: Day, to: Day) {
    function Days(): int {
      to - from
    }
  }

  /** The freeze window rules: the window must end after it starts (checked
      first) and must not start before today; starting today is allowed. */
  function ValidateFreezeWindow(from: Day, to: Day, today: Day): (r: Result<FreezeWindow>)
    ensures from >= to ==> r == Err(WindowOrder)
    ensures from < to && from < today ==> r == Err(WindowInPast)
    ensures r.Ok? <==> today <= from < to
    ensures r.Ok? ==> r.value.from == from && r.value.to == to && r.value.Days() >= 1
  {
    if from >= to then Err(WindowOrder)
    else if from < today then Err(WindowInPast)
    else Ok(FreezeWindow(from, to))
  }
}
