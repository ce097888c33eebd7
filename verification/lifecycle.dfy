/** The member-facing actions on memberships: purchase, freeze, resume and
    upgrade. Each either refuses with an error and leaves the store as it was,
    or returns the whole new store, so every write of one action happens
    together or not at all. */
module Lifecycle {
  import opened Common
  import opened Plans
  import opened Payments
  import opened Memberships
  import opened Database
  import opened Validation

  /** The authenticated user making the request. */
  datatype Requester = Requester(user: UserId, isStaff: bool)

  /** Staff see every membership; everybody else sees only their own. */
  predicate Visible(who: Requester, m: Membership) {
    who.isStaff || m.member == who.user
  }

  /** Position of the membership a detail action addresses: the first record
      with that id among those visible to the requester. */
  function Locate(ms: seq<Membership>, who: Requester, id: MembershipId, from: nat := 0): (r: Option<nat>)
    requires from <= |ms|
    ensures r.Some? ==> from <= r.value < |ms| && ms[r.value].id == id && Visible(who, ms[r.value])
    ensures r.Some? ==> forall i :: from <= i < r.value ==> !(ms[i].id == id && Visible(who, ms[i]))
    ensures r.None? <==> forall i :: from <= i < |ms| ==> !(ms[i].id == id && Visible(who, ms[i]))
    decreases |ms| - from
  {
    if from == |ms| then None
    else if ms[from].id == id && Visible(who, ms[from]) then Some(from)
    else Locate(ms, who, id, from + 1)
  }

  /** Buying a plan: the plan must exist and the member must not already hold
      an ACTIVE or FROZEN membership. On success one ACTIVE membership running
      from today for the plan's duration at the plan's current price, and one
      PENDING purchase payment of that price for it, are appended. An end date
      past the last representable date makes the request fail and saves nothing. */
  function Purchase(s: Store, who: Requester, planId: PlanId, autoRenew: Option<bool>, today: Day): (r: Result<Store>)
    ensures !HasPlan(s.plans, planId) ==> r == Err(UnknownPlan)
    ensures HasPlan(s.plans, planId) && HasLiveMembership(s.memberships, who.user) ==> r == Err(AlreadyLive)
    ensures (HasPlan(s.plans, planId) && !HasLiveMembership(s.memberships, who.user)
             && today + FindPlan(s.plans, planId).value.durationDays > MaxDay) ==> r == Err(DateOverflow)
    ensures r.Ok? <==>
      && HasPlan(s.plans, planId) && !HasLiveMembership(s.memberships, who.user)
      && today + FindPlan(s.plans, planId).value.durationDays <= MaxDay
    ensures r.Ok? ==> |r.value.memberships| == |s.memberships| + 1 && |r.value.payments| == |s.payments| + 1
    ensures r.Ok? ==>
      var plan := FindPlan(s.plans, planId).value;
      var n := |s.memberships|;
      var m := r.value.memberships[n];
      && r.value.memberships[..n] == s.memberships
      && m.id == s.nextMembershipId
      && m.member == who.user
      && m.planId == planId
      && m.status == Active
      && m.startDate == today
      && m.endDate == today + plan.durationDays
      && m.priceAtPurchase == plan.price
      && m.autoRenew == (autoRenew == Some(true))
      && m.frozenFrom.None? && m.frozenTo.None?
      && r.value.nextMembershipId == s.nextMembershipId + 1
    ensures r.Ok? ==>
      var plan := FindPlan(s.plans, planId).value;
      var n := |s.payments|;
      var p := r.value.payments[n];
      && r.value.payments[..n] == s.payments
      && p.id == s.nextPaymentId
      && p.user == who.user
      && p.membershipId == s.nextMembershipId
      && p.kind == MembershipPurchase
      && p.status == Pending
      && p.errorMessage.None? && p.sessionId.None? && p.sessionUrl.None?
      && p.moneyToPay == plan.price
      && r.value.nextPaymentId == s.nextPaymentId + 1
    ensures r.Ok? ==> r.value.plans == s.plans
  {
    match FindPlan(s.plans, planId)
    case None => Err(UnknownPlan)
    case Some(plan) =>
      var _ :- ValidatePurchase(s.memberships, who.user);
      if today + plan.durationDays > MaxDay then Err(DateOverflow)
      else
        var m := NewMembership(s.nextMembershipId, who.user, plan.id, today, today + plan.durationDays,
                               autoRenew.GetOr(false), plan.price);
        var p := NewPayment(s.nextPaymentId, who.user, m.id, MembershipPurchase, plan.price);
        Ok(s.(memberships := s.memberships + [m], payments := s.payments + [p],
              nextMembershipId := s.nextMembershipId + 1, nextPaymentId := s.nextPaymentId + 1))
  }

  /** Freezing: only an ACTIVE membership can be frozen, and only for a window
      the validator accepts. The membership becomes FROZEN, records the window,
      and its end date moves later by the window's length in days. An end date
      moved past the last representable date makes the request fail. */
  function Freeze(s: Store, who: Requester, id: MembershipId, from: Day, to: Day, today: Day): (r: Result<Store>)
    ensures Locate(s.memberships, who, id).None? ==> r == Err(NotFound)
    ensures Locate(s.memberships, who, id).Some? && s.memberships[Locate(s.memberships, who, id).value].status != Active
            ==> r == Err(NotActive)
    ensures (Locate(s.memberships, who, id).Some? && s.memberships[Locate(s.memberships, who, id).value].status == Active
             && !(today <= from < to)) ==> r == Err(ValidateFreezeWindow(from, to, today).error)
    ensures (Locate(s.memberships, who, id).Some? && s.memberships[Locate(s.memberships, who, id).value].status == Active
             && today <= from < to && s.memberships[Locate(s.memberships, who, id).value].endDate + (to - from) > MaxDay)
            ==> r == Err(DateOverflow)
    ensures r.Ok? <==>
      && Locate(s.memberships, who, id).Some?
      && s.memberships[Locate(s.memberships, who, id).value].status == Active
      && today <= from < to
      && s.memberships[Locate(s.memberships, who, id).value].endDate + (to - from) <= MaxDay
    ensures r.Ok? ==> |r.value.memberships| == |s.memberships|
    ensures r.Ok? ==>
      var k := Locate(s.memberships, who, id).value;
      var m := s.memberships[k];
      var m' := r.value.memberships[k];
      && (forall i :: 0 <= i < |s.memberships| && i != k ==> r.value.memberships[i] == s.memberships[i])
      && m'.status == Frozen
      && m'.frozenFrom == Some(from) && m'.frozenTo == Some(to)
      && m'.endDate == m.endDate + (to - from)
      && m'.endDate > m.endDate
      && m'.id == m.id && m'.member == m.member && m'.planId == m.planId
      && m'.priceAtPurchase == m.priceAtPurchase && m'.startDate == m.startDate
      && m'.autoRenew == m.autoRenew
      && r.value.(memberships := s.memberships) == s
  {
    match Locate(s.memberships, who, id)
    case None => Err(NotFound)
    case Some(k) =>
      var m := s.memberships[k];
      if m.status != Active then Err(NotActive)
      else
        var w :- ValidateFreezeWindow(from, to, today);
        if m.endDate + w.Days() > MaxDay then Err(DateOverflow)
        else
          var m' := m.(status := Frozen, frozenFrom := Some(w.from), frozenTo := Some(w.to),
                       endDate := m.endDate + w.Days());
          Ok(s.(memberships := s.memberships[k := m']))
  }

  /** Resuming: only a FROZEN membership can be resumed. It becomes ACTIVE,
      forgets its freeze window and keeps the end date the freeze extended. */
  function Resume(s: Store, who: Requester, id: MembershipId): (r: Result<Store>)
    ensures Locate(s.memberships, who, id).None? ==> r == Err(NotFound)
    ensures r.Ok? <==>
      Locate(s.memberships, who, id).Some? && s.memberships[Locate(s.memberships, who, id).value].status == Frozen
    ensures r.Err? && Locate(s.memberships, who, id).Some? ==> r.error == NotFrozen
    ensures r.Ok? ==> |r.value.memberships| == |s.memberships|
    ensures r.Ok? ==>
      var k := Locate(s.memberships, who, id).value;
      var m := s.memberships[k];
      var m' := r.value.memberships[k];
      && (forall i :: 0 <= i < |s.memberships| && i != k ==> r.value.memberships[i] == s.memberships[i])
      && m'.status == Active
      && m'.frozenFrom.None? && m'.frozenTo.None?
      && m'.endDate == m.endDate
      && m'.id == m.id && m'.member == m.member && m'.planId == m.planId
      && m'.priceAtPurchase == m.priceAtPurchase && m'.startDate == m.startDate
      && m'.autoRenew == m.autoRenew
      && r.value.(memberships := s.memberships) == s
  {
    match Locate(s.memberships, who, id)
    case None => Err(NotFound)
    case Some(k) =>
      var m := s.memberships[k];
      if m.status != Frozen then Err(NotFrozen)
      else Ok(s.(memberships := s.memberships[k := m.(status := Active, frozenFrom := None, frozenTo := None)]))
  }

  /** Upgrading to another plan (`plan_id` may be absent from the request).
      The new plan must cost strictly more than the price paid for this
      membership; the status is not consulted. The membership takes the new
      plan and its price, its term is recomputed from the original start date,
      and a PENDING upgrade-fee payment of the plain price difference is added.
      A recomputed end past the last representable date makes the request fail. */
  function Upgrade(s: Store, who: Requester, id: MembershipId, newPlanId: Option<PlanId>): (r: Result<Store>)
    ensures Locate(s.memberships, who, id).None? ==> r == Err(NotFound)
    ensures newPlanId.None? || !HasPlan(s.plans, newPlanId.value) ==> r == Err(NotFound)
    ensures (Locate(s.memberships, who, id).Some? && newPlanId.Some? && HasPlan(s.plans, newPlanId.value)
             && FindPlan(s.plans, newPlanId.value).value.price <= s.memberships[Locate(s.memberships, who, id).value].priceAtPurchase)
            ==> r == Err(NotMoreExpensive)
    ensures (Locate(s.memberships, who, id).Some? && newPlanId.Some? && HasPlan(s.plans, newPlanId.value)
             && FindPlan(s.plans, newPlanId.value).value.price > s.memberships[Locate(s.memberships, who, id).value].priceAtPurchase
             && s.memberships[Locate(s.memberships, who, id).value].startDate + FindPlan(s.plans, newPlanId.value).value.durationDays > MaxDay)
            ==> r == Err(DateOverflow)
    ensures r.Ok? <==>
      && Locate(s.memberships, who, id).Some?
      && newPlanId.Some? && HasPlan(s.plans, newPlanId.value)
      && FindPlan(s.plans, newPlanId.value).value.price > s.memberships[Locate(s.memberships, who, id).value].priceAtPurchase
      && s.memberships[Locate(s.memberships, who, id).value].startDate + FindPlan(s.plans, newPlanId.value).value.durationDays <= MaxDay
    ensures r.Ok? ==> |r.value.memberships| == |s.memberships| && |r.value.payments| == |s.payments| + 1
    ensures r.Ok? ==>
      var k := Locate(s.memberships, who, id).value;
      var plan := FindPlan(s.plans, newPlanId.value).value;
      var m := s.memberships[k];
      var m' := r.value.memberships[k];
      && (forall i :: 0 <= i < |s.memberships| && i != k ==> r.value.memberships[i] == s.memberships[i])
      && m'.planId == plan.id
      && m'.priceAtPurchase == plan.price
      && m'.endDate == m.startDate + plan.durationDays
      && m'.id == m.id && m'.member == m.member && m'.startDate == m.startDate
      && m'.status == m.status && m'.autoRenew == m.autoRenew
      && m'.frozenFrom == m.frozenFrom && m'.frozenTo == m.frozenTo
    ensures r.Ok? ==>
      var k := Locate(s.memberships, who, id).value;
      var plan := FindPlan(s.plans, newPlanId.value).value;
      var n := |s.payments|;
      var p := r.value.payments[n];
      && r.value.payments[..n] == s.payments
      && p.id == s.nextPaymentId
      && p.user == s.memberships[k].member
      && p.membershipId == id
      && p.kind == UpgradeFee
      && p.status == Pending
      && p.errorMessage.None? && p.sessionId.None? && p.sessionUrl.None?
      && p.moneyToPay == plan.price - s.memberships[k].priceAtPurchase
      && p.moneyToPay > 0
      && r.value.nextPaymentId == s.nextPaymentId + 1
      && r.value.plans == s.plans
      && r.value.nextMembershipId == s.nextMembershipId
  {
    match Locate(s.memberships, who, id)
    case None => Err(NotFound)
    case Some(k) =>
      var m := s.memberships[k];
      var found := if newPlanId.Some? then FindPlan(s.plans, newPlanId.value) else None;
      match found
      case None => Err(NotFound)
      case Some(plan) =>
        if plan.price <= m.priceAtPurchase then Err(NotMoreExpensive)
        else if m.startDate + plan.durationDays > MaxDay then Err(DateOverflow)
        else
          var fee := plan.price - m.priceAtPurchase;
          var m' := m.(planId := plan.id, priceAtPurchase := plan.price,
                       endDate := m.startDate + plan.durationDays);
          Ok(s.(memberships := s.memberships[k := m'],
                payments := s.payments + [NewPayment(s.nextPaymentId, m.member, m.id, UpgradeFee, fee)],
                nextPaymentId := s.nextPaymentId + 1))
  }
}
