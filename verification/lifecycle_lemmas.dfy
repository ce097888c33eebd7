/** Properties of the member-facing actions that relate several calls or hold
    across the whole store. */
module LifecycleLemmas {
  import opened Common
  import opened Plans
  import opened Payments
  import opened Memberships
  import opened Database
  import opened Lifecycle

  /** Locating a record depends only on the ids and owners of the records. */
  lemma {:induction false} LocateStable(ms: seq<Membership>, ms': seq<Membership>, who: Requester, id: MembershipId, from: nat)
    requires |ms| == |ms'| && from <= |ms|
    requires forall i :: 0 <= i < |ms| ==> ms'[i].id == ms[i].id && ms'[i].member == ms[i].member
    ensures Locate(ms', who, id, from) == Locate(ms, who, id, from)
    decreases |ms| - from
  {
    if from < |ms| {
      LocateStable(ms, ms', who, id, from + 1);
    }
  }

  /** Appending a fresh, well-formed membership on an existing plan and a
      fresh payment without a session, each under the next id, keeps a
      consistent store consistent. */
  lemma AppendKeepsConsistent(s: Store, m: Membership, p: Payment, r: Store)
    requires Consistent(s)
    requires r.plans == s.plans
    requires r.memberships == s.memberships + [m] && r.payments == s.payments + [p]
    requires m.id == s.nextMembershipId && r.nextMembershipId == s.nextMembershipId + 1
    requires WellFormed(m) && HasPlan(s.plans, m.planId)
    requires p.id == s.nextPaymentId && r.nextPaymentId == s.nextPaymentId + 1
    requires p.sessionId.None? && 0 < p.moneyToPay < MoneyLimit
    ensures Consistent(r)
  {
    assert forall i :: 0 <= i < |s.memberships| ==> r.memberships[i] == s.memberships[i];
    assert forall i :: 0 <= i < |s.payments| ==> r.payments[i] == s.payments[i];
  }

  lemma PurchasePreservesConsistent(s: Store, who: Requester, planId: PlanId, autoRenew: Option<bool>, today: Day)
    requires Consistent(s)
    requires Purchase(s, who, planId, autoRenew, today).Ok?
    ensures Consistent(Purchase(s, who, planId, autoRenew, today).value)
  {
    var r := Purchase(s, who, planId, autoRenew, today).value;
    var m := r.memberships[|s.memberships|];
    var p := r.payments[|s.payments|];
    assert r.memberships == s.memberships + [m];
    assert r.payments == s.payments + [p];
    var plan := FindPlan(s.plans, planId).value;
    assert plan in s.plans;
    assert ValidPlan(plan);
    AppendKeepsConsistent(s, m, p, r);
  }

  lemma PurchasePreservesOneLive(s: Store, who: Requester, planId: PlanId, autoRenew: Option<bool>, today: Day)
    requires OneLivePerUser(s.memberships)
    requires Purchase(s, who, planId, autoRenew, today).Ok?
    ensures OneLivePerUser(Purchase(s, who, planId, autoRenew, today).value.memberships)
  {
    var r := Purchase(s, who, planId, autoRenew, today).value;
    var n := |s.memberships|;
    assert forall i :: 0 <= i < n ==> r.memberships[i] == s.memberships[i];
  }

  /** After a successful purchase the same member cannot buy again, whatever
      the plan, until the new membership has expired. */
  lemma SecondPurchaseRefused(s: Store, who: Requester, planId: PlanId, autoRenew: Option<bool>, today: Day,
                              planId': PlanId, autoRenew': Option<bool>, today': Day)
    requires Purchase(s, who, planId, autoRenew, today).Ok?
    requires HasPlan(s.plans, planId')
    ensures Purchase(Purchase(s, who, planId, autoRenew, today).value, who, planId', autoRenew', today') == Err(AlreadyLive)
  {
    var r := Purchase(s, who, planId, autoRenew, today).value;
    assert r.memberships[|s.memberships|].member == who.user;
    assert HasLiveMembership(r.memberships, who.user);
  }

  lemma FreezePreservesConsistent(s: Store, who: Requester, id: MembershipId, from: Day, to: Day, today: Day)
    requires Consistent(s)
    requires Freeze(s, who, id, from, to, today).Ok?
    ensures Consistent(Freeze(s, who, id, from, to, today).value)
  {
    var r := Freeze(s, who, id, from, to, today).value;
    var k := Locate(s.memberships, who, id).value;
    assert WellFormed(s.memberships[k]);
    assert WellFormed(r.memberships[k]);
  }

  lemma FreezePreservesOneLive(s: Store, who: Requester, id: MembershipId, from: Day, to: Day, today: Day)
    requires OneLivePerUser(s.memberships)
    requires Freeze(s, who, id, from, to, today).Ok?
    ensures OneLivePerUser(Freeze(s, who, id, from, to, today).value.memberships)
  {
    var r := Freeze(s, who, id, from, to, today).value;
    var k := Locate(s.memberships, who, id).value;
    assert forall i :: 0 <= i < |s.memberships| ==>
      r.memberships[i].member == s.memberships[i].member && (Live(r.memberships[i]) <==> Live(s.memberships[i]));
  }

  lemma ResumePreservesConsistent(s: Store, who: Requester, id: MembershipId)
    requires Consistent(s)
    requires Resume(s, who, id).Ok?
    ensures Consistent(Resume(s, who, id).value)
  {
    var k := Locate(s.memberships, who, id).value;
    assert WellFormed(s.memberships[k]);
  }

  lemma ResumePreservesOneLive(s: Store, who: Requester, id: MembershipId)
    requires OneLivePerUser(s.memberships)
    requires Resume(s, who, id).Ok?
    ensures OneLivePerUser(Resume(s, who, id).value.memberships)
  {
    var r := Resume(s, who, id).value;
    assert forall i :: 0 <= i < |s.memberships| ==>
      r.memberships[i].member == s.memberships[i].member && (Live(r.memberships[i]) <==> Live(s.memberships[i]));
  }

  lemma UpgradePreservesConsistent(s: Store, who: Requester, id: MembershipId, newPlanId: Option<PlanId>)
    requires Consistent(s)
    requires Upgrade(s, who, id, newPlanId).Ok?
    ensures Consistent(Upgrade(s, who, id, newPlanId).value)
  {
    var r := Upgrade(s, who, id, newPlanId).value;
    var k := Locate(s.memberships, who, id).value;
    var plan := FindPlan(s.plans, newPlanId.value).value;
    assert plan in s.plans;
    assert ValidPlan(plan);
    assert WellFormed(s.memberships[k]);
    assert HasPlan(s.plans, r.memberships[k].planId);
    assert forall i :: 0 <= i < |s.payments| ==> r.payments[i] == s.payments[i];
  }

  lemma UpgradePreservesOneLive(s: Store, who: Requester, id: MembershipId, newPlanId: Option<PlanId>)
    requires OneLivePerUser(s.memberships)
    requires Upgrade(s, who, id, newPlanId).Ok?
    ensures OneLivePerUser(Upgrade(s, who, id, newPlanId).value.memberships)
  {
    var r := Upgrade(s, who, id, newPlanId).value;
    assert forall i :: 0 <= i < |s.memberships| ==>
      r.memberships[i].member == s.memberships[i].member && (Live(r.memberships[i]) <==> Live(s.memberships[i]));
  }

  /** Freezing and then resuming the same membership returns it to ACTIVE with
      no freeze window, and its end date keeps the whole extension. */
  lemma FreezeThenResume(s: Store, who: Requester, id: MembershipId, from: Day, to: Day, today: Day)
    requires Freeze(s, who, id, from, to, today).Ok?
    ensures Resume(Freeze(s, who, id, from, to, today).value, who, id).Ok?
    ensures
      var k := Locate(s.memberships, who, id).value;
      var m := s.memberships[k];
      var m' := Resume(Freeze(s, who, id, from, to, today).value, who, id).value.memberships[k];
      && m'.status == Active
      && m'.frozenFrom.None? && m'.frozenTo.None?
      && m'.endDate == m.endDate + (to - from)
      && m' == m.(endDate := m.endDate + (to - from), frozenFrom := None, frozenTo := None)
  {
    var s1 := Freeze(s, who, id, from, to, today).value;
    LocateStable(s.memberships, s1.memberships, who, id, 0);
  }
}
