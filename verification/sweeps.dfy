/** The daily sweeps: expiring lapsed memberships, picking the memberships to
    remind, and renewing lapsed memberships that asked to be renewed. The
    notifications they send are represented only by how many there are. */
module Sweeps {
  import opened Common
  import opened Plans
  import opened Payments
  import opened Memberships
  import opened Database

  // ---------------------------------------------------------------- expiry

  /** Selection of the expiry sweep: ACTIVE or FROZEN, with the end date already past. */
  predicate DueForExpiry(m: Membership, today: Day) {
    Live(m) && m.endDate < today
  }

  /** The memberships after the expiry sweep, as a reference: every due record
      becomes EXPIRED and nothing else about any record changes. */
  function ExpireAll(ms: seq<Membership>, today: Day): (r: seq<Membership>)
    ensures |r| == |ms|
    ensures forall i :: 0 <= i < |ms| ==>
      && r[i].status == (if DueForExpiry(ms[i], today) then Status.Expired else ms[i].status)
      && r[i].(status := ms[i].status) == ms[i]
  {
    if |ms| == 0 then []
    else
      var m := ms[0];
      var m' := if DueForExpiry(m, today) then m.(status := Status.Expired) else m;
      [m'] + ExpireAll(ms[1..], today)
  }

  /** How many of the first `n` records the expiry sweep changes (and so how
      many expiry notices it sends for them). */
  function CountDue(ms: seq<Membership>, today: Day, n: nat): nat
    requires n <= |ms|
  {
    if n == 0 then 0
    else CountDue(ms, today, n - 1) + (if DueForExpiry(ms[n - 1], today) then 1 else 0)
  }

  /** `mark_expired_memberships`: walks the memberships once, expiring each due
      record and sending one notice for it. */
  method MarkExpiredMemberships(s: Store, today: Day) returns (r: Store, notified: nat)
    ensures r == s.(memberships := ExpireAll(s.memberships, today))
    ensures notified == CountDue(s.memberships, today, |s.memberships|)
  {
    var ms := s.memberships;
    var out := ms;
    notified := 0;
    var i := 0;
    while i < |ms|
      invariant 0 <= i <= |ms|
      invariant |out| == |ms|
      invariant forall j :: 0 <= j < i ==> out[j] == (if DueForExpiry(ms[j], today) then ms[j].(status := Status.Expired) else ms[j])
      invariant forall j :: i <= j < |ms| ==> out[j] == ms[j]
      invariant notified == CountDue(ms, today, i)
    {
      if DueForExpiry(ms[i], today) {
        out := out[i := ms[i].(status := Status.Expired)];
        notified := notified + 1;
      }
      i := i + 1;
    }
    var e := ExpireAll(ms, today);
    assert forall j :: 0 <= j < |ms| ==> out[j] == e[j];
    r := s.(memberships := out);
  }

  /** Running the expiry sweep twice on the same day changes nothing the second time. */
  lemma ExpireIdempotent(ms: seq<Membership>, today: Day)
    ensures ExpireAll(ExpireAll(ms, today), today) == ExpireAll(ms, today)
  {
    var once := ExpireAll(ms, today);
    var twice := ExpireAll(once, today);
    assert forall i :: 0 <= i < |ms| ==> !DueForExpiry(once[i], today);
    assert forall i :: 0 <= i < |ms| ==> twice[i] == once[i];
  }

  lemma ExpirePreservesConsistent(s: Store, today: Day)
    requires Consistent(s)
    ensures Consistent(s.(memberships := ExpireAll(s.memberships, today)))
  {
    var e := ExpireAll(s.memberships, today);
    assert forall i :: 0 <= i < |e| ==> e[i].id == s.memberships[i].id && e[i].planId == s.memberships[i].planId;
    assert forall i :: 0 <= i < |e| ==> WellFormed(s.memberships[i]) ==> WellFormed(e[i]);
  }

  /** Expiry only ever takes records out of the ACTIVE/FROZEN set. */
  lemma ExpirePreservesOneLive(ms: seq<Membership>, today: Day)
    requires OneLivePerUser(ms)
    ensures OneLivePerUser(ExpireAll(ms, today))
  {
    var e := ExpireAll(ms, today);
    assert forall i :: 0 <= i < |ms| ==> e[i].member == ms[i].member && (Live(e[i]) ==> Live(ms[i]));
  }

  // ------------------------------------------------------------- reminders

  /** `days_before` when the scheduler does not pass one. */
  const DefaultReminderDays: int := 7

  /** Selection of the reminder sweep: ACTIVE records ending exactly `daysBefore` days from today. */
  predicate DueForReminder(m: Membership, today: Day, daysBefore: int) {
    m.status == Active && m.endDate == today + daysBefore
  }

  /** The memberships the reminder sweep sends a reminder for, in store order. */
  function ReminderTargets(ms: seq<Membership>, today: Day, daysBefore: int): (r: seq<Membership>)
    ensures forall m :: m in r <==> m in ms && DueForReminder(m, today, daysBefore)
    ensures forall m :: multiset(r)[m] == if DueForReminder(m, today, daysBefore) then multiset(ms)[m] else 0
    ensures |r| <= |ms|
  {
    if |ms| == 0 then []
    else
      var init := ms[..|ms| - 1];
      var last := ms[|ms| - 1];
      assert ms == init + [last];
      ReminderTargets(init, today, daysBefore) + (if DueForReminder(last, today, daysBefore) then [last] else [])
  }

  /** How many of the first `n` records the reminder sweep selects. */
  function CountReminders(ms: seq<Membership>, today: Day, daysBefore: int, n: nat): nat
    requires n <= |ms|
  {
    if n == 0 then 0
    else CountReminders(ms, today, daysBefore, n - 1) + (if DueForReminder(ms[n - 1], today, daysBefore) then 1 else 0)
  }

  /** The count over the first `n` records depends only on those records. */
  lemma {:induction false} CountRemindersPrefix(ms: seq<Membership>, ms': seq<Membership>, today: Day, daysBefore: int, n: nat)
    requires n <= |ms| && n <= |ms'|
    requires forall j :: 0 <= j < n ==> ms[j] == ms'[j]
    ensures CountReminders(ms, today, daysBefore, n) == CountReminders(ms', today, daysBefore, n)
  {
    if n > 0 {
      CountRemindersPrefix(ms, ms', today, daysBefore, n - 1);
    }
  }

  /** Counting the due records one by one gives the size of the selection. */
  lemma {:induction false} ReminderCountWhole(ms: seq<Membership>, today: Day, daysBefore: int)
    ensures CountReminders(ms, today, daysBefore, |ms|) == |ReminderTargets(ms, today, daysBefore)|
  {
    if |ms| > 0 {
      var init := ms[..|ms| - 1];
      ReminderCountWhole(init, today, daysBefore);
      CountRemindersPrefix(ms, init, today, daysBefore, |ms| - 1);
    }
  }

  /** `send_expiration_reminders`: one reminder per selected membership; the
      memberships are only read, and the result is how many were sent. */
  method SendExpirationReminders(ms: seq<Membership>, today: Day, daysBefore: int := DefaultReminderDays) returns (count: nat)
    ensures count == |ReminderTargets(ms, today, daysBefore)|
  {
    count := 0;
    var i := 0;
    while i < |ms|
      invariant 0 <= i <= |ms|
      invariant count == CountReminders(ms, today, daysBefore, i)
    {
      if DueForReminder(ms[i], today, daysBefore) {
        count := count + 1;
      }
      i := i + 1;
    }
    ReminderCountWhole(ms, today, daysBefore);
  }

  // ------------------------------------------------------------ auto-renew

  /** The members with at least one PENDING payment. The sweep creates no
      payments, so this set is the same for every record it looks at. */
  function PendingMembers(ps: seq<Payment>): (r: set<UserId>)
    ensures forall u :: u in r <==> HasPending(ps, u)
  {
    set i | 0 <= i < |ps| && ps[i].status == Pending :: ps[i].user
  }

  /** Selection of the auto-renew sweep: EXPIRED, past its end date, and still flagged for renewal. */
  predicate SelectedForRenewal(m: Membership, today: Day) {
    m.autoRenew && m.status == Status.Expired && m.endDate < today
  }

  /** A selected membership is renewed unless its member has a PENDING payment. */
  predicate Renewable(m: Membership, pending: set<UserId>, today: Day) {
    SelectedForRenewal(m, today) && m.member !in pending
  }

  /** How many records from position `from` on the sweep renews. */
  function CountRenewable(ms: seq<Membership>, pending: set<UserId>, today: Day, from: nat := 0): nat
    requires from <= |ms|
    decreases |ms| - from
  {
    if from == |ms| then 0
    else (if Renewable(ms[from], pending, today) then 1 else 0) + CountRenewable(ms, pending, today, from + 1)
  }

  function PlanOf(plans: seq<Plan>, m: Membership): Plan
    requires HasPlan(plans, m.planId)
  {
    FindPlan(plans, m.planId).value
  }

  /** `renewed` is a renewal of `lapsed` under `plan`: same member and plan,
      ACTIVE from today for the plan's current duration, at the plan's current
      price, set to renew again, and never frozen. */
  predicate IsRenewalOf(renewed: Membership, lapsed: Membership, plan: Plan, today: Day) {
    && plan.id == lapsed.planId
    && renewed.member == lapsed.member
    && renewed.planId == lapsed.planId
    && renewed.status == Active
    && renewed.startDate == today
    && renewed.endDate == today + plan.durationDays
    && renewed.autoRenew
    && renewed.priceAtPurchase == plan.price
    && renewed.frozenFrom.None? && renewed.frozenTo.None?
  }

  /** The old records after the sweep: each renewed one loses its flag. */
  function ClearRenewed(ms: seq<Membership>, pending: set<UserId>, today: Day): (r: seq<Membership>)
    ensures |r| == |ms|
    ensures forall i :: 0 <= i < |ms| ==>
      && r[i].autoRenew == (ms[i].autoRenew && !Renewable(ms[i], pending, today))
      && r[i].(autoRenew := ms[i].autoRenew) == ms[i]
  {
    seq(|ms|, i requires 0 <= i < |ms| =>
      if Renewable(ms[i], pending, today) then ms[i].(autoRenew := false) else ms[i])
  }

  /** The memberships created by the sweep and, for each, the position of the record it renews. */
  datatype Renewals = Renewals(created: seq<Membership>, sources: seq<nat>)

  /** The loop of `auto_renew_memberships` from position `from` on, handing out
      membership ids from `nextId` in order. */
  function RenewFrom(ms: seq<Membership>, plans: seq<Plan>, pending: set<UserId>, today: Day,
                     from: nat, nextId: MembershipId): (r: Renewals)
    requires from <= |ms|
    requires PlanRefsResolve(plans, ms)
    ensures |r.created| == |r.sources| == CountRenewable(ms, pending, today, from)
    ensures forall k :: 0 <= k < |r.sources| ==>
      && from <= r.sources[k] < |ms|
      && Renewable(ms[r.sources[k]], pending, today)
      && r.created[k].id == nextId + k
      && IsRenewalOf(r.created[k], ms[r.sources[k]], PlanOf(plans, ms[r.sources[k]]), today)
    ensures forall k1, k2 :: 0 <= k1 < k2 < |r.sources| ==> r.sources[k1] < r.sources[k2]
    decreases |ms| - from
  {
    if from == |ms| then Renewals([], [])
    else
      var rest := RenewFrom(ms, plans, pending, today, from + 1, if Renewable(ms[from], pending, today) then nextId + 1 else nextId);
      if Renewable(ms[from], pending, today) then
        var m := ms[from];
        var plan := PlanOf(plans, m);
        var successor := NewMembership(nextId, m.member, m.planId, today, today + plan.durationDays, true, plan.price);
        Renewals([successor] + rest.created, [from] + rest.sources)
      else
        rest
  }

  /** Every record appended after the old ones renews a renewable record, and
      the appended ids run on from the store's next membership id. */
  lemma AppendedRenewals(s: Store, today: Day, rn: Renewals, all: seq<Membership>)
    requires PlanRefsResolve(s.plans, s.memberships)
    requires rn == RenewFrom(s.memberships, s.plans, PendingMembers(s.payments), today, 0, s.nextMembershipId)
    requires all == ClearRenewed(s.memberships, PendingMembers(s.payments), today) + rn.created
    ensures forall j :: |s.memberships| <= j < |all| ==>
      && all[j].id == s.nextMembershipId + (j - |s.memberships|)
      && exists i :: 0 <= i < |s.memberships| && Renewable(s.memberships[i], PendingMembers(s.payments), today) &&
           IsRenewalOf(all[j], s.memberships[i], PlanOf(s.plans, s.memberships[i]), today)
  {
    var ms, pending := s.memberships, PendingMembers(s.payments);
    forall j | |ms| <= j < |all|
      ensures all[j].id == s.nextMembershipId + (j - |ms|)
      ensures exists i :: 0 <= i < |ms| && Renewable(ms[i], pending, today) &&
                IsRenewalOf(all[j], ms[i], PlanOf(s.plans, ms[i]), today)
    {
      var k := j - |ms|;
      assert all[j] == rn.created[k];
      var i := rn.sources[k];
      assert 0 <= i < |ms| && Renewable(ms[i], pending, today) && IsRenewalOf(all[j], ms[i], PlanOf(s.plans, ms[i]), today);
    }
  }

  /** `auto_renew_memberships`: every renewable membership has its flag
      cleared and gets a fresh ACTIVE successor; the result is the new store
      and the number of renewals. Plans and payments are not touched. */
  function AutoRenewMemberships(s: Store, today: Day): (r: (Store, nat))
    requires PlanRefsResolve(s.plans, s.memberships)
    ensures r.0.plans == s.plans && r.0.payments == s.payments && r.0.nextPaymentId == s.nextPaymentId
    ensures r.1 == CountRenewable(s.memberships, PendingMembers(s.payments), today)
    ensures |r.0.memberships| == |s.memberships| + r.1
    ensures r.0.nextMembershipId == s.nextMembershipId + r.1
    ensures r.0.memberships[..|s.memberships|] == ClearRenewed(s.memberships, PendingMembers(s.payments), today)
    ensures r.0.memberships[|s.memberships|..] ==
            RenewFrom(s.memberships, s.plans, PendingMembers(s.payments), today, 0, s.nextMembershipId).created
    ensures forall j :: |s.memberships| <= j < |r.0.memberships| ==>
      && r.0.memberships[j].id == s.nextMembershipId + (j - |s.memberships|)
      && exists i :: 0 <= i < |s.memberships| && Renewable(s.memberships[i], PendingMembers(s.payments), today) &&
           IsRenewalOf(r.0.memberships[j], s.memberships[i], PlanOf(s.plans, s.memberships[i]), today)
  {
    var pending := PendingMembers(s.payments);
    var rn := RenewFrom(s.memberships, s.plans, pending, today, 0, s.nextMembershipId);
    var all := ClearRenewed(s.memberships, pending, today) + rn.created;
    AppendedRenewals(s, today, rn, all);
    assert all[|s.memberships|..] == rn.created;
    (s.(memberships := all, nextMembershipId := s.nextMembershipId + |rn.created|), |rn.created|)
  }

  /** The old records with cleared flags and the renewals all name existing
      plans, and none of them is renewable any more. */
  lemma ClearedAndRenewedSettled(ms: seq<Membership>, plans: seq<Plan>, pending: set<UserId>, today: Day,
                                 nextId: MembershipId, all: seq<Membership>)
    requires PlanRefsResolve(plans, ms)
    requires all == ClearRenewed(ms, pending, today) + RenewFrom(ms, plans, pending, today, 0, nextId).created
    ensures PlanRefsResolve(plans, all)
    ensures forall j :: 0 <= j < |all| ==> !Renewable(all[j], pending, today)
  {
    var cleared := ClearRenewed(ms, pending, today);
    var rn := RenewFrom(ms, plans, pending, today, 0, nextId);
    forall j | 0 <= j < |all|
      ensures HasPlan(plans, all[j].planId)
      ensures !Renewable(all[j], pending, today)
    {
      if j < |ms| {
        assert all[j] == cleared[j];
        assert HasPlan(plans, ms[j].planId);
      } else {
        var k := j - |ms|;
        assert all[j] == rn.created[k];
        assert HasPlan(plans, ms[rn.sources[k]].planId);
      }
    }
  }

  /** After the sweep every record still names an existing plan and none is
      left that the sweep would renew, so a second run the same day is idle. */
  lemma AutoRenewSettles(s: Store, today: Day)
    requires PlanRefsResolve(s.plans, s.memberships)
    ensures
      var r := AutoRenewMemberships(s, today).0;
      && PlanRefsResolve(r.plans, r.memberships)
      && forall j :: 0 <= j < |r.memberships| ==> !Renewable(r.memberships[j], PendingMembers(r.payments), today)
  {
    var pending := PendingMembers(s.payments);
    var all := AutoRenewMemberships(s, today).0.memberships;
    assert all == ClearRenewed(s.memberships, pending, today)
                  + RenewFrom(s.memberships, s.plans, pending, today, 0, s.nextMembershipId).created;
    ClearedAndRenewedSettled(s.memberships, s.plans, pending, today, s.nextMembershipId, all);
  }
}
