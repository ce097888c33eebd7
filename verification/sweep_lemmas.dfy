/** Properties of the auto-renew sweep across runs and across the whole store. */
module SweepLemmas {
  import opened Common
  import opened Plans
  import opened Payments
  import opened Memberships
  import opened Database
  import opened Sweeps

  lemma {:induction false} NothingRenewableCountsZero(ms: seq<Membership>, pending: set<UserId>, today: Day, from: nat)
    requires from <= |ms|
    requires forall i :: from <= i < |ms| ==> !Renewable(ms[i], pending, today)
    ensures CountRenewable(ms, pending, today, from) == 0
    decreases |ms| - from
  {
    if from < |ms| {
      NothingRenewableCountsZero(ms, pending, today, from + 1);
    }
  }

  /** A second auto-renew run on the same day renews nothing and changes nothing. */
  lemma AutoRenewSecondRunIdle(s: Store, today: Day)
    requires PlanRefsResolve(s.plans, s.memberships)
    ensures PlanRefsResolve(AutoRenewMemberships(s, today).0.plans, AutoRenewMemberships(s, today).0.memberships)
    ensures
      var s1 := AutoRenewMemberships(s, today).0;
      AutoRenewMemberships(s1, today) == (s1, 0)
  {
    AutoRenewSettles(s, today);
    var s1 := AutoRenewMemberships(s, today).0;
    var r := AutoRenewMemberships(s1, today);
    var pending := PendingMembers(s1.payments);
    NothingRenewableCountsZero(s1.memberships, pending, today, 0);
    var cleared := ClearRenewed(s1.memberships, pending, today);
    assert r.0.memberships == r.0.memberships[..|s1.memberships|] == cleared;
    assert cleared == s1.memberships;
  }

  /** Every renewal is well formed and carries the id handed out for it. */
  lemma RenewalsWellFormed(s: Store, today: Day, rn: Renewals)
    requires Consistent(s)
    requires rn == RenewFrom(s.memberships, s.plans, PendingMembers(s.payments), today, 0, s.nextMembershipId)
    ensures forall k :: 0 <= k < |rn.created| ==> rn.created[k].id == s.nextMembershipId + k && WellFormed(rn.created[k])
  {
    forall k | 0 <= k < |rn.created|
      ensures rn.created[k].id == s.nextMembershipId + k && WellFormed(rn.created[k])
    {
      var plan := PlanOf(s.plans, s.memberships[rn.sources[k]]);
      assert plan in s.plans;
    }
  }

  /** Records that differ from unique, well-formed ones only in their flag,
      followed by well-formed records numbered on from `next`, have unique ids
      below the advanced counter. */
  lemma AppendedFreshConsistent(olds: seq<Membership>, cleared: seq<Membership>, created: seq<Membership>, next: int)
    requires |cleared| == |olds| && MembershipIdsUnique(olds)
    requires forall i :: 0 <= i < |olds| ==> olds[i].id < next && WellFormed(olds[i])
    requires forall i :: 0 <= i < |olds| ==> cleared[i].(autoRenew := olds[i].autoRenew) == olds[i]
    requires forall k :: 0 <= k < |created| ==> created[k].id == next + k && WellFormed(created[k])
    ensures MembershipIdsUnique(cleared + created)
    ensures forall j :: 0 <= j < |cleared + created| ==>
      (cleared + created)[j].id < next + |created| && WellFormed((cleared + created)[j])
  {
    var all := cleared + created;
    forall j | 0 <= j < |all|
      ensures all[j].id < next + |created| && WellFormed(all[j])
      ensures j < |olds| ==> all[j].id == olds[j].id
      ensures j >= |olds| ==> all[j].id == next + (j - |olds|)
    {
      if j < |olds| {
        assert all[j] == cleared[j];
      } else {
        assert all[j] == created[j - |olds|];
      }
    }
    forall a, b | 0 <= a < b < |all|
      ensures all[a].id != all[b].id
    {
      if b < |olds| {
        assert olds[a].id != olds[b].id;
      }
    }
  }

  /** Old records with cleared flags followed by the renewals keep ids unique
      and below the advanced counter, and every record well formed. */
  lemma RenewedMembershipsConsistent(s: Store, today: Day, rn: Renewals, all: seq<Membership>)
    requires Consistent(s)
    requires rn == RenewFrom(s.memberships, s.plans, PendingMembers(s.payments), today, 0, s.nextMembershipId)
    requires all == ClearRenewed(s.memberships, PendingMembers(s.payments), today) + rn.created
    ensures MembershipIdsUnique(all)
    ensures forall j :: 0 <= j < |all| ==> all[j].id < s.nextMembershipId + |rn.created| && WellFormed(all[j])
  {
    RenewalsWellFormed(s, today, rn);
    AppendedFreshConsistent(s.memberships, ClearRenewed(s.memberships, PendingMembers(s.payments), today),
                            rn.created, s.nextMembershipId);
  }

  lemma AutoRenewPreservesConsistent(s: Store, today: Day)
    requires Consistent(s)
    ensures Consistent(AutoRenewMemberships(s, today).0)
  {
    AutoRenewSettles(s, today);
    AutoRenewShape(s, today);
    var rn := RenewFrom(s.memberships, s.plans, PendingMembers(s.payments), today, 0, s.nextMembershipId);
    RenewedMembershipsConsistent(s, today, rn, AutoRenewMemberships(s, today).0.memberships);
  }

  /** Without a guard of its own the sweep can leave one member with two
      ACTIVE memberships: a member holding two lapsed, renewable memberships
      gets both renewed. */
  function TwoLapsedRenewals(): Store {
    var plan := Plan(1, "Basic", "basic", 30, 10000, Basic);
    var lapsed1 := Membership(1, 7, 1, 0, 30, Status.Expired, true, 10000, None, None);
    var lapsed2 := Membership(2, 7, 1, 40, 70, Status.Expired, true, 10000, None, None);
    Store([plan], [lapsed1, lapsed2], [], 3, 1)
  }

  lemma TwoLapsedRenewalsSound()
    ensures Consistent(TwoLapsedRenewals())
    ensures OneLivePerUser(TwoLapsedRenewals().memberships)
  {
    assert TwoLapsedRenewals().plans[0].id == 1;
  }

  lemma AutoRenewCanBreakOneLive()
    ensures PlanRefsResolve(TwoLapsedRenewals().plans, TwoLapsedRenewals().memberships)
    ensures !OneLivePerUser(AutoRenewMemberships(TwoLapsedRenewals(), 100).0.memberships)
  {
    var s := TwoLapsedRenewals();
    assert s.plans[0].id == 1;
    var ms := s.memberships;
    var pending := PendingMembers(s.payments);
    assert pending == {};
    assert Renewable(ms[0], pending, 100) && Renewable(ms[1], pending, 100);
    assert CountRenewable(ms, pending, 100, 2) == 0;
    assert CountRenewable(ms, pending, 100) == 2;
    var all := AutoRenewMemberships(s, 100).0.memberships;
    assert |all| == 4;
    assert all[2].id == 3 && all[3].id == 4;
    assert Live(all[2]) && all[2].member == 7;
    assert Live(all[3]) && all[3].member == 7;
  }

  /** The renewal guard the purchase path would apply: each member has at most
      one renewable record, and no ACTIVE or FROZEN membership beside it. */
  predicate RenewalGuard(s: Store, today: Day) {
    var pending := PendingMembers(s.payments);
    && (forall i, j ::
          (0 <= i < j < |s.memberships| && Renewable(s.memberships[i], pending, today)
           && Renewable(s.memberships[j], pending, today))
          ==> s.memberships[i].member != s.memberships[j].member)
    && (forall i :: 0 <= i < |s.memberships| && Renewable(s.memberships[i], pending, today)
          ==> !HasLiveMembership(s.memberships, s.memberships[i].member))
  }

  /** The store after the sweep: the old records with their flags cleared, then the renewals. */
  lemma AutoRenewShape(s: Store, today: Day)
    requires PlanRefsResolve(s.plans, s.memberships)
    ensures AutoRenewMemberships(s, today).0.memberships ==
            ClearRenewed(s.memberships, PendingMembers(s.payments), today) +
            RenewFrom(s.memberships, s.plans, PendingMembers(s.payments), today, 0, s.nextMembershipId).created
  {
  }

  /** Two renewals come from two different renewable records, hence from two members. */
  lemma RenewedDiffer(s: Store, today: Day, rn: Renewals, k1: nat, k2: nat)
    requires PlanRefsResolve(s.plans, s.memberships)
    requires RenewalGuard(s, today)
    requires rn == RenewFrom(s.memberships, s.plans, PendingMembers(s.payments), today, 0, s.nextMembershipId)
    requires k1 < k2 < |rn.created|
    ensures rn.created[k1].member != rn.created[k2].member
  {
    var i1, i2 := rn.sources[k1], rn.sources[k2];
    assert i1 < i2;
    assert Renewable(s.memberships[i1], PendingMembers(s.payments), today);
    assert Renewable(s.memberships[i2], PendingMembers(s.payments), today);
  }

  /** A renewal never shares its member with a record that was already live. */
  lemma OldAndRenewedDiffer(s: Store, today: Day, rn: Renewals, a: nat, k: nat)
    requires PlanRefsResolve(s.plans, s.memberships)
    requires RenewalGuard(s, today)
    requires rn == RenewFrom(s.memberships, s.plans, PendingMembers(s.payments), today, 0, s.nextMembershipId)
    requires a < |s.memberships| && Live(s.memberships[a])
    requires k < |rn.created|
    ensures s.memberships[a].member != rn.created[k].member
  {
    var i := rn.sources[k];
    assert Renewable(s.memberships[i], PendingMembers(s.payments), today);
    assert !HasLiveMembership(s.memberships, s.memberships[i].member);
  }

  /** Clearing the renewal flag changes neither the member nor whether a record is live. */
  lemma ClearedKeepsLive(ms: seq<Membership>, pending: set<UserId>, today: Day, a: nat)
    requires a < |ms|
    ensures ClearRenewed(ms, pending, today)[a].member == ms[a].member
    ensures Live(ClearRenewed(ms, pending, today)[a]) == Live(ms[a])
  {
  }

  /** Old records with cleared flags followed by the renewals hold at most one live membership per member. */
  lemma RenewedStoreOneLive(s: Store, today: Day, rn: Renewals, all: seq<Membership>)
    requires PlanRefsResolve(s.plans, s.memberships)
    requires OneLivePerUser(s.memberships)
    requires RenewalGuard(s, today)
    requires rn == RenewFrom(s.memberships, s.plans, PendingMembers(s.payments), today, 0, s.nextMembershipId)
    requires all == ClearRenewed(s.memberships, PendingMembers(s.payments), today) + rn.created
    ensures OneLivePerUser(all)
  {
    var ms := s.memberships;
    var pending := PendingMembers(s.payments);
    forall a, b | 0 <= a < b < |all| && Live(all[a]) && Live(all[b])
      ensures all[a].member != all[b].member
    {
      if b < |ms| {
        ClearedKeepsLive(ms, pending, today, a);
        ClearedKeepsLive(ms, pending, today, b);
      } else if a < |ms| {
        ClearedKeepsLive(ms, pending, today, a);
        OldAndRenewedDiffer(s, today, rn, a, b - |ms|);
      } else {
        RenewedDiffer(s, today, rn, a - |ms|, b - |ms|);
      }
    }
  }

  /** Under the renewal guard the sweep keeps at most one live membership per member. */
  lemma AutoRenewPreservesOneLive(s: Store, today: Day)
    requires PlanRefsResolve(s.plans, s.memberships)
    requires OneLivePerUser(s.memberships)
    requires RenewalGuard(s, today)
    ensures OneLivePerUser(AutoRenewMemberships(s, today).0.memberships)
  {
    AutoRenewShape(s, today);
    var pending := PendingMembers(s.payments);
    RenewedStoreOneLive(s, today, RenewFrom(s.memberships, s.plans, pending, today, 0, s.nextMembershipId),
                        AutoRenewMemberships(s, today).0.memberships);
  }
}
