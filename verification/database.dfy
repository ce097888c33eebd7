/** The whole state the core works on: the three tables, the next primary keys
    the database would hand out, and the constraints the database keeps. */
module Database {
  import opened Common
  import opened Plans
  import opened Payments
  import opened Memberships

  datatype Store = Store(
    plans: seq<Plan>,
    memberships: seq<Membership>,
    payments: seq<Payment>,
    nextMembershipId: MembershipId,
    nextPaymentId: PaymentId)

  /** The foreign key from a membership to its plan. */
  predicate PlanRefsResolve(plans: seq<Plan>, ms: seq<Membership>) {
    forall i :: 0 <= i < |ms| ==> HasPlan(plans, ms[i].planId)
  }

  predicate MembershipsConsistent(s: Store) {
    && MembershipIdsUnique(s.memberships)
    && (forall i :: 0 <= i < |s.memberships| ==>
          s.memberships[i].id < s.nextMembershipId && WellFormed(s.memberships[i]))
  }

  predicate PaymentsConsistent(s: Store) {
    && PaymentIdsUnique(s.payments)
    && SessionIdsUnique(s.payments)
    && (forall i :: 0 <= i < |s.payments| ==>
          s.payments[i].id < s.nextPaymentId && 0 < s.payments[i].moneyToPay < MoneyLimit)
  }

  /** Everything the operations of the core keep true of the store. */
  predicate Consistent(s: Store) {
    && ValidCatalog(s.plans)
    && PlanRefsResolve(s.plans, s.memberships)
    && MembershipsConsistent(s)
    && PaymentsConsistent(s)
  }

  predicate Referenced(ms: seq<Membership>, id: PlanId) {
    exists i :: 0 <= i < |ms| && ms[i].planId == id
  }

  /** The catalog without the plan carrying `id`, in the same order. */
  function WithoutPlan(ps: seq<Plan>, id: PlanId): (r: seq<Plan>)
    ensures forall x :: x in r <==> x in ps && x.id != id
    ensures ValidCatalog(ps) ==> ValidCatalog(r)
  {
    if |ps| == 0 then []
    else
      var rest := WithoutPlan(ps[1..], id);
      assert forall x :: x in ps <==> x == ps[0] || x in ps[1..];
      assert ValidCatalog(ps) ==> ValidCatalog(rest) by {
        if ValidCatalog(ps) { CatalogTail(ps); }
      }
      if ps[0].id == id then rest
      else
        assert ValidCatalog(ps) ==> ValidCatalog([ps[0]] + rest) by {
          if ValidCatalog(ps) {
            CatalogTail(ps);
            CatalogCons(ps[0], rest);
          }
        }
        [ps[0]] + rest
  }

  /** Deleting a plan. The foreign key from memberships is `PROTECT`: a plan
      some membership refers to cannot be deleted. */
  function DeletePlan(s: Store, id: PlanId): (r: Result<Store>)
    ensures !HasPlan(s.plans, id) ==> r == Err(NotFound)
    ensures HasPlan(s.plans, id) && Referenced(s.memberships, id) ==> r == Err(Protected)
    ensures r.Ok? <==> HasPlan(s.plans, id) && !Referenced(s.memberships, id)
    ensures r.Ok? ==>
      && !HasPlan(r.value.plans, id)
      && (forall p :: p in r.value.plans <==> p in s.plans && p.id != id)
      && r.value.(plans := s.plans) == s
    ensures r.Ok? && Consistent(s) ==> Consistent(r.value)
  {
    if !HasPlan(s.plans, id) then Err(NotFound)
    else if Referenced(s.memberships, id) then Err(Protected)
    else
      var ps := WithoutPlan(s.plans, id);
      assert PlanRefsResolve(s.plans, s.memberships) ==> PlanRefsResolve(ps, s.memberships) by {
        if PlanRefsResolve(s.plans, s.memberships) {
          forall i | 0 <= i < |s.memberships|
            ensures HasPlan(ps, s.memberships[i].planId)
          {
            var j :| 0 <= j < |s.plans| && s.plans[j].id == s.memberships[i].planId;
            assert s.plans[j] in ps;
          }
        }
      }
      Ok(s.(plans := ps))
  }
}
