/** The membership record: one member's subscription to one plan, with its
    own dates, status and the price paid. */
module Memberships {
  import opened Common

  datatype Status = Active | Expired | Frozen

  datatype Membership = Membership(
    id: MembershipId,
    member: UserId,
    planId: PlanId,
    startDate: Day,
    endDate: Day,
    status: Status,
    autoRenew: bool,
    priceAtPurchase: Cents,
    frozenFrom: Option<Day>,
    frozenTo: Option<Day>)

  /** A freshly created row: status defaults to ACTIVE and both freeze dates are empty. */
  function NewMembership(id: MembershipId, member: UserId, planId: PlanId, start: Day, end: Day,
                         autoRenew: bool, price: Cents): Membership {
    Membership(id, member, planId, start, end, Active, autoRenew, price, None, None)
  }

  /** ACTIVE and FROZEN memberships are the ones that block a new purchase. */
  predicate Live(m: Membership) {
    m.status == Active || m.status == Frozen
  }

  /** The shape every record keeps under the operations of the core. The freeze
      dates come as a pair with a non-empty window; an ACTIVE record has none
      and a FROZEN one has both. An EXPIRED record may still carry the window
      it was frozen with. */
  predicate WellFormed(m: Membership) {
    && m.startDate < m.endDate
    && 0 < m.priceAtPurchase < PriceLimit
    && (m.frozenFrom.Some? <==> m.frozenTo.Some?)
    && (m.frozenFrom.Some? ==> m.frozenFrom.value < m.frozenTo.value)
    && (m.status == Active ==> m.frozenFrom.None?)
    && (m.status == Frozen ==> m.frozenFrom.Some?)
  }

  predicate HasLiveMembership(ms: seq<Membership>, user: UserId) {
    exists i :: 0 <= i < |ms| && ms[i].member == user && Live(ms[i])
  }

  /** At most one ACTIVE-or-FROZEN membership per member. */
  predicate OneLivePerUser(ms: seq<Membership>) {
    forall i, j :: 0 <= i < j < |ms| && Live(ms[i]) && Live(ms[j]) ==> ms[i].member != ms[j].member
  }

  predicate MembershipIdsUnique(ms: seq<Membership>) {
    forall i, j :: 0 <= i < j < |ms| ==> ms[i].id != ms[j].id
  }
}
