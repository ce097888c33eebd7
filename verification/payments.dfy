/** Payment records: what a member owes for a purchase or an upgrade, and how
    far the external checkout got. */
module Payments {
  import opened Common

  datatype PaymentStatus = Pending | Paid | Failed | Rejected | Expired

  datatype PaymentType = MembershipPurchase | UpgradeFee

  /** `user` is the owner of the payment; `membershipId` is the id of the
      membership the payment is for. */
  datatype Payment = Payment(
    id: PaymentId,
    user: UserId,
    membershipId: MembershipId,
    kind: PaymentType,
    status: PaymentStatus,
    moneyToPay: Cents,
    errorMessage: Option<string>,
    sessionId: Option<string>,
    sessionUrl: Option<string>)

  /** `money_to_pay` has at most 10 digits, 2 after the point: below 10^10 cents. */
  const MoneyLimit: Cents := 10_000_000_000

  /** A freshly created row: status takes its default, PENDING, and the
      error message and checkout session are still empty. */
  function NewPayment(id: PaymentId, user: UserId, membershipId: MembershipId, kind: PaymentType, amount: Cents): Payment {
    Payment(id, user, membershipId, kind, Pending, amount, None, None, None)
  }

  predicate HasPending(ps: seq<Payment>, user: UserId) {
    exists i :: 0 <= i < |ps| && ps[i].user == user && ps[i].status == Pending
  }

  /** The unique constraint on `session_id`: rows without a session never clash. */
  predicate SessionIdsUnique(ps: seq<Payment>) {
    forall i, j :: 0 <= i < j < |ps| && ps[i].sessionId.Some? ==> ps[i].sessionId != ps[j].sessionId
  }

  predicate PaymentIdsUnique(ps: seq<Payment>) {
    forall i, j :: 0 <= i < j < |ps| ==> ps[i].id != ps[j].id
  }

  /** Position of the payment with the given id, searching from `from` on. */
  function FindPayment(ps: seq<Payment>, id: PaymentId, from: nat := 0): (r: Option<nat>)
    requires from <= |ps|
    ensures r.Some? ==> from <= r.value < |ps| && ps[r.value].id == id
    ensures r.None? <==> forall i :: from <= i < |ps| ==> ps[i].id != id
    decreases |ps| - from
  {
    if from == |ps| then None
    else if ps[from].id == id then Some(from)
    else FindPayment(ps, id, from + 1)
  }

  /** Storing a checkout session on a payment. The unique constraint refuses a
      session id that another payment already carries. */
  function AttachSession(ps: seq<Payment>, id: PaymentId, sid: string, url: string): (r: Result<seq<Payment>>)
    ensures FindPayment(ps, id).None? ==> r == Err(NotFound)
    ensures r.Ok? <==>
      && FindPayment(ps, id).Some?
      && (forall i :: 0 <= i < |ps| && i != FindPayment(ps, id).value ==> ps[i].sessionId != Some(sid))
    ensures r.Err? && FindPayment(ps, id).Some? ==> r.error == IntegrityError
    ensures r.Ok? ==>
      var k := FindPayment(ps, id).value;
      && |r.value| == |ps|
      && r.value[k] == ps[k].(sessionId := Some(sid), sessionUrl := Some(url))
      && (forall i :: 0 <= i < |ps| && i != k ==> r.value[i] == ps[i])
    ensures r.Ok? && SessionIdsUnique(ps) ==> SessionIdsUnique(r.value)
    ensures r.Ok? && PaymentIdsUnique(ps) ==> PaymentIdsUnique(r.value)
  {
    match FindPayment(ps, id)
    case None => Err(NotFound)
    case Some(k) =>
      if exists i :: 0 <= i < |ps| && i != k && ps[i].sessionId == Some(sid) then Err(IntegrityError)
      else
        Ok(ps[k := ps[k].(sessionId := Some(sid), sessionUrl := Some(url))])
  }

  /** Recording a failed checkout: the payment becomes FAILED and keeps the
      provider's error text. An unknown id changes nothing. */
  function RecordFailure(ps: seq<Payment>, id: PaymentId, message: string): (r: seq<Payment>)
    ensures |r| == |ps|
    ensures FindPayment(ps, id).None? ==> r == ps
    ensures forall i :: 0 <= i < |ps| && ps[i].id != id ==> r[i] == ps[i]
    ensures FindPayment(ps, id).Some? ==>
      var k := FindPayment(ps, id).value;
      && r[k] == ps[k].(status := Failed, errorMessage := Some(message))
      && (forall i :: 0 <= i < |ps| && i != k ==> r[i] == ps[i])
    ensures SessionIdsUnique(ps) ==> SessionIdsUnique(r)
    ensures PaymentIdsUnique(ps) ==> PaymentIdsUnique(r)
  {
    match FindPayment(ps, id)
    case None => ps
    case Some(k) => ps[k := ps[k].(status := Failed, errorMessage := Some(message))]
  }
}
