/** Shared vocabulary of the membership core: calendar days, money, identifiers,
    optional values and the error outcomes every operation can report. */
module Common {

  /** A calendar date with no time component, as its proleptic Gregorian
      ordinal (0001-01-01 is day 1): `d + n` is the date `n` days after `d`,
      and `b - a` is the length in days from `a` to `b`. */
  type Day = int

  /** The last representable date, 9999-12-31. Date arithmetic that lands
      after it raises an overflow error instead of producing a date. */
  const MaxDay: Day := 3_652_059

  /** A decimal amount with two decimal places, held exactly as a whole number of cents. */
  type Cents = int

  /** Plan prices and `price_at_purchase` are decimals of at most 8 digits, 2 of
      them after the point: every storable amount is below 1 000 000.00, i.e. 10^8 cents. */
  const PriceLimit: Cents := 100_000_000

  /** The range of a 32-bit `integer` database column. */
  const IntColumnMin: int := -0x8000_0000
  const IntColumnMax: int := 0x7fff_ffff

  type UserId = nat
  type PlanId = nat
  type MembershipId = nat
  type PaymentId = nat

  datatype Option<+T> = None | Some(value: T) {
    function GetOr(default: T): T {
      match this
      case Some(v) => v
      case None => default
    }
  }

  /** Every way an operation of the core can refuse a request. Each refusal
      leaves the store exactly as it was. */
  datatype Error =
    | NotFound          // no such record, or not visible to the requester (HTTP 404)
    | UnknownPlan       // the purchase names a plan that does not exist
    | AlreadyLive       // the member already has an ACTIVE or FROZEN membership
    | NotActive         // only an ACTIVE membership can be frozen
    | NotFrozen         // only a FROZEN membership can be resumed
    | WindowOrder       // the freeze window does not end after it starts
    | WindowInPast      // the freeze window starts before today
    | NotMoreExpensive  // an upgrade must go to a strictly more expensive plan
    | Protected         // a plan still referenced by a membership cannot be deleted
    | IntegrityError    // a database constraint (uniqueness, check) would be violated
    | DataError         // a value does not fit its database column
    | DateOverflow      // date arithmetic would go past the last representable date (HTTP 500)

  datatype Result<+T> = Ok(value: T) | Err(error: Error) {
    predicate IsFailure() {
      Err?
    }

    function PropagateFailure<U>(): Result<U>
      requires Err?
    {
      Err(error)
    }

    function Extract(): T
      requires Ok?
    {
      value
    }
  }
}
