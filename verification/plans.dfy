/** The plan catalog (`MembershipPlan`): what a membership costs and how long it lasts. */
module Plans {
  import opened Common

  datatype Tier = Basic | Standard | Premium

  datatype Plan = Plan(
    id: PlanId,
    name: string,
    code: string,
    durationDays: int,
    price: Cents,
    tier: Tier)

  /** Longest `name` (a `varchar(100)`) and `code` (a slug, `varchar(50)`). */
  const NameMaxLength := 100
  const CodeMaxLength := 50

  /** The values fit their columns: `name` and `code` within their lengths,
      `duration_days` a 32-bit `integer` and `price` a decimal of 8 digits,
      2 of them after the point. */
  predicate FitsColumns(p: Plan) {
    && |p.name| <= NameMaxLength
    && |p.code| <= CodeMaxLength
    && IntColumnMin <= p.durationDays <= IntColumnMax
    && -PriceLimit < p.price < PriceLimit
  }

  /** A storable plan: it fits the columns and meets the two check
      constraints of the table (`duration_days > 0`, `price > 0`). */
  predicate ValidPlan(p: Plan) {
    FitsColumns(p) && p.durationDays > 0 && p.price > 0
  }

  predicate CodesUnique(ps: seq<Plan>) {
    forall i, j :: 0 <= i < j < |ps| ==> ps[i].code != ps[j].code
  }

  predicate IdsUnique(ps: seq<Plan>) {
    forall i, j :: 0 <= i < j < |ps| ==> ps[i].id != ps[j].id
  }

  /** What the database guarantees of the whole plan table. */
  predicate ValidCatalog(ps: seq<Plan>) {
    && (forall i :: 0 <= i < |ps| ==> ValidPlan(ps[i]))
    && CodesUnique(ps)
    && IdsUnique(ps)
  }

  predicate HasPlan(ps: seq<Plan>, id: PlanId) {
    exists i :: 0 <= i < |ps| && ps[i].id == id
  }

  /** Dropping the first plan of a valid catalog leaves a valid catalog whose
      plans all differ from the dropped one in code and id. */
  lemma CatalogTail(ps: seq<Plan>)
    requires |ps| > 0 && ValidCatalog(ps)
    ensures ValidCatalog(ps[1..])
    ensures forall x :: x in ps[1..] ==> x.code != ps[0].code && x.id != ps[0].id
  {
    forall x | x in ps[1..]
      ensures x.code != ps[0].code && x.id != ps[0].id
    {
      var k :| 0 <= k < |ps[1..]| && ps[1..][k] == x;
      assert ps[k + 1] == x;
    }
  }

  /** A valid plan whose code and id are new extends a valid catalog. */
  lemma CatalogCons(p: Plan, rest: seq<Plan>)
    requires ValidPlan(p) && ValidCatalog(rest)
    requires forall x :: x in rest ==> x.code != p.code && x.id != p.id
    ensures ValidCatalog([p] + rest)
  {
    var ps := [p] + rest;
    forall i, j | 0 <= i < j < |ps|
      ensures ps[i].code != ps[j].code && ps[i].id != ps[j].id
    {
      if i == 0 {
        assert ps[j] == rest[j - 1];
      } else {
        assert ps[i] == rest[i - 1] && ps[j] == rest[j - 1];
      }
    }
  }

  /** Lookup by primary key (`MembershipPlan.objects.get(id=...)`). */
  function FindPlan(ps: seq<Plan>, id: PlanId): (r: Option<Plan>)
    ensures r.Some? ==> r.value in ps && r.value.id == id
    ensures r.None? <==> !HasPlan(ps, id)
  {
    if |ps| == 0 then None
    else if ps[0].id == id then Some(ps[0])
    else
      var r := FindPlan(ps[1..], id);
      assert HasPlan(ps, id) ==> ps[0].id == id || HasPlan(ps[1..], id) by {
        if HasPlan(ps, id) {
          var i :| 0 <= i < |ps| && ps[i].id == id;
          if i > 0 { assert ps[1..][i - 1].id == id; }
        }
      }
      assert HasPlan(ps[1..], id) ==> HasPlan(ps, id) by {
        if HasPlan(ps[1..], id) {
          var i :| 0 <= i < |ps[1..]| && ps[1..][i].id == id;
          assert ps[i + 1].id == id;
        }
      }
      r
  }

  /** In a catalog with unique ids the lookup finds the one plan with that id. */
  lemma {:induction false} FindPlanUnique(ps: seq<Plan>, i: nat)
    requires IdsUnique(ps)
    requires i < |ps|
    ensures FindPlan(ps, ps[i].id) == Some(ps[i])
  {
    if i > 0 {
      assert ps[0].id != ps[i].id;
      assert ps[1..][i - 1] == ps[i];
      FindPlanUnique(ps[1..], i - 1);
    }
  }

  /** Saving a new plan row. A value that does not fit its column is refused
      as a data error before any constraint is looked at; a row that breaks a
      check constraint or repeats a primary key or a code is refused as an
      integrity error. */
  function AddPlan(ps: seq<Plan>, p: Plan): (r: Result<seq<Plan>>)
    ensures !FitsColumns(p) ==> r == Err(DataError)
    ensures FitsColumns(p) && r.Err? ==> r.error == IntegrityError
    ensures r.Ok? <==>
      && ValidPlan(p)
      && (forall i :: 0 <= i < |ps| ==> ps[i].code != p.code && ps[i].id != p.id)
    ensures r.Ok? ==> |r.value| == |ps| + 1 && r.value[..|ps|] == ps && r.value[|ps|] == p
    ensures r.Ok? && ValidCatalog(ps) ==> ValidCatalog(r.value)
  {
    if !FitsColumns(p) then Err(DataError)
    else if p.durationDays <= 0 || p.price <= 0 then Err(IntegrityError)
    else if exists i :: 0 <= i < |ps| && (ps[i].code == p.code || ps[i].id == p.id) then Err(IntegrityError)
    else Ok(ps + [p])
  }

  /** The default ordering of the table: ascending price. */
  predicate SortedByPrice(ps: seq<Plan>) {
    forall i, j :: 0 <= i < j < |ps| ==> ps[i].price <= ps[j].price
  }

  /** In a price-ordered list no plan is cheaper than the first. */
  lemma SortedHeadBound(ps: seq<Plan>, x: Plan)
    requires SortedByPrice(ps) && x in ps
    ensures ps[0].price <= x.price
  {
    var k :| 0 <= k < |ps| && ps[k] == x;
  }

  /** A plan no dearer than any of a price-ordered list may go in front of it. */
  lemma ConsSorted(h: Plan, rest: seq<Plan>)
    requires SortedByPrice(rest)
    requires forall x :: x in rest ==> h.price <= x.price
    ensures SortedByPrice([h] + rest)
  {
    forall i, j | 0 <= i < j < |[h] + rest|
      ensures ([h] + rest)[i].price <= ([h] + rest)[j].price
    {
      assert ([h] + rest)[j] == rest[j - 1];
      if i == 0 {
        assert rest[j - 1] in rest;
      } else {
        assert ([h] + rest)[i] == rest[i - 1];
      }
    }
  }

  function InsertByPrice(p: Plan, ps: seq<Plan>): (r: seq<Plan>)
    requires SortedByPrice(ps)
    ensures SortedByPrice(r)
    ensures multiset(r) == multiset(ps) + multiset{p}
    ensures forall x :: x in r ==> x == p || x in ps
  {
    if |ps| == 0 then [p]
    else if p.price <= ps[0].price then
      assert forall x :: x in ps ==> p.price <= x.price by {
        forall x | x in ps
          ensures p.price <= x.price
        {
          SortedHeadBound(ps, x);
        }
      }
      ConsSorted(p, ps);
      [p] + ps
    else
      var rest := InsertByPrice(p, ps[1..]);
      assert ps == [ps[0]] + ps[1..];
      assert forall x :: x in rest ==> ps[0].price <= x.price by {
        forall x | x in rest
          ensures ps[0].price <= x.price
        {
          if x != p {
            SortedHeadBound(ps, x);
          }
        }
      }
      ConsSorted(ps[0], rest);
      ConsKeepsContents(ps[0], ps[1..], rest, p);
      [ps[0]] + rest
  }

  /** Putting the same plan in front of a list and of that list with `p`
      inserted keeps the two contents `p` apart. */
  lemma ConsKeepsContents(h: Plan, tail: seq<Plan>, rest: seq<Plan>, p: Plan)
    requires multiset(rest) == multiset(tail) + multiset{p}
    ensures multiset([h] + rest) == multiset([h] + tail) + multiset{p}
    ensures forall x :: x in [h] + rest ==> x == p || x in [h] + tail
  {
    forall x | x in [h] + rest
      ensures x == p || x in [h] + tail
    {
      if x != h {
        assert x in multiset(rest);
      }
    }
  }

  /** The plans listed in the table's default order. */
  function OrderByPrice(ps: seq<Plan>): (r: seq<Plan>)
    ensures SortedByPrice(r)
    ensures multiset(r) == multiset(ps)
  {
    if |ps| == 0 then []
    else
      assert ps == [ps[0]] + ps[1..];
      InsertByPrice(ps[0], OrderByPrice(ps[1..]))
  }
}
