/** The static table of pricing plans and lookup by id. */
module Pricing {
  import opened Wrappers

  /** A pricing plan; the dollar `price` (a float used only for display) is not modelled */
  datatype Plan = Plan(
    id: string,
    name: string,
    priceInCents: int,
    credits: int,
    description: string,
    features: seq<string>,
    highlighted: bool)

  const PLANS: seq<Plan> := [
    Plan("free", "Free", 0, 5, "Try it out with 5 free generations",
         ["5 image generations", "All artistic styles", "Standard resolution",
          "Reference image support"], false),
    Plan("starter", "Starter", 999, 100, "Perfect for casual creators",
         ["100 image generations", "All artistic styles", "High resolution output",
          "Reference image support", "Priority generation queue"], false),
    Plan("pro", "Pro", 2999, 500, "Best value for power users",
         ["500 image generations", "All artistic styles", "High resolution output",
          "Reference image support", "Priority generation queue",
          "Early access to new features"], true)
  ]

  /** Index of the first plan of `plans` whose id is `id` (`Array.prototype.find`) */
  function FindIndex(plans: seq<Plan>, id: string): (r: Option<nat>)
    ensures r.Some? ==> r.value < |plans| && plans[r.value].id == id
    ensures r.Some? ==> forall j :: 0 <= j < r.value ==> plans[j].id != id
    ensures r.None? <==> forall j :: 0 <= j < |plans| ==> plans[j].id != id
  {
    if |plans| == 0 then None
    else if plans[0].id == id then Some(0)
    else match FindIndex(plans[1..], id)
      case None => None
      case Some(k) => Some(k + 1)
  }

  /** `getPlanById`: the first plan of PLANS with the given id, if any */
  function GetPlanById(id: string): (r: Option<Plan>)
    ensures r.Some? ==> r.value.id == id && r.value in PLANS
    ensures r.None? <==> forall p :: p in PLANS ==> p.id != id
  {
    match FindIndex(PLANS, id)
    case None => None
    case Some(k) => Some(PLANS[k])
  }

  /** No two plans share an id, so lookup cannot be ambiguous. */
  lemma PlanIdsDistinct()
    ensures forall i, j :: 0 <= i < |PLANS| && 0 <= j < |PLANS| && PLANS[i].id == PLANS[j].id ==> i == j
  {
  }

  /** Lookup finds a plan exactly when that plan is listed under the id. */
  lemma GetPlanByIdIff(id: string, p: Plan)
    ensures GetPlanById(id) == Some(p) <==> p in PLANS && p.id == id
  {
    PlanIdsDistinct();
    if p in PLANS && p.id == id {
      var k :| 0 <= k < |PLANS| && PLANS[k] == p;
      var r := FindIndex(PLANS, id);
      assert r.Some?;
      assert PLANS[r.value].id == PLANS[k].id;
    }
  }

  /** `free` is the only plan that costs nothing, and every plan grants credits. */
  lemma PlanTableFacts()
    ensures forall p :: p in PLANS ==> (p.priceInCents == 0 <==> p.id == "free")
    ensures forall p :: p in PLANS ==> p.credits > 0 && p.priceInCents >= 0
    ensures GetPlanById("free") == Some(PLANS[0]) && PLANS[0].credits == 5 && PLANS[0].priceInCents == 0
    ensures GetPlanById("starter") == Some(PLANS[1]) && PLANS[1].credits == 100 && PLANS[1].priceInCents == 999
    ensures GetPlanById("pro") == Some(PLANS[2]) && PLANS[2].credits == 500 && PLANS[2].priceInCents == 2999
  {
    GetPlanByIdIff("free", PLANS[0]);
    GetPlanByIdIff("starter", PLANS[1]);
    GetPlanByIdIff("pro", PLANS[2]);
  }
}
