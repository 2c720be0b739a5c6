/** The pricing page: three plans shown with a monthly or an annual price, a
    struck-through original price where a plan has one, and a billing toggle. */
module Pricing {
  import JsMath
  import opened Wrappers

  /** A plan; `originalPrice` is the optional field. */
  datatype Plan = Plan(id: string, name: string, price: real, originalPrice: Option<real>, period: string)

  const Plans: seq<Plan> := [
    Plan("basic", "Basic", 29.0, None, "month"),
    Plan("pro", "Professional", 59.0, Some(79.0), "month"),
    Plan("enterprise", "Enterprise", 99.0, Some(129.0), "month")
  ]

  /** A monthly amount as billed: unchanged monthly, `Math.round(amount * 10)`
      annually (ten months for the price of twelve). */
  function Billed(amount: real, isAnnual: bool): (r: real)
    ensures !isAnnual ==> r == amount
    ensures isAnnual ==> r.Floor as real == r && r - 0.5 <= amount * 10.0 < r + 0.5
  {
    if isAnnual then JsMath.Round(amount * 10.0) as real else amount
  }

  /** `getPrice`. */
  function GetPrice(p: Plan, isAnnual: bool): real {
    Billed(p.price, isAnnual)
  }

  /** `getOriginalPrice`: none exactly when the plan has no original price or it is
      0 (the falsy values); otherwise the original price billed the same way. */
  function GetOriginalPrice(p: Plan, isAnnual: bool): (r: Option<real>)
    ensures r == None <==> p.originalPrice == None || p.originalPrice == Some(0.0)
    ensures r != None ==> r == Some(Billed(p.originalPrice.value, isAnnual))
  {
    match p.originalPrice
    case None => None
    case Some(o) => if o == 0.0 then None else Some(Billed(o, isAnnual))
  }

  /** The unit after the price: "year" when annual, the plan's own period otherwise. */
  function PeriodLabel(p: Plan, isAnnual: bool): (r: string)
    ensures isAnnual ==> r == "year"
    ensures !isAnnual ==> r == p.period
  {
    if isAnnual then "year" else p.period
  }

  /** For a whole-number amount the annual price is exactly ten times the monthly. */
  lemma AnnualIsTenfold(n: int)
    ensures Billed(n as real, true) == 10.0 * (n as real)
  {
    JsMath.RoundOfInteger(10 * n);
    assert (n as real) * 10.0 == (10 * n) as real;
  }

  /** Billing keeps the order of amounts. */
  lemma BilledMonotone(a: real, b: real, isAnnual: bool)
    requires a <= b
    ensures Billed(a, isAnnual) <= Billed(b, isAnnual)
  {
    if isAnnual {
      JsMath.RoundMonotone(a * 10.0, b * 10.0);
    }
  }

  /** A plan with whole-number prices whose original price is above its price
      shows a struck-through price above the current one, in both billing modes. */
  lemma DiscountShownInBothModes(p: Plan, isAnnual: bool, price: int, original: int)
    requires p.price == price as real && p.originalPrice == Some(original as real)
    requires 0 <= price < original
    ensures GetOriginalPrice(p, isAnnual).Some?
    ensures GetOriginalPrice(p, isAnnual).value > GetPrice(p, isAnnual)
  {
    AnnualIsTenfold(price);
    AnnualIsTenfold(original);
  }

  /** The seed plans: Basic has no original price in either mode, Professional and
      Enterprise show one above the price in both; annual prices are tenfold. */
  lemma SeedPlans(isAnnual: bool)
    ensures GetOriginalPrice(Plans[0], isAnnual) == None
    ensures forall i :: 1 <= i < |Plans| ==>
      GetOriginalPrice(Plans[i], isAnnual).Some? &&
      GetOriginalPrice(Plans[i], isAnnual).value > GetPrice(Plans[i], isAnnual)
    ensures GetPrice(Plans[0], true) == 290.0 && GetPrice(Plans[1], true) == 590.0
    ensures GetPrice(Plans[2], true) == 990.0
    ensures forall i :: 0 <= i < |Plans| ==> PeriodLabel(Plans[i], isAnnual) == if isAnnual then "year" else "month"
  {
    DiscountShownInBothModes(Plans[1], isAnnual, 59, 79);
    DiscountShownInBothModes(Plans[2], isAnnual, 99, 129);
    AnnualIsTenfold(29);
    AnnualIsTenfold(59);
    AnnualIsTenfold(99);
  }

  class PricingPage {
    /** `isAnnual`: the billing toggle. */
    var isAnnual: bool

    /** Monthly billing at first. */
    constructor()
      ensures !isAnnual
    {
      isAnnual := false;
    }

    /** The toggle's click handler flips the billing mode. */
    method ToggleBilling()
      modifies this
      ensures isAnnual == !old(isAnnual)
    {
      isAnnual := !isAnnual;
    }

    /** The price this page shows for plan `p` in its current mode. */
    function ShownPrice(p: Plan): (r: real)
      reads this
      ensures isAnnual ==> r.Floor as real == r && r - 0.5 <= p.price * 10.0 < r + 0.5
      ensures !isAnnual ==> r == p.price
    {
      GetPrice(p, isAnnual)
    }
  }

  /** Two clicks on the toggle restore the billing mode and the prices shown. */
  method TwoTogglesRestore(page: PricingPage, p: Plan)
    modifies page
    ensures page.isAnnual == old(page.isAnnual)
    ensures page.ShownPrice(p) == old(page.ShownPrice(p))
  {
    page.ToggleBilling();
    page.ToggleBilling();
  }
}
