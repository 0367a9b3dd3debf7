/**
 * The tier rule of the submit handler: the energy-level code selects a discount
 * rate and a label, and the subsidised price is the unified price times the rate.
 * Rates are exact rationals.
 */
module Pricing {

  datatype Discount = Discount(rate: real, energyLabel: string)

  const Tier1Label := "一级能效（80%）"
  const Tier2Label := "二级能效（85%）"

  /** Code `1` is tier 1 at 80%, code `2` tier 2 at 85%; any other code keeps 80% and no label. */
  function DiscountFor(code: string): (d: Discount)
    ensures 0.0 < d.rate < 1.0
    ensures d.rate == 0.85 <==> code == "2"
    ensures d.energyLabel == "" <==> code != "1" && code != "2"
  {
    if code == "1" then Discount(0.8, Tier1Label)
    else if code == "2" then Discount(0.85, Tier2Label)
    else Discount(0.8, "")
  }

  /** `originalPriceNum * discountRate`, exactly. */
  function DiscountedPrice(price: real, code: string): (p: real)
    ensures price > 0.0 ==> 0.0 < p < price
    ensures price > 0.0 ==> p >= price * 0.8 && p <= price * 0.85
  {
    price * DiscountFor(code).rate
  }

  /** The three rows of the tier table. */
  lemma TierTable(code: string)
    ensures code == "1" ==> DiscountFor(code) == Discount(4.0 / 5.0, Tier1Label)
    ensures code == "2" ==> DiscountFor(code) == Discount(17.0 / 20.0, Tier2Label)
    ensures code != "1" && code != "2" ==> DiscountFor(code) == Discount(4.0 / 5.0, "")
  {
  }

  /** A unified price of 1000 becomes 800 at tier 1 and 850 at tier 2. */
  lemma ThousandExample()
    ensures DiscountedPrice(1000.0, "1") == 800.0
    ensures DiscountedPrice(1000.0, "2") == 850.0
  {
  }
}
