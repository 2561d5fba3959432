/**
  RunModelPriceAccuracyMigration of internal/database/migrate_model_price_accuracy.go: selling
  prices that are missing, or leave too small a margin, are raised to the official price.
*/
module PriceAccuracy {
  import opened Common
  import opened PriceTier
  import opened PriceRows

  const MIN_MARGIN := 0.15

  predicate ShouldRaise(selling: real, official: real, discount: real) {
    if official <= 0.0 then false
    else if selling <= 0.0 then true
    else
      var effective := official * discount;
      if selling < effective then true
      else (selling - effective) / selling < MIN_MARGIN && selling < official
  }

  function EffectiveDiscount(item: Item): real {
    if 0.0 < item.discount <= 1.0 then item.discount
    else if 0.0 < item.supplierDiscount <= 1.0 then item.supplierDiscount
    else 1.0
  }

  // ---------- Top-level prices ----------

  function RaisedPrice(selling: real, official: real, discount: real): real {
    if ShouldRaise(selling, official, discount) then Round6(official) else selling
  }

  function RaisedPerToken(perToken: int, selling: real, official: real, discount: real): int {
    if ShouldRaise(selling, official, discount) then Round(Round6(official) * 10000.0) else perToken
  }

  function RaisedPrices(item: Item, p: Pricing): Pricing {
    var d := EffectiveDiscount(item);
    p.(inputPrice := RaisedPrice(p.inputPrice, item.inputCost, d),
       inputPerToken := RaisedPerToken(p.inputPerToken, p.inputPrice, item.inputCost, d),
       outputPrice := RaisedPrice(p.outputPrice, item.outputCost, d),
       outputPerToken := RaisedPerToken(p.outputPerToken, p.outputPrice, item.outputCost, d),
       thinkingPrice := RaisedPrice(p.thinkingPrice, item.thinkingCost, d),
       thinkingPerToken := RaisedPerToken(p.thinkingPerToken, p.thinkingPrice, item.thinkingCost, d),
       currency := if p.currency == "" then FirstNonEmpty(item.currency, "CREDIT") else p.currency)
  }

  function FirstNonEmpty(a: string, b: string): string {
    if a != "" then a else b
  }

  // ---------- Tiers ----------

  predicate ShouldRaiseTier(override: Option<real>, official: real, discount: real) {
    ShouldRaise(if override.Some? then override.value else 0.0, official, discount)
  }

  predicate RaisesTier(t: Tier, discount: real) {
    || ShouldRaiseTier(t.sellingInput, t.inputPrice, discount)
    || ShouldRaiseTier(t.sellingOutput, t.outputPrice, discount)
    || ShouldRaiseTier(t.sellingThinking, t.thinkingPrice, discount)
  }

  function RaisedOverride(override: Option<real>, official: real, discount: real): Option<real> {
    if ShouldRaiseTier(override, official, discount) then Some(Round6(official)) else override
  }

  function RaisedTier(tier: Tier, discount: real): Tier {
    var t := Normalized(tier);
    t.(sellingInput := RaisedOverride(t.sellingInput, t.inputPrice, discount),
       sellingOutput := RaisedOverride(t.sellingOutput, t.outputPrice, discount),
       sellingThinking := RaisedOverride(t.sellingThinking, t.thinkingPrice, discount))
  }

  function OfficialPrice(override: Option<real>, base: real): real {
    if override.Some? && override.value > 0.0 then Round6(override.value) else base
  }

  function OfficialTier(t: Tier): Tier {
    var input := OfficialPrice(t.sellingInput, t.inputPrice);
    var scales := t.inputPrice > 0.0 && input > 0.0;
    var ratio := if scales then input / t.inputPrice else 1.0;
    t.(inputPrice := input,
       outputPrice := OfficialPrice(t.sellingOutput, t.outputPrice),
       thinkingPrice := OfficialPrice(t.sellingThinking, t.thinkingPrice),
       cacheInputPrice := if scales then Scaled(t.cacheInputPrice, ratio) else t.cacheInputPrice,
       cacheWritePrice := if scales then Scaled(t.cacheWritePrice, ratio) else t.cacheWritePrice)
  }

  function Raiser(discount: real): Tier -> Tier {
    (t: Tier) => RaisedTier(t, discount)
  }

  function Officializer(): Tier -> Tier {
    (t: Tier) => OfficialTier(t)
  }

  predicate RaisesSome(tiers: seq<Tier>, discount: real) {
    exists i :: 0 <= i < |tiers| && RaisesTier(tiers[i], discount)
  }

  function OfficialTiers(tiers: seq<Tier>): seq<Tier> {
    Sorted(Map(tiers, Officializer()))
  }

  /** officialSellingTiersJSON: nothing unless some tier is raised. */
  function OfficialSelling(item: Item, priceTiers: Column): Option<TiersData> {
    var decoded := DecodedCurrent(priceTiers);
    var d := EffectiveDiscount(item);
    if decoded.None? || !RaisesSome(decoded.value.tiers, d) then None
    else
      var data := decoded.value;
      Some(TiersData(Marshalled(OfficialTiers(Map(data.tiers, Raiser(d)))),
                     FirstNonEmpty(FirstNonEmpty(data.currency, item.currency), "CREDIT"),
                     data.unitLabel, data.sourceURL))
  }

  // ---------- The migration ----------

  predicate HasCost(item: Item) {
    item.inputCost > 0.0 || item.outputCost > 0.0 || item.thinkingCost > 0.0
  }

  function StartingPricing(row: Row): Pricing {
    if row.pricing.Some? then row.pricing.value else NO_PRICING.(currency := FirstNonEmpty(row.item.currency, "CREDIT"))
  }

  function OfficialPricing(row: Row): Pricing {
    var p := RaisedPrices(row.item, StartingPricing(row));
    var tiers := OfficialSelling(row.item, row.priceTiers);
    if tiers.Some? then p.(tiers := Encoded(tiers.value)) else p
  }

  predicate Changes(row: Row) {
    var p, d := StartingPricing(row), EffectiveDiscount(row.item);
    || ShouldRaise(p.inputPrice, row.item.inputCost, d)
    || ShouldRaise(p.outputPrice, row.item.outputCost, d)
    || ShouldRaise(p.thinkingPrice, row.item.thinkingCost, d)
    || p.currency == ""
    || OfficialSelling(row.item, row.priceTiers).Some?
  }

  function Accurate(row: Row): Row {
    if HasCost(row.item) && Changes(row) then row.(pricing := Some(OfficialPricing(row))) else row
  }

  method RaiseTier(tier: Tier, d: real) returns (t: Tier, raised: bool)
    ensures t == RaisedTier(tier, d)
    ensures raised == RaisesTier(tier, d)
  {
    t := Normalized(tier);
    raised := false;
    if ShouldRaiseTier(t.sellingInput, t.inputPrice, d) {
      t := t.(sellingInput := Some(Round6(t.inputPrice)));
      raised := true;
    }
    if ShouldRaiseTier(t.sellingOutput, t.outputPrice, d) {
      t := t.(sellingOutput := Some(Round6(t.outputPrice)));
      raised := true;
    }
    if ShouldRaiseTier(t.sellingThinking, t.thinkingPrice, d) {
      t := t.(sellingThinking := Some(Round6(t.thinkingPrice)));
      raised := true;
    }
  }

  /** Raises the overrides in place; whether any was. */
  method RaiseTierOverrides(item: Item, tiers: array<Tier>) returns (changed: bool)
    modifies tiers
    ensures tiers[..] == Map(old(tiers[..]), Raiser(EffectiveDiscount(item)))
    ensures changed == RaisesSome(old(tiers[..]), EffectiveDiscount(item))
  {
    ghost var was := tiers[..];
    var d := EffectiveDiscount(item);
    changed := false;
    for i := 0 to tiers.Length
      invariant forall k :: 0 <= k < i ==> tiers[k] == Raiser(d)(was[k])
      invariant forall k :: i <= k < tiers.Length ==> tiers[k] == was[k]
      invariant changed == RaisesSome(was[..i], d)
    {
      RaisesSomeExtends(was, i, d);
      var t, raised := RaiseTier(tiers[i], d);
      changed := changed || raised;
      tiers[i] := t;
    }
    assert was[..|was|] == was;
    MapIs(was, Raiser(d), tiers[..]);
  }

  lemma RaisesSomeExtends(tiers: seq<Tier>, i: nat, discount: real)
    requires i < |tiers|
    ensures RaisesSome(tiers[..i + 1], discount) <==> RaisesSome(tiers[..i], discount) || RaisesTier(tiers[i], discount)
  {
    if RaisesTier(tiers[i], discount) {
      assert tiers[..i + 1][i] == tiers[i];
    }
    if RaisesSome(tiers[..i], discount) {
      var k :| 0 <= k < i && RaisesTier(tiers[..i][k], discount);
      assert tiers[..i + 1][k] == tiers[..i][k];
    }
  }

  method BuildOfficialTier(tier: Tier) returns (t: Tier)
    ensures t == OfficialTier(tier)
  {
    t := tier;
    if tier.sellingInput.Some? && tier.sellingInput.value > 0.0 {
      t := t.(inputPrice := Round6(tier.sellingInput.value));
    }
    if tier.sellingOutput.Some? && tier.sellingOutput.value > 0.0 {
      t := t.(outputPrice := Round6(tier.sellingOutput.value));
    }
    if tier.sellingThinking.Some? && tier.sellingThinking.value > 0.0 {
      t := t.(thinkingPrice := Round6(tier.sellingThinking.value));
    }
    if tier.inputPrice > 0.0 && t.inputPrice > 0.0 {
      var ratio := t.inputPrice / tier.inputPrice;
      t := t.(cacheInputPrice := Scaled(tier.cacheInputPrice, ratio),
              cacheWritePrice := Scaled(tier.cacheWritePrice, ratio));
    }
  }

  method BuildOfficialSellingTiers(costTiers: array<Tier>) returns (tiers: array<Tier>)
    ensures fresh(tiers)
    ensures tiers[..] == OfficialTiers(costTiers[..])
  {
    tiers := new Tier[costTiers.Length](i requires 0 <= i < costTiers.Length reads costTiers => costTiers[i]);
    for i := 0 to tiers.Length
      invariant forall k :: 0 <= k < i ==> tiers[k] == Officializer()(costTiers[k])
      invariant forall k :: i <= k < tiers.Length ==> tiers[k] == costTiers[k]
      invariant costTiers[..] == old(costTiers[..])
    {
      var t := BuildOfficialTier(costTiers[i]);
      tiers[i] := t;
    }
    MapIs(costTiers[..], Officializer(), tiers[..]);
    SortTiers(tiers);
  }

  method OfficialSellingTiers(item: Item, priceTiers: Column) returns (selling: Option<TiersData>)
    ensures selling == OfficialSelling(item, priceTiers)
  {
    var decoded := DecodedCurrent(priceTiers);
    if decoded.None? {
      return None;
    }
    var data := decoded.value;
    var tiers := new Tier[|data.tiers|](i requires 0 <= i < |data.tiers| => data.tiers[i]);
    assert tiers[..] == data.tiers;
    var changed := RaiseTierOverrides(item, tiers);
    if !changed {
      return None;
    }
    var official := BuildOfficialSellingTiers(tiers);
    NormalizeTiers(official);
    selling := Some(TiersData(official[..], FirstNonEmpty(FirstNonEmpty(data.currency, item.currency), "CREDIT"),
                              data.unitLabel, data.sourceURL));
  }

  /** A model_pricings row, assigned field by field. */
  class PricingRow {
    var inputPrice: real
    var outputPrice: real
    var thinkingPrice: real
    var inputPerToken: int
    var outputPerToken: int
    var thinkingPerToken: int
    var currency: string
    var tiers: Column

    function Contents(): Pricing
      reads this
    {
      Pricing(inputPrice, outputPrice, thinkingPrice, inputPerToken, outputPerToken, thinkingPerToken, currency, tiers)
    }

    constructor (p: Pricing)
      ensures Contents() == p
    {
      inputPrice, outputPrice, thinkingPrice := p.inputPrice, p.outputPrice, p.thinkingPrice;
      inputPerToken, outputPerToken, thinkingPerToken := p.inputPerToken, p.outputPerToken, p.thinkingPerToken;
      currency, tiers := p.currency, p.tiers;
    }

    method RaisePrices(item: Item) returns (changed: bool)
      modifies this
      ensures Contents() == RaisedPrices(item, old(Contents()))
      ensures changed || Contents() == old(Contents())
      ensures
        var d := EffectiveDiscount(item);
        changed <==> (|| ShouldRaise(old(inputPrice), item.inputCost, d)
                      || ShouldRaise(old(outputPrice), item.outputCost, d)
                      || ShouldRaise(old(thinkingPrice), item.thinkingCost, d)
                      || old(currency) == "")
    {
      var d := EffectiveDiscount(item);
      changed := false;
      if ShouldRaise(inputPrice, item.inputCost, d) {
        inputPrice := Round6(item.inputCost);
        inputPerToken := Round(inputPrice * 10000.0);
        changed := true;
      }
      if ShouldRaise(outputPrice, item.outputCost, d) {
        outputPrice := Round6(item.outputCost);
        outputPerToken := Round(outputPrice * 10000.0);
        changed := true;
      }
      if ShouldRaise(thinkingPrice, item.thinkingCost, d) {
        thinkingPrice := Round6(item.thinkingCost);
        thinkingPerToken := Round(thinkingPrice * 10000.0);
        changed := true;
      }
      if currency == "" {
        currency := FirstNonEmpty(item.currency, "CREDIT");
        changed := true;
      }
    }
  }

  class AccuracyMigration {
    var rows: seq<Row>

    constructor (rows: seq<Row>)
      ensures this.rows == rows
    {
      this.rows := rows;
    }

    method RaiseItem(n: nat)
      requires n < |rows|
      modifies this
      ensures rows == old(rows)[n := Accurate(old(rows)[n])]
    {
      var row := rows[n];
      assert rows == rows[n := row];
      if !HasCost(row.item) {
        return;
      }
      var pricing := new PricingRow(StartingPricing(row));
      var changed := pricing.RaisePrices(row.item);
      var selling := OfficialSellingTiers(row.item, row.priceTiers);
      if selling.Some? {
        pricing.tiers := Encoded(selling.value);
        changed := true;
      }
      if changed {
        assert pricing.Contents() == OfficialPricing(row);
        rows := rows[n := row.(pricing := Some(pricing.Contents()))];
      }
    }

    method RunModelPriceAccuracy()
      modifies this
      ensures |rows| == |old(rows)|
      ensures forall n :: 0 <= n < |rows| ==> rows[n] == Accurate(old(rows)[n])
    {
      for n := 0 to |rows|
        invariant |rows| == |old(rows)|
        invariant forall k :: 0 <= k < n ==> rows[k] == Accurate(old(rows)[k])
        invariant forall k :: n <= k < |rows| ==> rows[k] == old(rows)[k]
      {
        RaiseItem(n);
      }
    }
  }
}
