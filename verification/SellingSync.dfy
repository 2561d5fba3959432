/**
  RunPriceTierSellingSyncMigration of
  internal/database/migrate_price_tier_selling_sync.go: supplier cost tiers are completed and
  mirrored into the platform's selling tiers.
*/
module SellingSync {
  import opened Common
  import opened PriceTier
  import opened PriceRows

  datatype Kind = Input | Output | Thinking

  datatype Ratios = Ratios(input: real, output: real, thinking: real)

  function RatioOrZero(numerator: real, denominator: real): real {
    if numerator > 0.0 && denominator > 0.0 then numerator / denominator else 0.0
  }

  function FirstPositiveRatio(numerator: real, denominator: real, fallback: real, default: real): real {
    if numerator > 0.0 && denominator > 0.0 then numerator / denominator
    else if fallback > 0.0 then fallback
    else default
  }

  // ---------- One tier ----------

  function FilledCache(supportsCache: bool, itemPrice: real, ratio: real, cache: real, inputPrice: real): real {
    if supportsCache && itemPrice > 0.0 && cache <= 0.0 then
      if ratio > 0.0 && inputPrice > 0.0 then Scaled(inputPrice, ratio) else Round6(itemPrice)
    else cache
  }

  function Filled(item: Item, tier: Tier): Tier {
    var t := Normalized(tier);
    t.(cacheInputPrice := FilledCache(item.supportsCache, item.cacheInputPrice,
                                      RatioOrZero(item.cacheInputPrice, item.inputCost),
                                      t.cacheInputPrice, t.inputPrice),
       cacheWritePrice := FilledCache(item.supportsCache, item.cacheWritePrice,
                                      RatioOrZero(item.cacheWritePrice, item.inputCost),
                                      t.cacheWritePrice, t.inputPrice))
  }

  /** An override is computed for a priced tier that has no positive one. */
  predicate Computed(override: Option<real>, base: real) {
    base > 0.0 && (override.None? || override.value <= 0.0)
  }

  function Overridden(override: Option<real>, base: real, ratio: real): Option<real> {
    if Computed(override, base) then Some(Scaled(base, ratio)) else override
  }

  function Attached(t: Tier, r: Ratios): Tier {
    t.(sellingInput := Overridden(t.sellingInput, t.inputPrice, r.input),
       sellingOutput := Overridden(t.sellingOutput, t.outputPrice, r.output),
       sellingThinking := Overridden(t.sellingThinking, t.thinkingPrice, r.thinking))
  }

  function ValueOrRatio(override: Option<real>, base: real, ratio: real): real {
    if override.Some? && override.value > 0.0 then Round6(override.value)
    else if base > 0.0 then Scaled(base, ratio)
    else 0.0
  }

  function SellingCache(costCache: real, costInput: real, sellInput: real, fallbackRatio: real): real {
    if costCache <= 0.0 then 0.0
    else if costInput > 0.0 && sellInput > 0.0 then Divided(costCache * sellInput, costInput)
    else Scaled(costCache, fallbackRatio)
  }

  function Selling(t: Tier, r: Ratios): Tier {
    var input := ValueOrRatio(t.sellingInput, t.inputPrice, r.input);
    var output := ValueOrRatio(t.sellingOutput, t.outputPrice, r.output);
    var thinking := ValueOrRatio(t.sellingThinking, t.thinkingPrice, r.thinking);
    t.(inputPrice := input,
       outputPrice := output,
       thinkingPrice := thinking,
       cacheInputPrice := SellingCache(t.cacheInputPrice, t.inputPrice, input, r.input),
       cacheWritePrice := SellingCache(t.cacheWritePrice, t.inputPrice, input, r.input),
       sellingInput := Some(input),
       sellingOutput := Some(output),
       sellingThinking := if thinking > 0.0 then Some(thinking) else None)
  }

  function Filler(item: Item): Tier -> Tier {
    (t: Tier) => Filled(item, t)
  }

  function Attacher(r: Ratios): Tier -> Tier {
    (t: Tier) => Attached(t, r)
  }

  function Seller(r: Ratios): Tier -> Tier {
    (t: Tier) => Selling(t, r)
  }

  // ---------- All tiers of an item ----------

  function CostTiers(item: Item, tiers: seq<Tier>): seq<Tier> {
    Sorted(Map(tiers, Filler(item)))
  }

  function SellingTiers(tiers: seq<Tier>, r: Ratios): seq<Tier> {
    Sorted(Map(tiers, Seller(r)))
  }

  function Base(t: Tier, kind: Kind): real {
    match kind
    case Input => t.inputPrice
    case Output => t.outputPrice
    case Thinking => t.thinkingPrice
  }

  function Override(t: Tier, kind: Kind): Option<real> {
    match kind
    case Input => t.sellingInput
    case Output => t.sellingOutput
    case Thinking => t.sellingThinking
  }

  predicate GivesRatio(t: Tier, kind: Kind) {
    Override(t, kind).Some? && Base(t, kind) > 0.0 && Override(t, kind).value > 0.0
  }

  /** The ratio of the first tier that has both prices. */
  function TierRatio(tiers: seq<Tier>, kind: Kind): real {
    if tiers == [] then 0.0
    else if GivesRatio(tiers[0], kind) then Override(tiers[0], kind).value / Base(tiers[0], kind)
    else TierRatio(tiers[1..], kind)
  }

  function PlatformRatios(item: Item, pricing: Option<Pricing>, tiers: seq<Tier>): Ratios {
    var p := if pricing.Some? then pricing.value else NO_PRICING;
    Ratios(FirstPositiveRatio(p.inputPrice, item.inputCost, TierRatio(tiers, Input), 1.0),
           FirstPositiveRatio(p.outputPrice, item.outputCost, TierRatio(tiers, Output), 1.0),
           FirstPositiveRatio(p.thinkingPrice, item.thinkingCost, TierRatio(tiers, Thinking), 1.0))
  }

  /** int64(price * 10000): truncated toward zero. */
  function PerToken(price: real): int {
    if price >= 0.0 then (price * 10000.0).Floor else -(-(price * 10000.0)).Floor
  }

  /** A price that is not positive is taken from the first selling tier. */
  function SyncedPricing(item: Item, pricing: Option<Pricing>, cost: TiersData, selling: seq<Tier>): Pricing
    requires selling != []
  {
    var p := if pricing.Some? then pricing.value else NO_PRICING;
    var first := selling[0];
    var p1 := if p.inputPrice <= 0.0
              then p.(inputPrice := first.inputPrice, inputPerToken := PerToken(first.inputPrice)) else p;
    var p2 := if p.outputPrice <= 0.0
              then p1.(outputPrice := first.outputPrice, outputPerToken := PerToken(first.outputPrice)) else p1;
    var p3 := if p.thinkingPrice <= 0.0 && first.thinkingPrice > 0.0
              then p2.(thinkingPrice := first.thinkingPrice, thinkingPerToken := PerToken(first.thinkingPrice)) else p2;
    p3.(currency := FirstNonBlank(p.currency, item.currency, "CREDIT"),
        tiers := Encoded(TiersData(selling, FirstNonBlank(cost.currency, item.currency, "CREDIT"),
                                   cost.unitLabel, cost.sourceURL)))
  }

  function StoredCost(row: Row, data: TiersData): TiersData {
    var filled := CostTiers(row.item, data.tiers);
    var r := PlatformRatios(row.item, row.pricing, filled);
    data.(tiers := Marshalled(Map(filled, Attacher(r))),
          currency := if data.currency == "" then "CNY" else data.currency)
  }

  function StoredSelling(row: Row, data: TiersData): seq<Tier> {
    var r := PlatformRatios(row.item, row.pricing, CostTiers(row.item, data.tiers));
    Marshalled(SellingTiers(StoredCost(row, data).tiers, r))
  }

  lemma StoredLengths(row: Row, data: TiersData)
    ensures |StoredCost(row, data).tiers| == |data.tiers| && |StoredSelling(row, data)| == |data.tiers|
  {
    var filled := CostTiers(row.item, data.tiers);
    var r := PlatformRatios(row.item, row.pricing, filled);
    var attached := Map(filled, Attacher(r));
    var cost := StoredCost(row, data).tiers;
    MapLength(data.tiers, Filler(row.item));
    SortedPermutes(Map(data.tiers, Filler(row.item)));
    MapLength(filled, Attacher(r));
    MarshalledLength(attached);
    MapLength(cost, Seller(r));
    SortedPermutes(Map(cost, Seller(r)));
    MarshalledLength(SellingTiers(cost, r));
  }

  lemma MarshalledLength(tiers: seq<Tier>)
    ensures |Marshalled(tiers)| == |tiers|
  {
    MapLength(tiers, Normalizer());
    SortedPermutes(Map(tiers, Normalizer()));
  }

  /** One item through the migration; an item without tiers is skipped. */
  function Synced(row: Row): Row {
    var decoded := DecodedSync(row.priceTiers);
    if decoded.None? then row
    else
      var data := decoded.value;
      DecodedSyncNotEmpty(row.priceTiers);
      StoredLengths(row, data);
      var cost := StoredCost(row, data);
      row.(priceTiers := Encoded(cost),
           pricing := Some(SyncedPricing(row.item, row.pricing, cost, StoredSelling(row, data))))
  }

  // ---------- The migration ----------

  method NormalizeAndFillCostTiers(item: Item, tiers: array<Tier>)
    modifies tiers
    ensures tiers[..] == CostTiers(item, old(tiers[..]))
  {
    ghost var was := tiers[..];
    var cacheInputRatio := RatioOrZero(item.cacheInputPrice, item.inputCost);
    var cacheWriteRatio := RatioOrZero(item.cacheWritePrice, item.inputCost);
    for i := 0 to tiers.Length
      invariant forall k :: 0 <= k < i ==> tiers[k] == Filler(item)(was[k])
      invariant forall k :: i <= k < tiers.Length ==> tiers[k] == was[k]
    {
      var t := Normalized(tiers[i]);
      if item.supportsCache && item.cacheInputPrice > 0.0 && t.cacheInputPrice <= 0.0 {
        if cacheInputRatio > 0.0 && t.inputPrice > 0.0 {
          t := t.(cacheInputPrice := Scaled(t.inputPrice, cacheInputRatio));
        } else {
          t := t.(cacheInputPrice := Round6(item.cacheInputPrice));
        }
      }
      if item.supportsCache && item.cacheWritePrice > 0.0 && t.cacheWritePrice <= 0.0 {
        if cacheWriteRatio > 0.0 && t.inputPrice > 0.0 {
          t := t.(cacheWritePrice := Scaled(t.inputPrice, cacheWriteRatio));
        } else {
          t := t.(cacheWritePrice := Round6(item.cacheWritePrice));
        }
      }
      assert t == Filled(item, was[i]);
      tiers[i] := t;
    }
    MapIs(was, Filler(item), tiers[..]);
    SortTiers(tiers);
  }

  method RatioFromTiers(tiers: array<Tier>, kind: Kind) returns (ratio: real)
    ensures ratio == TierRatio(tiers[..], kind)
  {
    for i := 0 to tiers.Length
      invariant TierRatio(tiers[..], kind) == TierRatio(tiers[i..], kind)
    {
      var t := tiers[i];
      assert tiers[i..][1..] == tiers[i + 1..];
      if GivesRatio(t, kind) {
        return Override(t, kind).value / Base(t, kind);
      }
    }
    ratio := 0.0;
  }

  method PlatformTierRatios(item: Item, pricing: Option<Pricing>, tiers: array<Tier>) returns (r: Ratios)
    ensures r == PlatformRatios(item, pricing, tiers[..])
  {
    var input := RatioFromTiers(tiers, Input);
    var output := RatioFromTiers(tiers, Output);
    var thinking := RatioFromTiers(tiers, Thinking);
    if pricing.Some? {
      var p := pricing.value;
      return Ratios(FirstPositiveRatio(p.inputPrice, item.inputCost, input, 1.0),
                    FirstPositiveRatio(p.outputPrice, item.outputCost, output, 1.0),
                    FirstPositiveRatio(p.thinkingPrice, item.thinkingCost, thinking, 1.0));
    }
    r := Ratios(FirstPositiveRatio(0.0, 0.0, input, 1.0),
                FirstPositiveRatio(0.0, 0.0, output, 1.0),
                FirstPositiveRatio(0.0, 0.0, thinking, 1.0));
  }

  method AttachSellingOverrides(tiers: array<Tier>, r: Ratios)
    modifies tiers
    ensures tiers[..] == Map(old(tiers[..]), Attacher(r))
  {
    ghost var was := tiers[..];
    for i := 0 to tiers.Length
      invariant forall k :: 0 <= k < i ==> tiers[k] == Attacher(r)(was[k])
      invariant forall k :: i <= k < tiers.Length ==> tiers[k] == was[k]
    {
      var t := tiers[i];
      if t.inputPrice > 0.0 && (t.sellingInput.None? || t.sellingInput.value <= 0.0) {
        t := t.(sellingInput := Some(Scaled(t.inputPrice, r.input)));
      }
      if t.outputPrice > 0.0 && (t.sellingOutput.None? || t.sellingOutput.value <= 0.0) {
        t := t.(sellingOutput := Some(Scaled(t.outputPrice, r.output)));
      }
      if t.thinkingPrice > 0.0 && (t.sellingThinking.None? || t.sellingThinking.value <= 0.0) {
        t := t.(sellingThinking := Some(Scaled(t.thinkingPrice, r.thinking)));
      }
      assert t == Attached(was[i], r);
      tiers[i] := t;
    }
    MapIs(was, Attacher(r), tiers[..]);
  }

  method BuildPlatformSellingTiers(costTiers: array<Tier>, r: Ratios) returns (tiers: array<Tier>)
    ensures fresh(tiers)
    ensures tiers[..] == SellingTiers(costTiers[..], r)
  {
    tiers := new Tier[costTiers.Length](i requires 0 <= i < costTiers.Length reads costTiers => costTiers[i]);
    for i := 0 to tiers.Length
      invariant forall k :: 0 <= k < i ==> tiers[k] == Seller(r)(costTiers[k])
      invariant costTiers[..] == old(costTiers[..])
    {
      tiers[i] := Selling(costTiers[i], r);
    }
    MapIs(costTiers[..], Seller(r), tiers[..]);
    SortTiers(tiers);
  }

  method CompletedCostTiers(row: Row, data: TiersData) returns (costTiers: array<Tier>, r: Ratios)
    ensures fresh(costTiers)
    ensures costTiers[..] == StoredCost(row, data).tiers
    ensures r == PlatformRatios(row.item, row.pricing, CostTiers(row.item, data.tiers))
  {
    costTiers := new Tier[|data.tiers|](i requires 0 <= i < |data.tiers| => data.tiers[i]);
    assert costTiers[..] == data.tiers;
    NormalizeAndFillCostTiers(row.item, costTiers);
    r := PlatformTierRatios(row.item, row.pricing, costTiers);
    AttachSellingOverrides(costTiers, r);
    NormalizeTiers(costTiers);
  }

  class PriceTables {
    var rows: seq<Row>

    constructor (rows: seq<Row>)
      ensures this.rows == rows
    {
      this.rows := rows;
    }

    method SyncItem(n: nat)
      requires n < |rows|
      modifies this
      ensures rows == old(rows)[n := Synced(old(rows)[n])]
    {
      var row := rows[n];
      var decoded := DecodedSync(row.priceTiers);
      if decoded.None? {
        assert rows == rows[n := row];
        return;
      }
      var data := decoded.value;
      DecodedSyncNotEmpty(row.priceTiers);
      StoredLengths(row, data);
      var costTiers, r := CompletedCostTiers(row, data);
      var currency := if data.currency == "" then "CNY" else data.currency;
      var cost := TiersData(costTiers[..], currency, data.unitLabel, data.sourceURL);
      rows := rows[n := row.(priceTiers := Encoded(cost))];
      var sellTiers := BuildPlatformSellingTiers(costTiers, r);
      NormalizeTiers(sellTiers);
      assert sellTiers[..] == StoredSelling(row, data);
      rows := rows[n := rows[n].(pricing := Some(SyncedPricing(row.item, row.pricing, cost, sellTiers[..])))];
    }

    method RunPriceTierSellingSync()
      modifies this
      ensures |rows| == |old(rows)|
      ensures forall n :: 0 <= n < |rows| ==> rows[n] == Synced(old(rows)[n])
    {
      for n := 0 to |rows|
        invariant |rows| == |old(rows)|
        invariant forall k :: 0 <= k < n ==> rows[k] == Synced(old(rows)[k])
        invariant forall k :: n <= k < |rows| ==> rows[k] == old(rows)[k]
      {
        SyncItem(n);
      }
    }
  }
}
