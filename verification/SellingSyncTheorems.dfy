/** What repeating, interrupting and reading the selling-tier sync gives. */
module SellingSyncTheorems {
  import opened Common
  import opened PriceTier
  import opened LegacyTiers
  import opened PriceRows
  import opened SellingSync

  // ---------- Ratios ----------

  predicate Positive(r: Ratios) {
    r.input > 0.0 && r.output > 0.0 && r.thinking > 0.0
  }

  lemma {:induction false} TierRatioNotNegative(tiers: seq<Tier>, kind: Kind)
    ensures TierRatio(tiers, kind) >= 0.0
  {
    if tiers != [] && !GivesRatio(tiers[0], kind) {
      TierRatioNotNegative(tiers[1..], kind);
    }
  }

  lemma RatiosArePositive(item: Item, pricing: Option<Pricing>, tiers: seq<Tier>)
    ensures Positive(PlatformRatios(item, pricing, tiers))
  {
    TierRatioNotNegative(tiers, Input);
    TierRatioNotNegative(tiers, Output);
    TierRatioNotNegative(tiers, Thinking);
  }

  lemma ScaledNotNegative(price: real, ratio: real)
    requires price > 0.0 && ratio > 0.0
    ensures Scaled(price, ratio) >= 0.0
  {
    Round6Sign(price * ratio);
  }

  // ---------- One tier, twice ----------

  /** A computed override that rounds to zero is computed again, and must come out the same. */
  predicate SteadyPrice(override: Option<real>, base: real, r1: real, r2: real) {
    Computed(override, base) && Scaled(base, r1) == 0.0 ==> Scaled(base, r2) == 0.0
  }

  /** A cache price of a tier without an input price, or that sells for nothing, follows the ratio itself. */
  predicate SteadyCache(cache: real, t: Tier, r1: real, r2: real) {
    var sellInput := ValueOrRatio(Overridden(t.sellingInput, t.inputPrice, r1), t.inputPrice, r1);
    cache > 0.0 && !(t.inputPrice > 0.0 && sellInput > 0.0) ==> Scaled(cache, r1) == Scaled(cache, r2)
  }

  predicate Steady(t: Tier, r1: Ratios, r2: Ratios) {
    && SteadyPrice(t.sellingInput, t.inputPrice, r1.input, r2.input)
    && SteadyPrice(t.sellingOutput, t.outputPrice, r1.output, r2.output)
    && SteadyPrice(t.sellingThinking, t.thinkingPrice, r1.thinking, r2.thinking)
    && SteadyCache(t.cacheInputPrice, t, r1.input, r2.input)
    && SteadyCache(t.cacheWritePrice, t, r1.input, r2.input)
  }

  predicate AllSteady(tiers: seq<Tier>, r1: Ratios, r2: Ratios) {
    forall i :: 0 <= i < |tiers| ==> Steady(tiers[i], r1, r2)
  }

  lemma OverriddenTwice(override: Option<real>, base: real, r1: real, r2: real)
    requires r1 > 0.0 && r2 > 0.0
    ensures
      var once := Overridden(override, base, r1);
      && (Overridden(once, base, r2) == once <==> SteadyPrice(override, base, r1, r2))
      && (SteadyPrice(override, base, r1, r2) ==> ValueOrRatio(once, base, r2) == ValueOrRatio(once, base, r1))
  {
    if base > 0.0 {
      ScaledNotNegative(base, r1);
    }
  }

  lemma SteadyIff(t: Tier, r1: Ratios, r2: Ratios)
    requires Positive(r1) && Positive(r2)
    ensures
      var once := Attached(t, r1);
      Attached(once, r2) == once && Selling(once, r2) == Selling(once, r1) <==> Steady(t, r1, r2)
  {
    OverriddenTwice(t.sellingInput, t.inputPrice, r1.input, r2.input);
    OverriddenTwice(t.sellingOutput, t.outputPrice, r1.output, r2.output);
    OverriddenTwice(t.sellingThinking, t.thinkingPrice, r1.thinking, r2.thinking);
  }

  lemma FilledTwice(item: Item, t: Tier, r: Ratios)
    ensures
      var once := Attached(Filled(item, t), r);
      Normalized(once) == once && Filled(item, once) == once
  {
    NormalizedTwice(t);
  }

  lemma SellingNormal(t: Tier, r: Ratios)
    requires Normalized(t) == t
    ensures Normalized(Selling(t, r)) == Selling(t, r)
  {
    NormalizedTwice(t);
  }

  // ---------- All tiers of a row ----------

  function FilledTiers(row: Row, data: TiersData): seq<Tier> {
    CostTiers(row.item, data.tiers)
  }

  function RatiosOf(row: Row, data: TiersData): Ratios {
    PlatformRatios(row.item, row.pricing, FilledTiers(row, data))
  }

  lemma KeysKept(item: Item, r: Ratios)
    ensures forall t :: SameKey(Filler(item)(t), t)
    ensures forall t :: SameKey(Attacher(r)(t), t)
    ensures forall t :: SameKey(Seller(r)(t), t)
  {
  }

  lemma FilledForm(row: Row, data: TiersData)
    ensures FilledTiers(row, data) == Map(Sorted(data.tiers), Filler(row.item))
    ensures |FilledTiers(row, data)| == |data.tiers| && InOrder(FilledTiers(row, data))
  {
    KeysKept(row.item, Ratios(1.0, 1.0, 1.0));
    SortedMap(data.tiers, Filler(row.item));
    SortedInOrder(Map(data.tiers, Filler(row.item)));
    MapLength(data.tiers, Filler(row.item));
    SortedPermutes(Map(data.tiers, Filler(row.item)));
  }

  lemma FilledAt(row: Row, data: TiersData, i: nat)
    requires i < |data.tiers|
    ensures |FilledTiers(row, data)| == |data.tiers| == |Sorted(data.tiers)|
    ensures FilledTiers(row, data)[i] == Filled(row.item, Sorted(data.tiers)[i])
  {
    FilledForm(row, data);
    SortedPermutes(data.tiers);
    MapAt(Sorted(data.tiers), Filler(row.item), i);
  }

  lemma AttachedTidy(row: Row, data: TiersData, r: Ratios)
    ensures Tidy(Map(FilledTiers(row, data), Attacher(r)))
  {
    var filled := FilledTiers(row, data);
    FilledForm(row, data);
    KeysKept(row.item, r);
    forall i: nat | i < |filled| ensures Normalized(Attacher(r)(filled[i])) == Attacher(r)(filled[i]) {
      FilledAt(row, data, i);
      FilledTwice(row.item, Sorted(data.tiers)[i], r);
    }
    MapTidy(filled, Attacher(r));
  }

  lemma SellingTidy(tiers: seq<Tier>, r: Ratios)
    requires Tidy(tiers)
    ensures Tidy(Map(tiers, Seller(r)))
  {
    KeysKept(Item(0.0, 0.0, 0.0, 0.0, 0.0, false, "", 0.0, 0.0), r);
    forall i: nat | i < |tiers| ensures Normalized(Seller(r)(tiers[i])) == Seller(r)(tiers[i]) {
      SellingNormal(tiers[i], r);
    }
    MapTidy(tiers, Seller(r));
  }

  /** Sorting and normalising before writing changes nothing: what is written is tier by tier. */
  lemma StoredForm(row: Row, data: TiersData)
    ensures StoredCost(row, data).tiers == Map(FilledTiers(row, data), Attacher(RatiosOf(row, data)))
    ensures StoredSelling(row, data) == Map(StoredCost(row, data).tiers, Seller(RatiosOf(row, data)))
    ensures Tidy(StoredCost(row, data).tiers)
  {
    var r := RatiosOf(row, data);
    var attached := Map(FilledTiers(row, data), Attacher(r));
    AttachedTidy(row, data, r);
    MarshalledKeeps(attached);
    SellingTidy(attached, r);
    MarshalledKeeps(Map(attached, Seller(r)));
  }

  lemma StoredAt(row: Row, data: TiersData, i: nat)
    requires i < |data.tiers|
    ensures
      var r := RatiosOf(row, data);
      && |FilledTiers(row, data)| == |StoredCost(row, data).tiers| == |StoredSelling(row, data)| == |data.tiers|
      && StoredCost(row, data).tiers[i] == Attached(FilledTiers(row, data)[i], r)
      && StoredSelling(row, data)[i] == Selling(StoredCost(row, data).tiers[i], r)
  {
    StoredForm(row, data);
    FilledForm(row, data);
    MapAt(FilledTiers(row, data), Attacher(RatiosOf(row, data)), i);
    MapAt(StoredCost(row, data).tiers, Seller(RatiosOf(row, data)), i);
  }

  // ---------- Syncing what has been synced ----------

  /** Filling in tiers that were filled in before changes nothing. */
  lemma RefilledKeeps(row: Row, data: TiersData, later: Row)
    requires later.item == row.item
    ensures FilledTiers(later, StoredCost(row, data)) == StoredCost(row, data).tiers
  {
    var cost := StoredCost(row, data).tiers;
    StoredForm(row, data);
    forall i: nat | i < |cost| ensures Filler(row.item)(cost[i]) == cost[i] {
      StoredLengths(row, data);
      StoredAt(row, data, i);
      FilledAt(row, data, i);
      FilledTwice(row.item, Sorted(data.tiers)[i], RatiosOf(row, data));
    }
    MapKeeps(cost, Filler(row.item));
    SortedKeeps(cost);
  }

  lemma ResyncedAt(row: Row, data: TiersData, later: Row, i: nat)
    requires later.item == row.item && i < |data.tiers|
    ensures
      var cost := StoredCost(row, data);
      && |cost.tiers| == |StoredCost(later, cost).tiers| == |data.tiers|
      && |StoredSelling(later, cost)| == |StoredSelling(row, data)| == |data.tiers|
      && |FilledTiers(row, data)| == |data.tiers|
      && (&& StoredCost(later, cost).tiers[i] == cost.tiers[i]
          && StoredSelling(later, cost)[i] == StoredSelling(row, data)[i]
          <==> Steady(FilledTiers(row, data)[i], RatiosOf(row, data), RatiosOf(later, cost)))
  {
    var cost := StoredCost(row, data);
    StoredLengths(row, data);
    StoredLengths(later, cost);
    StoredAt(row, data, i);
    StoredAt(later, cost, i);
    RefilledKeeps(row, data, later);
    RatiosArePositive(row.item, row.pricing, FilledTiers(row, data));
    RatiosArePositive(later.item, later.pricing, FilledTiers(later, cost));
    SteadyIff(FilledTiers(row, data)[i], RatiosOf(row, data), RatiosOf(later, cost));
  }

  lemma TierByTier(a: seq<Tier>, b: seq<Tier>, c: seq<Tier>, d: seq<Tier>, filled: seq<Tier>, r1: Ratios, r2: Ratios)
    requires |a| == |b| == |c| == |d| == |filled|
    requires forall i: nat :: i < |filled| ==> (a[i] == b[i] && c[i] == d[i] <==> Steady(filled[i], r1, r2))
    ensures a == b && c == d <==> AllSteady(filled, r1, r2)
  {
    if AllSteady(filled, r1, r2) {
      assert a == b && c == d;
    }
  }

  /** The tiers written from tiers written before, whatever happened to the pricing row meanwhile. */
  lemma ResyncIff(row: Row, data: TiersData, later: Row)
    requires later.item == row.item
    ensures
      var cost := StoredCost(row, data);
      StoredCost(later, cost) == cost && StoredSelling(later, cost) == StoredSelling(row, data)
      <==> AllSteady(FilledTiers(row, data), RatiosOf(row, data), RatiosOf(later, cost))
  {
    var cost := StoredCost(row, data);
    var again, sold, resold := StoredCost(later, cost), StoredSelling(row, data), StoredSelling(later, cost);
    var filled, r1, r2 := FilledTiers(row, data), RatiosOf(row, data), RatiosOf(later, cost);
    StoredLengths(row, data);
    StoredLengths(later, cost);
    FilledForm(row, data);
    forall i: nat | i < |filled|
      ensures again.tiers[i] == cost.tiers[i] && resold[i] == sold[i] <==> Steady(filled[i], r1, r2)
    {
      ResyncedAt(row, data, later, i);
    }
    TierByTier(again.tiers, cost.tiers, resold, sold, filled, r1, r2);
  }

  lemma PricingTwice(item: Item, pricing: Option<Pricing>, cost: TiersData, selling: seq<Tier>)
    requires selling != []
    ensures
      var once := SyncedPricing(item, pricing, cost, selling);
      SyncedPricing(item, Some(once), cost, selling) == once
  {
    var once := SyncedPricing(item, pricing, cost, selling);
    assert !Blank("CREDIT") by {
      assert "CREDIT"[0] !in SPACES;
    }
    assert FirstNonBlank(once.currency, item.currency, "CREDIT") == once.currency;
  }

  lemma SyncedForm(row: Row, data: TiersData)
    requires DecodedSync(row.priceTiers) == Some(data)
    ensures data.tiers != [] && StoredSelling(row, data) != []
    ensures DecodedSync(Synced(row).priceTiers) == DecodedCurrent(Synced(row).priceTiers) == Some(StoredCost(row, data))
    ensures Synced(row).pricing
      == Some(SyncedPricing(row.item, row.pricing, StoredCost(row, data), StoredSelling(row, data)))
    ensures Synced(row).item == row.item
  {
    DecodedSyncNotEmpty(row.priceTiers);
    StoredLengths(row, data);
    EncodedReadsBack(StoredCost(row, data));
  }

  lemma PricingTiersInjective(item: Item, p: Option<Pricing>, q: Option<Pricing>, cost: TiersData,
                              a: seq<Tier>, b: seq<Tier>)
    requires a != [] && b != []
    requires SyncedPricing(item, p, cost, a).tiers == SyncedPricing(item, q, cost, b).tiers
    ensures a == b
  {
    var currency := FirstNonBlank(cost.currency, item.currency, "CREDIT");
    EncodedInjective(TiersData(a, currency, cost.unitLabel, cost.sourceURL),
                     TiersData(b, currency, cost.unitLabel, cost.sourceURL));
  }

  /**
    When a row that still has its synced tiers is synced again, it ends up as a first sync would
    have left it exactly when no tier still depends on the ratios, or they give the same prices.
  */
  lemma ResyncRowIff(row: Row, data: TiersData, later: Row)
    requires DecodedSync(row.priceTiers) == Some(data)
    requires later == Synced(row) || later == row.(priceTiers := Synced(row).priceTiers)
    ensures Synced(later) == Synced(row)
      <==> AllSteady(FilledTiers(row, data), RatiosOf(row, data), RatiosOf(later, StoredCost(row, data)))
  {
    var cost := StoredCost(row, data);
    SyncedForm(row, data);
    SyncedForm(later, cost);
    ResyncIff(row, data, later);
    if Synced(later) == Synced(row) {
      EncodedReadsBack(cost);
      assert StoredCost(later, cost) == cost;
      PricingTiersInjective(row.item, later.pricing, row.pricing, cost,
                            StoredSelling(later, cost), StoredSelling(row, data));
    } else if StoredCost(later, cost) == cost && StoredSelling(later, cost) == StoredSelling(row, data) {
      PricingTwice(row.item, row.pricing, cost, StoredSelling(row, data));
    }
  }

  // ---------- The ratios of the next run, read off the row ----------

  function RatioFor(r: Ratios, kind: Kind): real {
    match kind
    case Input => r.input
    case Output => r.output
    case Thinking => r.thinking
  }

  /** The override a tier has once this run has computed the missing ones. */
  function OverrideAfter(t: Tier, kind: Kind, r: Ratios): Option<real> {
    Overridden(Override(t, kind), Base(t, kind), RatioFor(r, kind))
  }

  /** The first tier with a price and a positive override after this run gives its ratio. */
  function TierRatioAfter(filled: seq<Tier>, kind: Kind, r: Ratios): real {
    if filled == [] then 0.0
    else
      var override, base := OverrideAfter(filled[0], kind, r), Base(filled[0], kind);
      if override.Some? && base > 0.0 && override.value > 0.0 then override.value / base
      else TierRatioAfter(filled[1..], kind, r)
  }

  /** What the first tier sells at. */
  function FirstSold(filled: seq<Tier>, kind: Kind, r: Ratios): real
    requires filled != []
  {
    ValueOrRatio(OverrideAfter(filled[0], kind, r), Base(filled[0], kind), RatioFor(r, kind))
  }

  /** The item's own price, or the first tier's when it has none. */
  function PriceAfter(own: real, filled: seq<Tier>, kind: Kind, r: Ratios): real
    requires filled != []
  {
    if own <= 0.0 && (kind != Thinking || FirstSold(filled, kind, r) > 0.0) then FirstSold(filled, kind, r) else own
  }

  function OwnPrice(row: Row, kind: Kind): real {
    var p := if row.pricing.Some? then row.pricing.value else NO_PRICING;
    match kind
    case Input => p.inputPrice
    case Output => p.outputPrice
    case Thinking => p.thinkingPrice
  }

  function Cost(item: Item, kind: Kind): real {
    match kind
    case Input => item.inputCost
    case Output => item.outputCost
    case Thinking => item.thinkingCost
  }

  /** The price, given or set, over the item's cost; else the first tier ratio; else 1. */
  function NextRatio(row: Row, data: TiersData, kind: Kind): real
    requires FilledTiers(row, data) != []
  {
    var filled, r := FilledTiers(row, data), RatiosOf(row, data);
    FirstPositiveRatio(PriceAfter(OwnPrice(row, kind), filled, kind, r), Cost(row.item, kind),
                       TierRatioAfter(filled, kind, r), 1.0)
  }

  function NextRatios(row: Row, data: TiersData): Ratios
    requires FilledTiers(row, data) != []
  {
    Ratios(NextRatio(row, data, Input), NextRatio(row, data, Output), NextRatio(row, data, Thinking))
  }

  /** The same after a run that did not get to set the prices. */
  function RetryRatio(row: Row, data: TiersData, kind: Kind): real {
    FirstPositiveRatio(OwnPrice(row, kind), Cost(row.item, kind),
                       TierRatioAfter(FilledTiers(row, data), kind, RatiosOf(row, data)), 1.0)
  }

  function RetryRatios(row: Row, data: TiersData): Ratios {
    Ratios(RetryRatio(row, data, Input), RetryRatio(row, data, Output), RetryRatio(row, data, Thinking))
  }

  lemma {:induction false} TierRatioAfterIs(filled: seq<Tier>, kind: Kind, r: Ratios)
    ensures TierRatio(Map(filled, Attacher(r)), kind) == TierRatioAfter(filled, kind, r)
  {
    if filled != [] {
      TierRatioAfterIs(filled[1..], kind, r);
      assert Map(filled, Attacher(r))[1..] == Map(filled[1..], Attacher(r));
      assert Map(filled, Attacher(r))[0] == Attached(filled[0], r);
    }
  }

  lemma StoredTierRatio(row: Row, data: TiersData, later: Row, kind: Kind)
    requires later.item == row.item
    ensures TierRatio(FilledTiers(later, StoredCost(row, data)), kind)
         == TierRatioAfter(FilledTiers(row, data), kind, RatiosOf(row, data))
  {
    RefilledKeeps(row, data, later);
    StoredForm(row, data);
    TierRatioAfterIs(FilledTiers(row, data), kind, RatiosOf(row, data));
  }

  lemma FirstSoldIs(row: Row, data: TiersData, kind: Kind)
    requires data.tiers != []
    ensures FilledTiers(row, data) != [] && StoredSelling(row, data) != []
    ensures Base(StoredSelling(row, data)[0], kind) == FirstSold(FilledTiers(row, data), kind, RatiosOf(row, data))
  {
    StoredAt(row, data, 0);
  }

  lemma PriceAfterIs(row: Row, data: TiersData, kind: Kind)
    requires DecodedSync(row.priceTiers) == Some(data)
    ensures FilledTiers(row, data) != []
    ensures OwnPrice(Synced(row), kind)
      == PriceAfter(OwnPrice(row, kind), FilledTiers(row, data), kind, RatiosOf(row, data))
  {
    SyncedForm(row, data);
    FirstSoldIs(row, data, kind);
  }

  lemma RatiosByKind(row: Row, data: TiersData)
    ensures RatiosOf(row, data) == Ratios(
      FirstPositiveRatio(OwnPrice(row, Input), row.item.inputCost, TierRatio(FilledTiers(row, data), Input), 1.0),
      FirstPositiveRatio(OwnPrice(row, Output), row.item.outputCost, TierRatio(FilledTiers(row, data), Output), 1.0),
      FirstPositiveRatio(OwnPrice(row, Thinking), row.item.thinkingCost,
                         TierRatio(FilledTiers(row, data), Thinking), 1.0))
  {
  }

  lemma NextRatiosAre(row: Row, data: TiersData)
    requires DecodedSync(row.priceTiers) == Some(data)
    ensures FilledTiers(row, data) != []
    ensures RatiosOf(Synced(row), StoredCost(row, data)) == NextRatios(row, data)
  {
    SyncedForm(row, data);
    RatiosByKind(Synced(row), StoredCost(row, data));
    StoredTierRatio(row, data, Synced(row), Input);
    StoredTierRatio(row, data, Synced(row), Output);
    StoredTierRatio(row, data, Synced(row), Thinking);
    PriceAfterIs(row, data, Input);
    PriceAfterIs(row, data, Output);
    PriceAfterIs(row, data, Thinking);
  }

  lemma RetryRatiosAre(row: Row, data: TiersData, half: Row)
    requires half.item == row.item && half.pricing == row.pricing
    ensures RatiosOf(half, StoredCost(row, data)) == RetryRatios(row, data)
  {
    RatiosByKind(half, StoredCost(row, data));
    StoredTierRatio(row, data, half, Input);
    StoredTierRatio(row, data, half, Output);
    StoredTierRatio(row, data, half, Thinking);
  }

  /** Running the migration twice.  The second run is taken to find the prices the first computed: the
      database keeps four decimals of those it has filled in, which is not modelled. */
  lemma SyncTwiceIff(row: Row, data: TiersData)
    requires DecodedSync(row.priceTiers) == Some(data)
    ensures FilledTiers(row, data) != []
    ensures Synced(Synced(row)) == Synced(row)
      <==> AllSteady(FilledTiers(row, data), RatiosOf(row, data), NextRatios(row, data))
  {
    NextRatiosAre(row, data);
    ResyncRowIff(row, data, Synced(row));
  }

  /** Running it again after a run that wrote the cost tiers but not the pricing row. */
  lemma InterruptedSyncIsCompletedIff(row: Row, data: TiersData)
    requires DecodedSync(row.priceTiers) == Some(data)
    ensures Synced(row.(priceTiers := Synced(row).priceTiers)) == Synced(row)
      <==> AllSteady(FilledTiers(row, data), RatiosOf(row, data), RetryRatios(row, data))
  {
    var half := row.(priceTiers := Synced(row).priceTiers);
    RetryRatiosAre(row, data, half);
    ResyncRowIff(row, data, half);
  }

  // ---------- When that is guaranteed ----------

  /** A tier with an input price, none of whose overrides rounds to zero. */
  predicate Priced(t: Tier, r: Ratios) {
    && t.inputPrice > 0.0
    && (Computed(t.sellingInput, t.inputPrice) ==> Scaled(t.inputPrice, r.input) > 0.0)
    && (Computed(t.sellingOutput, t.outputPrice) ==> Scaled(t.outputPrice, r.output) > 0.0)
    && (Computed(t.sellingThinking, t.thinkingPrice) ==> Scaled(t.thinkingPrice, r.thinking) > 0.0)
    && (t.sellingInput.Some? && t.sellingInput.value > 0.0 ==> Round6(t.sellingInput.value) > 0.0)
  }

  lemma PricedSells(override: Option<real>, base: real, ratio: real)
    requires base > 0.0
    requires Computed(override, base) ==> Scaled(base, ratio) > 0.0
    requires override.Some? && override.value > 0.0 ==> Round6(override.value) > 0.0
    ensures ValueOrRatio(Overridden(override, base, ratio), base, ratio) > 0.0
  {
    if Computed(override, base) {
      Round6Twice(base * ratio);
    }
  }

  lemma PricedIsSteady(t: Tier, r1: Ratios, r2: Ratios)
    requires Priced(t, r1)
    ensures Steady(t, r1, r2)
  {
    PricedSells(t.sellingInput, t.inputPrice, r1.input);
  }

  predicate AllPriced(row: Row, data: TiersData) {
    forall i :: 0 <= i < |FilledTiers(row, data)| ==> Priced(FilledTiers(row, data)[i], RatiosOf(row, data))
  }

  lemma AllPricedIsSteady(row: Row, data: TiersData, r: Ratios)
    requires AllPriced(row, data)
    ensures AllSteady(FilledTiers(row, data), RatiosOf(row, data), r)
  {
    forall i | 0 <= i < |FilledTiers(row, data)| ensures Steady(FilledTiers(row, data)[i], RatiosOf(row, data), r) {
      PricedIsSteady(FilledTiers(row, data)[i], RatiosOf(row, data), r);
    }
  }

  /** Then once is enough, and an interrupted run is completed by the next. */
  lemma PricedTiersSyncOnce(row: Row, data: TiersData)
    requires DecodedSync(row.priceTiers) == Some(data) && AllPriced(row, data)
    ensures Synced(Synced(row)) == Synced(row)
    ensures Synced(row.(priceTiers := Synced(row).priceTiers)) == Synced(row)
  {
    SyncTwiceIff(row, data);
    InterruptedSyncIsCompletedIff(row, data);
    AllPricedIsSteady(row, data, NextRatios(row, data));
    AllPricedIsSteady(row, data, RetryRatios(row, data));
  }

  /** Every ratio comes from the item's own selling and cost prices. */
  predicate OwnRatios(row: Row) {
    && row.pricing.Some?
    && row.pricing.value.inputPrice > 0.0 && row.item.inputCost > 0.0
    && row.pricing.value.outputPrice > 0.0 && row.item.outputCost > 0.0
    && row.pricing.value.thinkingPrice > 0.0 && row.item.thinkingCost > 0.0
  }

  lemma OwnRatiosStay(row: Row, data: TiersData)
    requires OwnRatios(row) && FilledTiers(row, data) != []
    ensures NextRatios(row, data) == RatiosOf(row, data)
  {
    RatiosByKind(row, data);
  }

  lemma SteadyRatios(tiers: seq<Tier>, r: Ratios)
    ensures AllSteady(tiers, r, r)
  {
  }

  lemma OwnRatiosSyncOnce(row: Row, data: TiersData)
    requires DecodedSync(row.priceTiers) == Some(data) && OwnRatios(row)
    ensures Synced(Synced(row)) == Synced(row)
  {
    SyncTwiceIff(row, data);
    OwnRatiosStay(row, data);
    SteadyRatios(FilledTiers(row, data), RatiosOf(row, data));
  }

  function PlainTier(min: int, inputPrice: real, cacheInputPrice: real): Tier {
    Tier("tier", "", map[], Range(min, true, None, false), Range(0, true, None, false),
         inputPrice, 0.0, cacheInputPrice, 0.0, 0.0, None, None, None)
  }

  function PlainItem(inputCost: real): Item {
    Item(inputCost, 0.0, 0.0, 0.0, 0.0, false, "CREDIT", 0.0, 0.0)
  }

  /** A row not priced yet: two tiers without overrides, the first at an input price of one. */
  predicate Unpriced(row: Row, data: TiersData, inputCost: real, second: Tier) {
    && row.item == PlainItem(inputCost)
    && row.pricing == None
    && DecodedSync(row.priceTiers) == Some(data)
    && FilledTiers(row, data) == [PlainTier(0, 1.0, 0.0), second]
    && second.sellingInput == None
  }

  lemma SomeUnpricedRow(inputCost: real, inputPrice: real, cacheInputPrice: real) returns (row: Row, data: TiersData)
    ensures Unpriced(row, data, inputCost, PlainTier(10, inputPrice, cacheInputPrice))
  {
    var second := PlainTier(10, inputPrice, cacheInputPrice);
    data := TiersData([PlainTier(0, 1.0, 0.0), second], "CNY", "", "");
    row := Row(PlainItem(inputCost), Encoded(data), None);
    EncodedReadsBack(data);
    SortedKeeps(data.tiers);
    assert "tier"[0] !in SPACES;
    FilledAt(row, data, 0);
    FilledAt(row, data, 1);
    assert FilledTiers(row, data) == data.tiers;
  }

  // The first run sells at cost.
  lemma FirstRatioIsOne(row: Row, data: TiersData, inputCost: real, second: Tier)
    requires Unpriced(row, data, inputCost, second)
    ensures RatiosOf(row, data).input == 1.0
  {
    var tiers := FilledTiers(row, data);
    assert tiers[1..] == [second];
    assert TierRatio([second], Input) == 0.0;
    assert TierRatio(tiers, Input) == 0.0;
  }

  // The second takes the price set by the first over the item's own cost.
  lemma SecondRatioIsOverCost(row: Row, data: TiersData, inputCost: real, second: Tier)
    requires Unpriced(row, data, inputCost, second) && inputCost > 0.0
    ensures RatiosOf(Synced(row), StoredCost(row, data)).input == 1.0 / inputCost
  {
    SyncedForm(row, data);
    FirstRatioIsOne(row, data, inputCost, second);
    FilledForm(row, data);
    StoredAt(row, data, 0);
    assert Round6(1.0) == 1.0 by {
      assert 1.0 == Micros(1000000);
      Round6Keeps(1.0);
    }
    assert StoredSelling(row, data)[0].inputPrice == 1.0;
  }

  lemma UnsteadyTierMoves(row: Row, data: TiersData, i: nat)
    requires DecodedSync(row.priceTiers) == Some(data) && i < |FilledTiers(row, data)|
    requires !Steady(FilledTiers(row, data)[i], RatiosOf(row, data), NextRatios(row, data))
    ensures Synced(Synced(row)) != Synced(row)
  {
    SyncTwiceIff(row, data);
  }

  lemma TinyPriceIsUnsteady(r1: Ratios, r2: Ratios)
    requires r1.input == 1.0 && r2.input == 10.0
    ensures !Steady(PlainTier(10, 0.0000004, 0.0), r1, r2)
  {
    assert Scaled(0.0000004, 1.0) == 0.0;
    assert Scaled(0.0000004, 10.0) == Micros(4);
  }

  lemma FreeInputIsUnsteady(r1: Ratios, r2: Ratios)
    requires r1.input == 1.0 && r2.input == 0.5
    ensures !Steady(PlainTier(10, 0.0, 2.0), r1, r2)
  {
    assert Scaled(2.0, 1.0) == Micros(2000000);
    assert Scaled(2.0, 0.5) == Micros(1000000);
  }

  /** An override that rounds to zero is computed afresh by the next run, from another ratio. */
  lemma ZeroOverrideIsRecomputed() returns (row: Row)
    ensures DecodedSync(row.priceTiers).Some?
    ensures Synced(Synced(row)) != Synced(row)
  {
    var data;
    row, data := SomeUnpricedRow(0.1, 0.0000004, 0.0);
    var tier := PlainTier(10, 0.0000004, 0.0);
    FirstRatioIsOne(row, data, 0.1, tier);
    SecondRatioIsOverCost(row, data, 0.1, tier);
    TinyPriceIsUnsteady(RatiosOf(row, data), RatiosOf(Synced(row), StoredCost(row, data)));
    UnsteadyTierMoves(row, data, 1);
  }

  /** The cache price of a tier with free input follows the ratio, and so moves on the next run. */
  lemma FreeInputCacheMoves() returns (row: Row)
    ensures DecodedSync(row.priceTiers).Some?
    ensures Synced(Synced(row)) != Synced(row)
  {
    var data;
    row, data := SomeUnpricedRow(2.0, 0.0, 2.0);
    var tier := PlainTier(10, 0.0, 2.0);
    FirstRatioIsOne(row, data, 2.0, tier);
    SecondRatioIsOverCost(row, data, 2.0, tier);
    FreeInputIsUnsteady(RatiosOf(row, data), RatiosOf(Synced(row), StoredCost(row, data)));
    UnsteadyTierMoves(row, data, 1);
  }

  /** A row whose second tier has an override of a tenth of a millionth and a cache price. */
  predicate TinyOverride(row: Row, data: TiersData) {
    && row.item == PlainItem(1.0)
    && row.pricing == None
    && DecodedSync(row.priceTiers) == Some(data)
    && FilledTiers(row, data) == [PlainTier(0, 100.0, 0.0), PlainTier(10, 1.0, 2.0).(sellingInput := Some(0.0000001))]
  }

  lemma SomeTinyOverride() returns (row: Row, data: TiersData)
    ensures TinyOverride(row, data)
  {
    var second := PlainTier(10, 1.0, 2.0).(sellingInput := Some(0.0000001));
    data := TiersData([PlainTier(0, 100.0, 0.0), second], "CNY", "", "");
    row := Row(PlainItem(1.0), Encoded(data), None);
    EncodedReadsBack(data);
    SortedKeeps(data.tiers);
    assert "tier"[0] !in SPACES;
    FilledAt(row, data, 0);
    FilledAt(row, data, 1);
    assert FilledTiers(row, data) == data.tiers;
  }

  lemma TinyFirstRatio(row: Row, data: TiersData)
    requires TinyOverride(row, data)
    ensures RatiosOf(row, data).input == 0.0000001
  {
    var tiers := FilledTiers(row, data);
    assert tiers[1..] == [tiers[1]];
    assert TierRatio(tiers, Input) == TierRatio([tiers[1]], Input) == 0.0000001;
  }

  lemma TinySecondRatio(row: Row, data: TiersData)
    requires TinyOverride(row, data)
    ensures RatiosOf(Synced(row), StoredCost(row, data)).input == 0.00001
  {
    SyncedForm(row, data);
    TinyFirstRatio(row, data);
    FilledForm(row, data);
    StoredAt(row, data, 0);
    assert Scaled(100.0, 0.0000001) == 0.00001 && Round6(0.00001) == 0.00001 by {
      assert 0.00001 == Micros(10);
      Round6Keeps(0.00001);
    }
    assert StoredSelling(row, data)[0].inputPrice == 0.00001;
  }

  lemma TinyOverrideIsUnsteady(r1: Ratios, r2: Ratios)
    requires r1.input == 0.0000001 && r2.input == 0.00001
    ensures !Steady(PlainTier(10, 1.0, 2.0).(sellingInput := Some(0.0000001)), r1, r2)
  {
    assert Round6(0.0000001) == 0.0;
    assert Scaled(2.0, 0.0000001) == 0.0;
    assert Scaled(2.0, 0.00001) == Micros(20);
  }

  /** An override that was there and rounds to zero is enough, although every tier has an input price. */
  lemma TinyOverrideMoves() returns (row: Row)
    ensures DecodedSync(row.priceTiers).Some?
    ensures Synced(Synced(row)) != Synced(row)
  {
    var data;
    row, data := SomeTinyOverride();
    TinyFirstRatio(row, data);
    TinySecondRatio(row, data);
    TinyOverrideIsUnsteady(RatiosOf(row, data), RatiosOf(Synced(row), StoredCost(row, data)));
    UnsteadyTierMoves(row, data, 1);
  }

  // ---------- What the selling tiers select ----------

  lemma SellingKeepsRanges(row: Row, data: TiersData)
    ensures SameRanges(StoredSelling(row, data), StoredCost(row, data).tiers)
    ensures SameRanges(StoredCost(row, data).tiers, FilledTiers(row, data))
  {
    StoredLengths(row, data);
    FilledForm(row, data);
    forall i: nat | i < |data.tiers|
      ensures StoredSelling(row, data)[i].input == StoredCost(row, data).tiers[i].input
        == FilledTiers(row, data)[i].input
      ensures StoredSelling(row, data)[i].output == StoredCost(row, data).tiers[i].output
        == FilledTiers(row, data)[i].output
    {
      StoredAt(row, data, i);
    }
  }

  /** A request is sold at the tier it is bought at, for any tiers and token counts. */
  lemma SellingSelectsTheCostTier(row: Row, data: TiersData, inputTokens: int, outputTokens: int)
    ensures Selected(StoredSelling(row, data), inputTokens, outputTokens)
      == Selected(StoredCost(row, data).tiers, inputTokens, outputTokens)
  {
    SellingKeepsRanges(row, data);
    SelectionByRanges(StoredSelling(row, data), StoredCost(row, data).tiers, inputTokens, outputTokens);
  }

  /** From any list in the old format to the selling tiers: a request is sold at the tier it decodes to. */
  lemma LegacySellsAsDecoded(row: Row, data: TiersData, legacy: seq<LegacyTier>, inputTokens: int, outputTokens: int)
    requires data.tiers == Sorted(Decoded(legacy))
    ensures Selected(StoredSelling(row, data), inputTokens, outputTokens)
      == Selected(Sorted(Decoded(legacy)), inputTokens, outputTokens)
  {
    SortedKeeps(data.tiers) by {
      SortedInOrder(Decoded(legacy));
    }
    FilledForm(row, data);
    forall i: nat | i < |data.tiers|
      ensures FilledTiers(row, data)[i].input == data.tiers[i].input
      ensures FilledTiers(row, data)[i].output == data.tiers[i].output
    {
      FilledAt(row, data, i);
      SortedPermutes(Decoded(legacy));
      assert data.tiers[i] in multiset(Decoded(legacy));
      DecodedOutputs(legacy);
    }
    SellingSelectsTheCostTier(row, data, inputTokens, outputTokens);
    SellingKeepsRanges(row, data);
    SelectionByRanges(StoredCost(row, data).tiers, FilledTiers(row, data), inputTokens, outputTokens);
    SelectionByRanges(FilledTiers(row, data), data.tiers, inputTokens, outputTokens);
  }

  /** Where the maxima do not fall that is the first tier whose maximum is not exceeded. */
  lemma LegacySellsAtFirstFit(row: Row, data: TiersData, legacy: seq<LegacyTier>, inputTokens: nat, outputTokens: nat)
    requires data.tiers == Sorted(Decoded(legacy))
    requires Chain(legacy) && MaximaDoNotFall(legacy) && outputTokens > 0
    ensures Selected(StoredSelling(row, data), inputTokens, outputTokens) == FirstFit(legacy, inputTokens, 0)
  {
    LegacySellsAsDecoded(row, data, legacy, inputTokens, outputTokens);
    SelectsFirstFit(legacy, inputTokens, outputTokens);
  }

  /** Every price at which a tier is sold has six decimals, and an override that says so. */
  lemma SoldPricesAreRounded(t: Tier, r: Ratios)
    ensures
      var sold := Selling(t, r);
      && SixDecimals(sold.inputPrice) && SixDecimals(sold.outputPrice) && SixDecimals(sold.thinkingPrice)
      && SixDecimals(sold.cacheInputPrice) && SixDecimals(sold.cacheWritePrice)
      && sold.sellingInput == Some(sold.inputPrice) && sold.sellingOutput == Some(sold.outputPrice)
      && sold.sellingThinking == if sold.thinkingPrice > 0.0 then Some(sold.thinkingPrice) else None
  {
    assert SixDecimals(0.0) by {
      assert 0.0 == Micros(0);
    }
  }

  /** What a kind of price is sold at: at its override, if positive; else at the ratio; for nothing if it
      costs nothing. */
  lemma SoldPriceIs(t: Tier, r: Ratios, kind: Kind)
    ensures
      var sold, override, base := Base(Selling(t, r), kind), Override(t, kind), Base(t, kind);
      && (forall v :: override == Some(v) && v > 0.0 ==> sold == Round6(v))
      && ((forall v :: override == Some(v) ==> v <= 0.0) ==>
            sold == if base > 0.0 then Round6(base * RatioFor(r, kind)) else 0.0)
  {
  }

  /** A tier without a cache price sells without one; without an input price it sells at the input ratio. */
  lemma SoldCacheIs(t: Tier, r: Ratios)
    ensures t.cacheInputPrice <= 0.0 ==> Selling(t, r).cacheInputPrice == 0.0
    ensures t.cacheWritePrice <= 0.0 ==> Selling(t, r).cacheWritePrice == 0.0
    ensures t.inputPrice <= 0.0 && t.cacheInputPrice > 0.0 ==>
      Selling(t, r).cacheInputPrice == Scaled(t.cacheInputPrice, r.input)
    ensures t.inputPrice <= 0.0 && t.cacheWritePrice > 0.0 ==>
      Selling(t, r).cacheWritePrice == Scaled(t.cacheWritePrice, r.input)
  {
  }

  /** A cache price is filled in only where the item supports a cache, has such a price and the tier has
      none; without a cost or a tier price to scale by it is the item's own. */
  lemma FilledCacheIs(item: Item, t: Tier)
    ensures !item.supportsCache || item.cacheInputPrice <= 0.0 || t.cacheInputPrice > 0.0 ==>
      Filled(item, t).cacheInputPrice == t.cacheInputPrice
    ensures !item.supportsCache || item.cacheWritePrice <= 0.0 || t.cacheWritePrice > 0.0 ==>
      Filled(item, t).cacheWritePrice == t.cacheWritePrice
    ensures item.supportsCache && (item.inputCost <= 0.0 || t.inputPrice <= 0.0) ==>
      && (item.cacheInputPrice > 0.0 && t.cacheInputPrice <= 0.0 ==>
            Filled(item, t).cacheInputPrice == Round6(item.cacheInputPrice))
      && (item.cacheWritePrice > 0.0 && t.cacheWritePrice <= 0.0 ==>
            Filled(item, t).cacheWritePrice == Round6(item.cacheWritePrice))
    ensures Filled(item, t).inputPrice == t.inputPrice && Filled(item, t).outputPrice == t.outputPrice
    ensures Filled(item, t).thinkingPrice == t.thinkingPrice
  {
  }

  // ---------- The top-level prices ----------

  function PerTokenOf(p: Pricing, kind: Kind): int {
    match kind
    case Input => p.inputPerToken
    case Output => p.outputPerToken
    case Thinking => p.thinkingPerToken
  }

  /** `perToken` is 10000 times the price, truncated toward zero. */
  predicate IsPerToken(perToken: int, price: real) {
    if price >= 0.0 then price * 10000.0 - 1.0 < perToken as real <= price * 10000.0
    else price * 10000.0 <= perToken as real < price * 10000.0 + 1.0
  }

  lemma PerTokenIs(price: real)
    ensures IsPerToken(PerToken(price), price)
  {
  }

  /**
    Each of the three prices by itself: one that was not positive becomes the first stored selling
    tier's price of its kind, with its own per-token price, except that a thinking price is only
    taken when there is one; a positive price stays as it was, and so does its per-token price.
  */
  lemma SyncedPriceIs(row: Row, data: TiersData, kind: Kind)
    requires DecodedSync(row.priceTiers) == Some(data)
    ensures Synced(row).pricing.Some? && StoredSelling(row, data) != []
    ensures row.pricing == None ==> OwnPrice(row, kind) == 0.0
    ensures
      var before := if row.pricing.Some? then PerTokenOf(row.pricing.value, kind) else 0;
      var after, sold := Synced(row).pricing.value, Base(StoredSelling(row, data)[0], kind);
      if OwnPrice(row, kind) > 0.0 || (kind == Thinking && sold <= 0.0) then
        OwnPrice(Synced(row), kind) == OwnPrice(row, kind) && PerTokenOf(after, kind) == before
      else
        OwnPrice(Synced(row), kind) == sold && IsPerToken(PerTokenOf(after, kind), sold)
  {
    SyncedForm(row, data);
    PerTokenIs(Base(StoredSelling(row, data)[0], kind));
  }

  lemma FirstNamed(a: string, b: string, c: string)
    requires !Blank(c)
    ensures !Blank(a) ==> FirstNonBlank(a, b, c) == a
    ensures Blank(a) && !Blank(b) ==> FirstNonBlank(a, b, c) == b
    ensures Blank(a) && Blank(b) ==> FirstNonBlank(a, b, c) == c
  {
  }

  lemma NamesTheCurrency()
    ensures !Blank("CREDIT") && !Blank("CNY")
  {
    var credit, cny := "CREDIT", "CNY";
    assert credit[0] !in SPACES && cny[0] !in SPACES;
    assert !Blank(credit) && !Blank(cny);
  }

  /** The first of the currencies that is not blank, or CREDIT. */
  predicate IsCurrency(s: string, first: string, second: string) {
    if !Blank(first) then s == first else if !Blank(second) then s == second else s == "CREDIT"
  }

  lemma CurrencyIs(first: string, second: string)
    ensures IsCurrency(FirstNonBlank(first, second, "CREDIT"), first, second)
  {
    NamesTheCurrency();
    FirstNamed(first, second, "CREDIT");
  }

  lemma StoredTiersAre(row: Row, data: TiersData)
    requires DecodedSync(row.priceTiers) == Some(data)
    ensures Synced(row).pricing.Some?
    ensures Synced(row).pricing.value.tiers
      == Encoded(TiersData(StoredSelling(row, data),
                           FirstNonBlank(StoredCost(row, data).currency, row.item.currency, "CREDIT"),
                           data.unitLabel, data.sourceURL))
    ensures Synced(row).pricing.value.currency
      == FirstNonBlank(if row.pricing.Some? then row.pricing.value.currency else "", row.item.currency, "CREDIT")
  {
    SyncedForm(row, data);
  }

  /** A missing currency is filled in from the item, or with CREDIT; one of the cost tiers with CNY; unit
      and source are copied. */
  lemma SyncedCurrencies(row: Row, data: TiersData)
    requires DecodedSync(row.priceTiers) == Some(data)
    ensures Synced(row).pricing.Some?
    ensures StoredCost(row, data).currency == (if data.currency == "" then "CNY" else data.currency)
    ensures IsCurrency(Synced(row).pricing.value.currency,
                       if row.pricing.Some? then row.pricing.value.currency else "", row.item.currency)
    ensures exists currency ::
      && IsCurrency(currency, StoredCost(row, data).currency, row.item.currency)
      && Synced(row).pricing.value.tiers
         == Encoded(TiersData(StoredSelling(row, data), currency, data.unitLabel, data.sourceURL))
  {
    StoredTiersAre(row, data);
    CurrencyIs(if row.pricing.Some? then row.pricing.value.currency else "", row.item.currency);
    CurrencyIs(StoredCost(row, data).currency, row.item.currency);
  }

  // ---------- What the computed prices mean ----------

  /** `price` is to `base` as `sold` is to `bought`, but for rounding to six decimals. */
  predicate SameProportion(price: real, base: real, sold: real, bought: real) {
    Distance(base * sold, price * bought) <= HALF_MICRO * bought
  }

  lemma TimesMonotone(x: real, y: real, c: real)
    requires x <= y && c > 0.0
    ensures x * c <= y * c
  {
    assert (y - x) * c >= 0.0;
    assert (y - x) * c == y * c - x * c;
  }

  lemma TimesDistance(x: real, y: real, c: real)
    requires c > 0.0
    ensures Distance(x * c, y * c) == Distance(x, y) * c
  {
    assert (y - x) * c == y * c - x * c;
    assert (x - y) * c == x * c - y * c;
    if x <= y {
      TimesMonotone(x, y, c);
    } else {
      TimesMonotone(y, x, c);
    }
  }

  lemma GapTimes(x: real, y: real, gap: real, c: real)
    requires c > 0.0 && Distance(x, y) <= gap
    ensures Distance(x * c, y * c) <= gap * c
  {
    TimesDistance(x, y, c);
    TimesMonotone(Distance(x, y), gap, c);
  }

  lemma RoundedQuotient(x: real, rounded: real, product: real, bought: real)
    requires bought > 0.0 && x * bought == product && Distance(x, rounded) <= HALF_MICRO
    ensures Distance(product, rounded * bought) <= HALF_MICRO * bought
  {
    GapTimes(x, rounded, HALF_MICRO, bought);
  }

  lemma ScaledProportion(base: real, ratio: real, sold: real, bought: real)
    requires bought > 0.0 && ratio * bought == sold
    ensures SameProportion(Scaled(base, ratio), base, sold, bought)
  {
    QuotientTimes(base, ratio, sold, bought);
    Round6Near(base * ratio);
    RoundedQuotient(base * ratio, Scaled(base, ratio), base * sold, bought);
  }

  lemma QuotientTimes(base: real, ratio: real, sold: real, bought: real)
    requires ratio * bought == sold
    ensures base * ratio * bought == base * sold
  {
    assert base * ratio * bought == base * (ratio * bought);
  }

  /** A missing cache price stands to the tier's input price as the item's does to its input cost. */
  lemma FilledCacheProportion(item: Item, t: Tier)
    requires item.supportsCache && item.inputCost > 0.0 && t.inputPrice > 0.0
    ensures t.cacheInputPrice <= 0.0 && item.cacheInputPrice > 0.0 ==>
      SameProportion(Filled(item, t).cacheInputPrice, t.inputPrice, item.cacheInputPrice, item.inputCost)
    ensures t.cacheWritePrice <= 0.0 && item.cacheWritePrice > 0.0 ==>
      SameProportion(Filled(item, t).cacheWritePrice, t.inputPrice, item.cacheWritePrice, item.inputCost)
  {
    FilledCacheQuotient(item.cacheInputPrice, item.inputCost, t.cacheInputPrice, t.inputPrice);
    FilledCacheQuotient(item.cacheWritePrice, item.inputCost, t.cacheWritePrice, t.inputPrice);
  }

  lemma FilledCacheQuotient(itemPrice: real, itemCost: real, cache: real, inputPrice: real)
    requires itemCost > 0.0 && inputPrice > 0.0
    ensures cache <= 0.0 && itemPrice > 0.0 ==>
      SameProportion(FilledCache(true, itemPrice, RatioOrZero(itemPrice, itemCost), cache, inputPrice),
                     inputPrice, itemPrice, itemCost)
  {
    if cache <= 0.0 && itemPrice > 0.0 {
      var ratio := itemPrice / itemCost;
      assert ratio > 0.0 && ratio * itemCost == itemPrice;
      ScaledProportion(inputPrice, ratio, itemPrice, itemCost);
    }
  }

  /** The cache prices of a sold tier are marked up like its input price. */
  lemma SellingCacheProportion(t: Tier, r: Ratios)
    requires t.inputPrice > 0.0 && Selling(t, r).inputPrice > 0.0
    ensures t.cacheInputPrice > 0.0 ==>
      SameProportion(Selling(t, r).cacheInputPrice, t.cacheInputPrice, Selling(t, r).inputPrice, t.inputPrice)
    ensures t.cacheWritePrice > 0.0 ==>
      SameProportion(Selling(t, r).cacheWritePrice, t.cacheWritePrice, Selling(t, r).inputPrice, t.inputPrice)
  {
    SellingCacheQuotient(t.cacheInputPrice, t.inputPrice, Selling(t, r).inputPrice, r.input);
    SellingCacheQuotient(t.cacheWritePrice, t.inputPrice, Selling(t, r).inputPrice, r.input);
  }

  lemma SellingCacheQuotient(cache: real, bought: real, sold: real, ratio: real)
    requires bought > 0.0 && sold > 0.0
    ensures cache > 0.0 ==> SameProportion(SellingCache(cache, bought, sold, ratio), cache, sold, bought)
  {
    if cache > 0.0 {
      RoundedRatio(cache * sold, bought);
    }
  }

  lemma RoundedRatio(product: real, bought: real)
    requires bought > 0.0
    ensures Distance(product, Divided(product, bought) * bought) <= HALF_MICRO * bought
  {
    var x := product / bought;
    Round6Near(x);
    RoundedQuotient(x, Divided(product, bought), product, bought);
  }

  /**
    A tier without its own selling prices is sold at the item's markup, kind by kind; one with
    them is sold at those.
  */
  lemma TiersSellAtTheMarkup(row: Row, data: TiersData, i: nat)
    requires OwnRatios(row) && i < |data.tiers|
    ensures |StoredSelling(row, data)| == |FilledTiers(row, data)| == |data.tiers|
    ensures
      var sold, bought := StoredSelling(row, data)[i], FilledTiers(row, data)[i];
      && SoldRight(bought.sellingInput, sold.inputPrice, bought.inputPrice,
                   row.pricing.value.inputPrice, row.item.inputCost)
      && SoldRight(bought.sellingOutput, sold.outputPrice, bought.outputPrice,
                   row.pricing.value.outputPrice, row.item.outputCost)
      && SoldRight(bought.sellingThinking, sold.thinkingPrice, bought.thinkingPrice,
                   row.pricing.value.thinkingPrice, row.item.thinkingCost)
  {
    StoredAt(row, data, i);
    var t := FilledTiers(row, data)[i];
    var p := row.pricing.value;
    SoldAtTheMarkup(t.sellingInput, t.inputPrice, p.inputPrice, row.item.inputCost);
    SoldAtTheMarkup(t.sellingOutput, t.outputPrice, p.outputPrice, row.item.outputCost);
    SoldAtTheMarkup(t.sellingThinking, t.thinkingPrice, p.thinkingPrice, row.item.thinkingCost);
  }

  predicate SoldRight(override: Option<real>, price: real, base: real, sold: real, bought: real) {
    && (override.Some? && override.value > 0.0 ==> Distance(price, override.value) <= HALF_MICRO)
    && (Computed(override, base) ==> SameProportion(price, base, sold, bought))
  }

  lemma SoldAtTheMarkup(override: Option<real>, base: real, sold: real, bought: real)
    requires sold > 0.0 && bought > 0.0
    ensures
      var ratio := sold / bought;
      SoldRight(override, ValueOrRatio(Overridden(override, base, ratio), base, ratio), base, sold, bought)
  {
    var ratio := sold / bought;
    if override.Some? {
      Round6Near(override.value);
    }
    if Computed(override, base) {
      ComputedPrice(override, base, ratio);
      ScaledProportion(base, ratio, sold, bought);
    }
  }

  lemma ComputedPrice(override: Option<real>, base: real, ratio: real)
    requires Computed(override, base)
    ensures ValueOrRatio(Overridden(override, base, ratio), base, ratio) == Scaled(base, ratio)
  {
    Round6Twice(base * ratio);
  }
}
