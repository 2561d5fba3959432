/**
  The three price steps in the order internal/bootstrap/bootstrap.go runs them: sync, accuracy,
  sync.
*/
module PriceBootstrap {
  import opened Common
  import opened PriceTier
  import opened PriceRows
  import opened SellingSync
  import opened SellingSyncTheorems
  import opened PriceAccuracy
  import opened PriceAccuracyTheorems

  function Bootstrapped(row: Row): Row {
    Synced(Accurate(Synced(row)))
  }

  /** The three migrations over all rows, one after the other. */
  method RunPriceMigrations(tables: PriceTables)
    modifies tables
    ensures |tables.rows| == |old(tables.rows)|
    ensures forall n :: 0 <= n < |tables.rows| ==> tables.rows[n] == Bootstrapped(old(tables.rows)[n])
  {
    tables.RunPriceTierSellingSync();
    var accuracy := new AccuracyMigration(tables.rows);
    accuracy.RunModelPriceAccuracy();
    tables.rows := accuracy.rows;
    tables.RunPriceTierSellingSync();
  }

  // ---------- Accuracy after a sync ----------

  /** A negative price without a positive override is sold for nothing by the sync, and at itself
      by the accuracy step. */
  predicate SoldBelowZero(override: Option<real>, base: real) {
    base < 0.0 && (override.Some? ==> override.value <= 0.0)
  }

  lemma RaisedIsNotLower(override: Option<real>, base: real, ratio: real, d: real)
    requires 0.0 < d <= 1.0 && ratio > 0.0 && base >= 0.0
    ensures
      var o := Overridden(override, base, ratio);
      OfficialPrice(RaisedOverride(o, base, d), base) >= ValueOrRatio(o, base, ratio)
  {
    var o := Overridden(override, base, ratio);
    var selling := if o.Some? then o.value else 0.0;
    if ShouldRaise(selling, base, d) {
      ShouldRaiseIff(selling, base, d);
      Round6Twice(base);
      if selling > 0.0 {
        Round6Monotone(selling, base);
      } else {
        ComputedZero(override, base, ratio);
        Round6Sign(base);
      }
    } else if base > 0.0 {
      ShouldRaiseIff(selling, base, d);
    }
  }

  lemma NotLowerIff(override: Option<real>, base: real, ratio: real, d: real)
    requires 0.0 < d <= 1.0 && ratio > 0.0
    ensures
      var o := Overridden(override, base, ratio);
      OfficialPrice(RaisedOverride(o, base, d), base) >= ValueOrRatio(o, base, ratio)
      <==> !SoldBelowZero(override, base)
  {
    if base >= 0.0 {
      RaisedIsNotLower(override, base, ratio, d);
    }
  }

  lemma ComputedZero(override: Option<real>, base: real, ratio: real)
    requires base > 0.0 && ratio > 0.0
    ensures
      var o := Overridden(override, base, ratio);
      o.Some? && (o.value <= 0.0 ==> o.value == 0.0 && ValueOrRatio(o, base, ratio) == 0.0)
  {
    ScaledNotNegative(base, ratio);
  }

  lemma SyncedTiersSorted(row: Row, data: TiersData, i: nat)
    requires DecodedSync(row.priceTiers) == Some(data) && i < |data.tiers|
    ensures
      var cost := StoredCost(row, data);
      && DecodedCurrent(Synced(row).priceTiers) == Some(cost)
      && Sorted(cost.tiers) == cost.tiers
      && |cost.tiers| == |StoredSelling(row, data)| == |FilledTiers(row, data)| == |data.tiers|
      && Normalized(cost.tiers[i]) == cost.tiers[i]
      && cost.tiers[i] == Attached(FilledTiers(row, data)[i], RatiosOf(row, data))
      && StoredSelling(row, data)[i] == Selling(cost.tiers[i], RatiosOf(row, data))
  {
    SyncedForm(row, data);
    StoredForm(row, data);
    StoredAt(row, data, i);
    SortedKeeps(StoredCost(row, data).tiers);
  }

  lemma RewrittenAfterSync(t: Tier, r: Ratios, d: real)
    requires 0.0 < d <= 1.0 && Positive(r) && Normalized(Attached(t, r)) == Attached(t, r)
    ensures
      var before, after := Selling(Attached(t, r), r), OfficialTier(RaisedTier(Attached(t, r), d));
      && (after.inputPrice >= before.inputPrice <==> !SoldBelowZero(t.sellingInput, t.inputPrice))
      && (after.outputPrice >= before.outputPrice <==> !SoldBelowZero(t.sellingOutput, t.outputPrice))
      && (after.thinkingPrice >= before.thinkingPrice <==> !SoldBelowZero(t.sellingThinking, t.thinkingPrice))
  {
    NotLowerIff(t.sellingInput, t.inputPrice, r.input, d);
    NotLowerIff(t.sellingOutput, t.outputPrice, r.output, d);
    NotLowerIff(t.sellingThinking, t.thinkingPrice, r.thinking, d);
  }

  /** After a sync the step lowers a selling tier price exactly when that tier is sold below zero. */
  lemma AccuracyAfterSyncOnlyRaisesIff(row: Row, data: TiersData, i: nat)
    requires DecodedSync(row.priceTiers) == Some(data) && i < |data.tiers|
    requires OfficialSelling(row.item, Synced(row).priceTiers).Some?
    ensures |OfficialSelling(row.item, Synced(row).priceTiers).value.tiers| == |data.tiers|
    ensures |StoredSelling(row, data)| == |data.tiers|
    ensures |FilledTiers(row, data)| == |data.tiers|
    ensures
      var t := FilledTiers(row, data)[i];
      var before := StoredSelling(row, data)[i];
      var after := OfficialSelling(row.item, Synced(row).priceTiers).value.tiers[i];
      && (after.inputPrice >= before.inputPrice <==> !SoldBelowZero(t.sellingInput, t.inputPrice))
      && (after.outputPrice >= before.outputPrice <==> !SoldBelowZero(t.sellingOutput, t.outputPrice))
      && (after.thinkingPrice >= before.thinkingPrice <==> !SoldBelowZero(t.sellingThinking, t.thinkingPrice))
  {
    var r, d := RatiosOf(row, data), EffectiveDiscount(row.item);
    SyncedTiersSorted(row, data, i);
    var t := FilledTiers(row, data)[i];
    StoredLengths(row, data);
    OfficialAt(row.item, Synced(row).priceTiers, StoredCost(row, data), i);
    RatiosArePositive(row.item, row.pricing, FilledTiers(row, data));
    RewrittenAfterSync(t, r, d);
  }

  predicate Lowered(before: Tier, after: Tier) {
    || after.inputPrice < before.inputPrice
    || after.outputPrice < before.outputPrice
    || after.thinkingPrice < before.thinkingPrice
  }

  /** The content is RewrittenPrice, a closed form of what each price becomes: whatever was on sale
      before, the step lowers a tier exactly when one of its prices was above it. */
  lemma AccuracyLowersIff(item: Item, column: Column, data: TiersData, i: nat, before: Tier)
    requires DecodedCurrent(column) == Some(data) && OfficialSelling(item, column).Some?
    requires i < |data.tiers| == |Sorted(data.tiers)|
    ensures |OfficialSelling(item, column).value.tiers| == |data.tiers|
    ensures
      var t, d := Sorted(data.tiers)[i], EffectiveDiscount(item);
      Lowered(before, OfficialSelling(item, column).value.tiers[i])
      <==> || before.inputPrice > RewrittenPrice(t.sellingInput, t.inputPrice, d)
           || before.outputPrice > RewrittenPrice(t.sellingOutput, t.outputPrice, d)
           || before.thinkingPrice > RewrittenPrice(t.sellingThinking, t.thinkingPrice, d)
  {
    var t, d := Sorted(data.tiers)[i], EffectiveDiscount(item);
    OfficialAt(item, column, data, i);
    RewrittenPriceIs(t.sellingInput, t.inputPrice, d);
    RewrittenPriceIs(t.sellingOutput, t.outputPrice, d);
    RewrittenPriceIs(t.sellingThinking, t.thinkingPrice, d);
  }

  // ---------- The sync after the accuracy step ----------

  function Discount(row: Row): real {
    EffectiveDiscount(row.item)
  }

  /** The ratio of the last sync: the price the first left behind, raised, over the item's cost. */
  function LastRatio(row: Row, data: TiersData, kind: Kind): real
    requires FilledTiers(row, data) != []
  {
    var filled, r := FilledTiers(row, data), RatiosOf(row, data);
    var price := RaisedPrice(PriceAfter(OwnPrice(row, kind), filled, kind, r), Cost(row.item, kind), Discount(row));
    FirstPositiveRatio(price, Cost(row.item, kind), TierRatioAfter(filled, kind, r), 1.0)
  }

  function LastRatios(row: Row, data: TiersData): Ratios
    requires FilledTiers(row, data) != []
  {
    Ratios(LastRatio(row, data, Input), LastRatio(row, data, Output), LastRatio(row, data, Thinking))
  }

  lemma AccuratePrice(row: Row, kind: Kind)
    requires row.pricing.Some?
    ensures OwnPrice(Accurate(row), kind) == RaisedPrice(OwnPrice(row, kind), Cost(row.item, kind), Discount(row))
  {
  }

  lemma LastRatiosAre(row: Row, data: TiersData)
    requires DecodedSync(row.priceTiers) == Some(data)
    ensures FilledTiers(row, data) != []
    ensures RatiosOf(Accurate(Synced(row)), StoredCost(row, data)) == LastRatios(row, data)
  {
    var later := Accurate(Synced(row));
    SyncedForm(row, data);
    PriceAfterIs(row, data, Input);
    PriceAfterIs(row, data, Output);
    PriceAfterIs(row, data, Thinking);
    AccuratePrice(Synced(row), Input);
    AccuratePrice(Synced(row), Output);
    AccuratePrice(Synced(row), Thinking);
    RatiosByKind(later, StoredCost(row, data));
    StoredTierRatio(row, data, later, Input);
    StoredTierRatio(row, data, later, Output);
    StoredTierRatio(row, data, later, Thinking);
  }

  lemma LastSyncTiersIff(row: Row, data: TiersData)
    requires DecodedSync(row.priceTiers) == Some(data)
    ensures Bootstrapped(row).pricing.Some? && Synced(row).pricing.Some?
    ensures
      var once, last := Synced(row), Bootstrapped(row);
      last.priceTiers == once.priceTiers && last.pricing.value.tiers == once.pricing.value.tiers
      <==> AllSteady(FilledTiers(row, data), RatiosOf(row, data), RatiosOf(Accurate(once), StoredCost(row, data)))
  {
    var once := Synced(row);
    var later := Accurate(once);
    var cost := StoredCost(row, data);
    SyncedForm(row, data);
    SyncedForm(later, cost);
    ResyncIff(row, data, later);
    var last := Bootstrapped(row);
    if last.priceTiers == once.priceTiers && last.pricing.value.tiers == once.pricing.value.tiers {
      EncodedInjective(StoredCost(later, cost), cost);
      PricingTiersInjective(row.item, later.pricing, row.pricing, cost,
                            StoredSelling(later, cost), StoredSelling(row, data));
    }
  }

  /**
    The last sync writes the selling tiers of the first again, over those the accuracy step had
    raised, exactly when no tier still depends on the ratios or they give the same prices.
  */
  lemma LastSyncUndoesTheRaiseIff(row: Row, data: TiersData)
    requires DecodedSync(row.priceTiers) == Some(data)
    ensures FilledTiers(row, data) != []
    ensures Bootstrapped(row).pricing.Some? && Synced(row).pricing.Some?
    ensures
      var once, last := Synced(row), Bootstrapped(row);
      last.priceTiers == once.priceTiers && last.pricing.value.tiers == once.pricing.value.tiers
      <==> AllSteady(FilledTiers(row, data), RatiosOf(row, data), LastRatios(row, data))
  {
    LastRatiosAre(row, data);
    LastSyncTiersIff(row, data);
  }

  /** What a tier sells at in the end: its own override, else its price at the first ratio, or at
      the last where that rounds to nothing. */
  function FinalPrice(override: Option<real>, base: real, first: real, last: real): real {
    if override.Some? && override.value > 0.0 then Round6(override.value)
    else if base <= 0.0 then 0.0
    else if Scaled(base, first) > 0.0 then Scaled(base, first)
    else Scaled(base, last)
  }

  lemma FinalPriceIs(override: Option<real>, base: real, first: real, last: real)
    requires first > 0.0 && last > 0.0
    ensures ValueOrRatio(Overridden(Overridden(override, base, first), base, last), base, last)
         == FinalPrice(override, base, first, last)
  {
    if base > 0.0 {
      Round6Twice(base * first);
      Round6Twice(base * last);
      ScaledNotNegative(base, first);
      ScaledNotNegative(base, last);
    }
  }

  predicate FinallyMeetsFloor(override: Option<real>, base: real, first: real, last: real, d: real) {
    base > 0.0 ==> MeetsFloor(FinalPrice(override, base, first, last), base, d)
  }

  predicate TierFinallyMeetsFloor(t: Tier, r1: Ratios, r3: Ratios, d: real) {
    && FinallyMeetsFloor(t.sellingInput, t.inputPrice, r1.input, r3.input, d)
    && FinallyMeetsFloor(t.sellingOutput, t.outputPrice, r1.output, r3.output, d)
    && FinallyMeetsFloor(t.sellingThinking, t.thinkingPrice, r1.thinking, r3.thinking, d)
  }

  /** The selling tiers once the program is up. */
  function FinalSelling(row: Row, data: TiersData): seq<Tier> {
    StoredSelling(Accurate(Synced(row)), StoredCost(row, data))
  }

  lemma FinalSellingIsStored(row: Row, data: TiersData)
    requires DecodedSync(row.priceTiers) == Some(data)
    ensures Bootstrapped(row).pricing.Some?
    ensures DecodedCurrent(Bootstrapped(row).pricing.value.tiers).Some?
    ensures DecodedCurrent(Bootstrapped(row).pricing.value.tiers).value.tiers == FinalSelling(row, data)
  {
    var later := Accurate(Synced(row));
    SyncedForm(row, data);
    SyncedForm(later, StoredCost(row, data));
    AsRawReadsBack(FinalSelling(row, data));
  }

  lemma FinalSellingAt(row: Row, data: TiersData, i: nat)
    requires DecodedSync(row.priceTiers) == Some(data) && i < |data.tiers|
    ensures |FilledTiers(row, data)| == |FinalSelling(row, data)| == |data.tiers| && FilledTiers(row, data) != []
    ensures
      var t, r1, r3 := FilledTiers(row, data)[i], RatiosOf(row, data), LastRatios(row, data);
      FinalSelling(row, data)[i] == Selling(Attached(Attached(t, r1), r3), r3)
  {
    var later := Accurate(Synced(row));
    SyncedForm(row, data);
    StoredLengths(row, data);
    StoredAt(row, data, i);
    StoredAt(later, StoredCost(row, data), i);
    RefilledKeeps(row, data, later);
    LastRatiosAre(row, data);
  }

  lemma FinalTierMeetsFloorIff(row: Row, data: TiersData, i: nat)
    requires DecodedSync(row.priceTiers) == Some(data) && i < |data.tiers|
    ensures |FilledTiers(row, data)| == |FinalSelling(row, data)| == |data.tiers| && FilledTiers(row, data) != []
    ensures
      var d := EffectiveDiscount(row.item);
      TierMeetsFloor(FinalSelling(row, data)[i], FilledTiers(row, data)[i], d)
      <==> TierFinallyMeetsFloor(FilledTiers(row, data)[i], RatiosOf(row, data), LastRatios(row, data), d)
  {
    FinalSellingAt(row, data, i);
    LastRatiosAre(row, data);
    RatiosArePositive(row.item, row.pricing, FilledTiers(row, data));
    RatiosArePositive(Accurate(Synced(row)).item, Accurate(Synced(row)).pricing,
                      FilledTiers(Accurate(Synced(row)), StoredCost(row, data)));
    SoldFinally(FilledTiers(row, data)[i], RatiosOf(row, data), LastRatios(row, data));
  }

  lemma SoldFinally(t: Tier, r1: Ratios, r3: Ratios)
    requires Positive(r1) && Positive(r3)
    ensures
      var sold := Selling(Attached(Attached(t, r1), r3), r3);
      && sold.inputPrice == FinalPrice(t.sellingInput, t.inputPrice, r1.input, r3.input)
      && sold.outputPrice == FinalPrice(t.sellingOutput, t.outputPrice, r1.output, r3.output)
      && sold.thinkingPrice == FinalPrice(t.sellingThinking, t.thinkingPrice, r1.thinking, r3.thinking)
  {
    FinalPriceIs(t.sellingInput, t.inputPrice, r1.input, r3.input);
    FinalPriceIs(t.sellingOutput, t.outputPrice, r1.output, r3.output);
    FinalPriceIs(t.sellingThinking, t.thinkingPrice, r1.thinking, r3.thinking);
  }

  predicate AllFinallyMeetFloor(filled: seq<Tier>, r1: Ratios, r3: Ratios, d: real) {
    forall i :: 0 <= i < |filled| ==> TierFinallyMeetsFloor(filled[i], r1, r3, d)
  }

  lemma AllFinallyMeetFloorIff(sold: seq<Tier>, filled: seq<Tier>, r1: Ratios, r3: Ratios, d: real)
    requires |sold| == |filled|
    requires forall i: nat :: i < |filled| ==>
      (TierMeetsFloor(sold[i], filled[i], d) <==> TierFinallyMeetsFloor(filled[i], r1, r3, d))
    ensures AllMeetFloor(sold, filled, d) <==> AllFinallyMeetFloor(filled, r1, r3, d)
  {
  }

  /** Exactly when the tiers on sale meet the floor once the program is up, for every row with tiers:
      nothing the accuracy step did to them enters into it. */
  lemma FinalTiersMeetFloorIff(row: Row, data: TiersData)
    requires DecodedSync(row.priceTiers) == Some(data)
    ensures Bootstrapped(row).pricing.Some? && DecodedCurrent(Bootstrapped(row).pricing.value.tiers).Some?
    ensures
      var sold, filled := DecodedCurrent(Bootstrapped(row).pricing.value.tiers).value.tiers, FilledTiers(row, data);
      && |sold| == |filled| && filled != []
      && (AllMeetFloor(sold, filled, Discount(row))
          <==> AllFinallyMeetFloor(filled, RatiosOf(row, data), LastRatios(row, data), Discount(row)))
  {
    FinalSellingIsStored(row, data);
    SyncedForm(row, data);
    FinalTierMeetsFloorIff(row, data, 0);
    var d, sold, filled := Discount(row), FinalSelling(row, data), FilledTiers(row, data);
    forall i: nat | i < |filled|
      ensures TierMeetsFloor(sold[i], filled[i], d)
        <==> TierFinallyMeetsFloor(filled[i], RatiosOf(row, data), LastRatios(row, data), d)
    {
      FinalTierMeetsFloorIff(row, data, i);
    }
    AllFinallyMeetFloorIff(sold, filled, RatiosOf(row, data), LastRatios(row, data), d);
  }

  predicate AllSixDecimals(tiers: seq<Tier>) {
    forall i :: 0 <= i < |tiers| ==> SixDecimalTier(tiers[i])
  }

  lemma OverrideMeetsFloorIff(override: Option<real>, base: real, ratio: real, d: real)
    requires 0.0 < d <= 1.0 && base > 0.0
    requires override.Some? && override.value > 0.0 && Round6(override.value) == override.value
    ensures MeetsFloor(ValueOrRatio(override, base, ratio), base, d) <==> !ShouldRaiseTier(override, base, d)
  {
    ShouldRaiseIff(override.value, base, d);
  }

  lemma PricedOverride(override: Option<real>, base: real, ratio: real)
    requires base > 0.0 && (Computed(override, base) ==> Scaled(base, ratio) > 0.0)
    ensures Overridden(override, base, ratio).Some? && Overridden(override, base, ratio).value > 0.0
  {
  }

  lemma SoldMeetsFloorIff(t: Tier, r: Ratios, d: real)
    requires 0.0 < d <= 1.0 && Priced(t, r) && SixDecimalTier(Attached(t, r))
    ensures TierMeetsFloor(Selling(Attached(t, r), r), Attached(t, r), d) <==> !RaisesTier(Attached(t, r), d)
  {
    var a := Attached(t, r);
    if t.inputPrice > 0.0 {
      PricedOverride(t.sellingInput, t.inputPrice, r.input);
      OverrideMeetsFloorIff(a.sellingInput, a.inputPrice, r.input, d);
    }
    if t.outputPrice > 0.0 {
      PricedOverride(t.sellingOutput, t.outputPrice, r.output);
      OverrideMeetsFloorIff(a.sellingOutput, a.outputPrice, r.output, d);
    }
    if t.thinkingPrice > 0.0 {
      PricedOverride(t.sellingThinking, t.thinkingPrice, r.thinking);
      OverrideMeetsFloorIff(a.sellingThinking, a.thinkingPrice, r.thinking, d);
    }
  }

  lemma LastSyncSellsAsTheFirst(row: Row, data: TiersData)
    requires DecodedSync(row.priceTiers) == Some(data) && AllPriced(row, data)
    ensures Bootstrapped(row).pricing.Some?
    ensures DecodedCurrent(Bootstrapped(row).pricing.value.tiers).Some?
    ensures DecodedCurrent(Bootstrapped(row).pricing.value.tiers).value.tiers == StoredSelling(row, data)
  {
    LastSyncUndoesTheRaiseIff(row, data);
    AllPricedIsSteady(row, data, LastRatios(row, data));
    SyncedForm(row, data);
    AsRawReadsBack(StoredSelling(row, data));
  }

  lemma AllMeetFloorIff(sold: seq<Tier>, bought: seq<Tier>, d: real)
    requires |sold| == |bought|
    requires forall i: nat :: i < |bought| ==> (TierMeetsFloor(sold[i], bought[i], d) <==> !RaisesTier(bought[i], d))
    ensures AllMeetFloor(sold, bought, d) <==> !RaisesSome(bought, d)
  {
    if RaisesSome(bought, d) {
      var i: nat :| i < |bought| && RaisesTier(bought[i], d);
      assert !TierMeetsFloor(sold[i], bought[i], d);
    }
  }

  lemma SyncedFloorIff(row: Row, data: TiersData)
    requires DecodedSync(row.priceTiers) == Some(data)
    requires AllPriced(row, data) && AllSixDecimals(StoredCost(row, data).tiers)
    ensures |StoredSelling(row, data)| == |StoredCost(row, data).tiers|
    ensures AllMeetFloor(StoredSelling(row, data), StoredCost(row, data).tiers, EffectiveDiscount(row.item))
      <==> !RaisesSome(StoredCost(row, data).tiers, EffectiveDiscount(row.item))
  {
    var cost, sold, d := StoredCost(row, data).tiers, StoredSelling(row, data), EffectiveDiscount(row.item);
    StoredLengths(row, data);
    forall i: nat | i < |cost| ensures TierMeetsFloor(sold[i], cost[i], d) <==> !RaisesTier(cost[i], d) {
      SyncedTiersSorted(row, data, i);
      SoldMeetsFloorIff(FilledTiers(row, data)[i], RatiosOf(row, data), d);
    }
    AllMeetFloorIff(sold, cost, d);
  }

  /**
    So the tiers on sale once the program is up meet the floor exactly when the accuracy step
    had no tier to raise: whatever it did raise has been undone.
  */
  lemma TierFloorAfterBootstrapIff(row: Row, data: TiersData)
    requires DecodedSync(row.priceTiers) == Some(data)
    requires AllPriced(row, data) && AllSixDecimals(StoredCost(row, data).tiers)
    ensures Bootstrapped(row).pricing.Some? && DecodedCurrent(Bootstrapped(row).pricing.value.tiers).Some?
    ensures
      var sold := DecodedCurrent(Bootstrapped(row).pricing.value.tiers).value.tiers;
      && |sold| == |StoredCost(row, data).tiers|
      && (AllMeetFloor(sold, StoredCost(row, data).tiers, EffectiveDiscount(row.item))
          <==> OfficialSelling(row.item, Synced(row).priceTiers) == None)
  {
    LastSyncSellsAsTheFirst(row, data);
    SyncedFloorIff(row, data);
    SyncedForm(row, data);
  }

  lemma SyncKeepsPositivePrices(row: Row)
    requires row.pricing.Some?
    ensures Synced(row).pricing.Some? && Synced(row).item == row.item
    ensures
      var p, q := row.pricing.value, Synced(row).pricing.value;
      && (p.inputPrice > 0.0 ==> q.inputPrice == p.inputPrice)
      && (p.outputPrice > 0.0 ==> q.outputPrice == p.outputPrice)
      && (p.thinkingPrice > 0.0 ==> q.thinkingPrice == p.thinkingPrice)
  {
    if DecodedSync(row.priceTiers).Some? {
      SyncedForm(row, DecodedSync(row.priceTiers).value);
    }
  }

  lemma SyncKeepsItem(row: Row)
    ensures Synced(row).item == row.item
  {
    if DecodedSync(row.priceTiers).Some? {
      SyncedForm(row, DecodedSync(row.priceTiers).value);
    }
  }

  /** The top-level prices keep the floor, with tiers or without: a sync only fills in prices that
      are not positive. */
  lemma TopLevelFloorAfterBootstrap(row: Row)
    requires HasCost(row.item)
    ensures Bootstrapped(row).pricing.Some?
    ensures
      var p, d := Bootstrapped(row).pricing.value, EffectiveDiscount(row.item);
      && (row.item.inputCost > 0.0 && SixDecimals(row.item.inputCost) ==>
            MeetsFloor(p.inputPrice, row.item.inputCost, d))
      && (row.item.outputCost > 0.0 && SixDecimals(row.item.outputCost) ==>
            MeetsFloor(p.outputPrice, row.item.outputCost, d))
      && (row.item.thinkingCost > 0.0 && SixDecimals(row.item.thinkingCost) ==>
            MeetsFloor(p.thinkingPrice, row.item.thinkingCost, d))
  {
    SyncKeepsItem(row);
    AccuratePricesMeetFloor(Synced(row));
    SyncKeepsPositivePrices(Accurate(Synced(row)));
  }

  // ---------- Where it fails ----------

  lemma LowMarginRow() returns (row: Row, data: TiersData)
    ensures DecodedSync(row.priceTiers) == DecodedCurrent(row.priceTiers) == Some(data)
    ensures Sorted(data.tiers) == data.tiers
    ensures data.tiers == [PlainTier(0, 1.0, 0.0).(sellingInput := Some(0.5))]
    ensures row.item == PlainItem(1.0) && row.pricing == None
  {
    data := TiersData([PlainTier(0, 1.0, 0.0).(sellingInput := Some(0.5))], "CNY", "", "");
    row := Row(PlainItem(1.0), Encoded(data), None);
    EncodedReadsBack(data);
    SortedKeeps(data.tiers);
  }

  lemma HalfPriceIsRaised()
    ensures EffectiveDiscount(PlainItem(1.0)) == 1.0
    ensures ShouldRaise(0.5, 1.0, 1.0) && Round6(1.0) == 1.0 && Round6(0.5) == 0.5 && Round6(0.0) == 0.0
  {
    ShouldRaiseIff(0.5, 1.0, 1.0);
    Round6Keeps(1.0) by {
      assert 1.0 == Micros(1000000);
    }
    Round6Keeps(0.5) by {
      assert 0.5 == Micros(500000);
    }
    Round6Keeps(0.0) by {
      assert 0.0 == Micros(0);
    }
  }

  lemma LowMarginOfficial(item: Item, column: Column, data: TiersData)
    requires item == PlainItem(1.0) && DecodedCurrent(column) == Some(data) && Sorted(data.tiers) == data.tiers
    requires data.tiers == [PlainTier(0, 1.0, 0.0).(sellingInput := Some(0.5))]
    ensures OfficialSelling(item, column).Some?
    ensures
      var after := OfficialSelling(item, column).value.tiers;
      && |after| == 1 && after[0].inputPrice == 1.0
      && after[0].input == data.tiers[0].input && after[0].output == data.tiers[0].output
  {
    HalfPriceIsRaised();
    assert RaisesTier(data.tiers[0], 1.0);
    OfficialAt(item, column, data, 0);
  }

  /**
    On its own the step can lower a tier on sale: it rewrites from the overrides of the cost
    tiers and never looks at the selling tiers there were.
  */
  lemma AccuracyAloneLowers() returns (row: Row)
    ensures row.pricing.Some? && DecodedCurrent(row.pricing.value.tiers).Some?
    ensures OfficialSelling(row.item, row.priceTiers).Some?
    ensures
      var before := DecodedCurrent(row.pricing.value.tiers).value.tiers;
      var after := OfficialSelling(row.item, row.priceTiers).value.tiers;
      |before| == |after| == 1 && SameRanges(before, after) && before[0].inputPrice == 5.0 && after[0].inputPrice == 1.0
  {
    var unpriced, data := LowMarginRow();
    var selling := TiersData([PlainTier(0, 5.0, 0.0)], "CREDIT", "", "");
    row := unpriced.(pricing := Some(NO_PRICING.(tiers := Encoded(selling))));
    EncodedReadsBack(selling);
    LowMarginOfficial(row.item, row.priceTiers, data);
  }

  lemma LowMarginSynced(row: Row, data: TiersData)
    requires DecodedSync(row.priceTiers) == Some(data) && Sorted(data.tiers) == data.tiers
    requires data.tiers == [PlainTier(0, 1.0, 0.0).(sellingInput := Some(0.5))]
    requires row.item == PlainItem(1.0) && row.pricing == None
    ensures FilledTiers(row, data) == data.tiers && StoredCost(row, data).tiers == data.tiers
    ensures AllPriced(row, data) && AllSixDecimals(data.tiers)
  {
    assert "tier"[0] !in SPACES;
    FilledAt(row, data, 0);
    assert FilledTiers(row, data) == data.tiers;
    StoredLengths(row, data);
    StoredAt(row, data, 0);
    assert StoredCost(row, data).tiers == data.tiers;
    HalfPriceIsRaised();
  }

  /** A tier raised to its official price by the accuracy step is back below the floor at the end. */
  lemma BootstrapLosesTheTierFloor() returns (row: Row, data: TiersData)
    ensures DecodedSync(row.priceTiers) == Some(data)
    ensures OfficialSelling(row.item, Synced(row).priceTiers).Some?
    ensures Bootstrapped(row).pricing.Some? && DecodedCurrent(Bootstrapped(row).pricing.value.tiers).Some?
    ensures
      var sold := DecodedCurrent(Bootstrapped(row).pricing.value.tiers).value.tiers;
      && |sold| == |StoredCost(row, data).tiers|
      && !AllMeetFloor(sold, StoredCost(row, data).tiers, EffectiveDiscount(row.item))
  {
    row, data := LowMarginRow();
    LowMarginSynced(row, data);
    TierFloorAfterBootstrapIff(row, data);
    SyncedForm(row, data);
    LowMarginOfficial(row.item, Synced(row).priceTiers, StoredCost(row, data));
  }
}
