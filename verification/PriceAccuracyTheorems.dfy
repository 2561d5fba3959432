/** What the accuracy step guarantees, alone and between two syncs of the selling tiers. */
module PriceAccuracyTheorems {
  import opened Common
  import opened PriceTier
  import opened PriceRows
  import opened SellingSync
  import opened SellingSyncTheorems
  import opened PriceAccuracy

  // ---------- The decision ----------

  /** At or above the official price, or at least 15% of the price above the discounted cost. */
  predicate MeetsFloor(selling: real, official: real, discount: real) {
    selling > 0.0 && (selling >= official || selling - official * discount >= MIN_MARGIN * selling)
  }

  lemma DiscountInRange(item: Item)
    ensures 0.0 < EffectiveDiscount(item) <= 1.0
  {
  }

  lemma QuotientBelow(x: real, y: real, bound: real)
    requires y > 0.0
    ensures x / y < bound <==> x < bound * y
  {
    var q := x / y;
    assert q * y == x;
    if q < bound {
      assert (bound - q) * y > 0.0;
      assert (bound - q) * y == bound * y - q * y;
    } else {
      assert (q - bound) * y >= 0.0;
      assert (q - bound) * y == q * y - bound * y;
    }
  }

  /** A price is raised exactly when there is an official price and the floor is not met. */
  lemma ShouldRaiseIff(selling: real, official: real, discount: real)
    requires 0.0 < discount <= 1.0
    ensures ShouldRaise(selling, official, discount) <==> official > 0.0 && !MeetsFloor(selling, official, discount)
  {
    if official > 0.0 && selling > 0.0 {
      var effective := official * discount;
      assert effective <= official by {
        assert official * (1.0 - discount) >= 0.0;
        assert official * (1.0 - discount) == official - effective;
      }
      QuotientBelow(selling - effective, selling, MIN_MARGIN);
    }
  }

  /** Raising meets the floor; with six decimals it never lowers; once is enough. */
  lemma RaisedPriceMeetsFloor(selling: real, official: real, discount: real)
    requires 0.0 < discount <= 1.0
    ensures official > 0.0 && SixDecimals(official)
      ==> MeetsFloor(RaisedPrice(selling, official, discount), official, discount)
    ensures SixDecimals(selling) ==> RaisedPrice(selling, official, discount) >= selling
    ensures
      var once := RaisedPrice(selling, official, discount);
      RaisedPrice(once, official, discount) == once
  {
    ShouldRaiseIff(selling, official, discount);
    if ShouldRaise(selling, official, discount) {
      if SixDecimals(official) {
        Round6Keeps(official);
      }
      if SixDecimals(selling) {
        Round6Keeps(selling);
        if selling > 0.0 {
          Round6Monotone(selling, official);
        } else {
          Round6Sign(official);
        }
      }
    }
  }

  /** "Raising" lowers a price exactly when it lies between the official price and what that rounds
      down to and misses the floor; by no more than the rounding. */
  lemma RaisingLowersIff(selling: real, official: real, discount: real)
    requires 0.0 < discount <= 1.0
    ensures RaisedPrice(selling, official, discount) < selling
      <==> && official > 0.0 && Round6(official) < selling < official
           && selling - official * discount < MIN_MARGIN * selling
    ensures RaisedPrice(selling, official, discount) >= selling - HALF_MICRO
  {
    ShouldRaiseIff(selling, official, discount);
    Round6Near(official);
    Round6Sign(official);
  }

  // ---------- Top-level prices ----------

  /** The discount in force, told from the item's own fields: its own if in (0, 1], else its
      supplier's if that is, else none. */
  predicate Applies(item: Item, d: real) {
    if 0.0 < item.discount && item.discount <= 1.0 then d == item.discount
    else if 0.0 < item.supplierDiscount && item.supplierDiscount <= 1.0 then d == item.supplierDiscount
    else d == 1.0
  }

  /** A positive price that is below the official price and keeps less than 15% of itself over the
      discounted official price, or no price at all where there is an official one. */
  predicate TooLow(price: real, official: real, d: real) {
    official > 0.0 && (price <= 0.0 || (price < official && price - official * d < 0.15 * price))
  }

  /** 10000 times the price, to the nearest integer; a tie goes up. */
  predicate IsRoundedPerToken(perToken: int, price: real) {
    price * 10000.0 - 0.5 < perToken as real <= price * 10000.0 + 0.5
  }

  lemma RoundIs(x: real)
    requires x >= 0.0
    ensures x - 0.5 < Round(x) as real <= x + 0.5
  {
  }

  lemma RaisedPriceIs(perToken: int, price: real, official: real, d: real)
    requires 0.0 < d <= 1.0
    ensures
      if TooLow(price, official, d) then
        && RaisedPrice(price, official, d) == Round6(official)
        && IsRoundedPerToken(RaisedPerToken(perToken, price, official, d), Round6(official))
      else RaisedPrice(price, official, d) == price && RaisedPerToken(perToken, price, official, d) == perToken
  {
    ShouldRaiseIff(price, official, d);
    if official > 0.0 {
      Round6Sign(official);
      RoundIs(Round6(official) * 10000.0);
    }
  }

  /** Nothing per token where there is no row. */
  function StartOf(row: Row): Pricing {
    if row.pricing.Some? then row.pricing.value else Pricing(0.0, 0.0, 0.0, 0, 0, 0, "", Absent)
  }

  /** What the step leaves of one kind of price, whether it wrote the row or not. */
  lemma AccurateByKind(row: Row, kind: Kind)
    requires HasCost(row.item)
    ensures
      var d, price, official := EffectiveDiscount(row.item), OwnPrice(row, kind), Cost(row.item, kind);
      && OwnPrice(Accurate(row), kind) == RaisedPrice(price, official, d)
      && PerTokenOf(StartOf(Accurate(row)), kind)
         == RaisedPerToken(PerTokenOf(StartOf(row), kind), price, official, d)
  {
  }

  /**
    Each top-level price by itself: raised to the official price, with its per-token price, exactly
    when it is too low at the discount in force; otherwise both stay as they were.
  */
  lemma AccuratePriceIs(row: Row, kind: Kind, d: real)
    requires HasCost(row.item) && Applies(row.item, d)
    ensures
      if TooLow(OwnPrice(row, kind), Cost(row.item, kind), d) then
        && OwnPrice(Accurate(row), kind) == Round6(Cost(row.item, kind))
        && IsRoundedPerToken(PerTokenOf(StartOf(Accurate(row)), kind), OwnPrice(Accurate(row), kind))
      else
        && OwnPrice(Accurate(row), kind) == OwnPrice(row, kind)
        && PerTokenOf(StartOf(Accurate(row)), kind) == PerTokenOf(StartOf(row), kind)
  {
    assert EffectiveDiscount(row.item) == d;
    AccurateByKind(row, kind);
    RaisedPriceIs(PerTokenOf(StartOf(row), kind), OwnPrice(row, kind), Cost(row.item, kind), d);
  }

  /** The currency that is given, or else the item's, or else CREDIT. */
  predicate IsFirst(s: string, given: string, item: string) {
    if given != "" then s == given else if item != "" then s == item else s == "CREDIT"
  }

  /** The step leaves no row, and no rewritten tiers, without a currency; unit and source are copied. */
  lemma AccurateCurrencies(row: Row)
    requires HasCost(row.item)
    ensures IsFirst(StartOf(Accurate(row)).currency, StartOf(row).currency, row.item.currency)
    ensures OfficialSelling(row.item, row.priceTiers).Some? ==>
      && DecodedCurrent(row.priceTiers).Some?
      && var sold, data := OfficialSelling(row.item, row.priceTiers).value, DecodedCurrent(row.priceTiers).value;
         IsFirst(sold.currency, data.currency, row.item.currency)
         && sold.unitLabel == data.unitLabel && sold.sourceURL == data.sourceURL
  {
    ShouldRaiseIff(0.0, row.item.inputCost, EffectiveDiscount(row.item));
  }

  /** And the overrides of a tier, under the same discount. */
  lemma RaisedOverrideIs(item: Item, override: Option<real>, base: real, d: real)
    requires Applies(item, d)
    ensures RaisedOverride(override, base, EffectiveDiscount(item))
      == if TooLow(if override.Some? then override.value else 0.0, base, d) then Some(Round6(base)) else override
  {
    ShouldRaiseIff(if override.Some? then override.value else 0.0, base, d);
  }


  /** Every top-level price with an official price meets the floor after the step. */
  lemma AccuratePricesMeetFloor(row: Row)
    requires HasCost(row.item)
    ensures Accurate(row).pricing.Some?
    ensures
      var p, d := Accurate(row).pricing.value, EffectiveDiscount(row.item);
      && (row.item.inputCost > 0.0 && SixDecimals(row.item.inputCost) ==>
            MeetsFloor(p.inputPrice, row.item.inputCost, d))
      && (row.item.outputCost > 0.0 && SixDecimals(row.item.outputCost) ==>
            MeetsFloor(p.outputPrice, row.item.outputCost, d))
      && (row.item.thinkingCost > 0.0 && SixDecimals(row.item.thinkingCost) ==>
            MeetsFloor(p.thinkingPrice, row.item.thinkingCost, d))
  {
    var p, d := StartingPricing(row), EffectiveDiscount(row.item);
    RaisedPriceMeetsFloor(p.inputPrice, row.item.inputCost, d);
    RaisedPriceMeetsFloor(p.outputPrice, row.item.outputCost, d);
    RaisedPriceMeetsFloor(p.thinkingPrice, row.item.thinkingCost, d);
  }

  lemma AccurateNeverLowers(row: Row)
    requires row.pricing.Some?
    requires SixDecimals(row.pricing.value.inputPrice) && SixDecimals(row.pricing.value.outputPrice)
    requires SixDecimals(row.pricing.value.thinkingPrice)
    ensures Accurate(row).pricing.Some?
    ensures
      var before, after := row.pricing.value, Accurate(row).pricing.value;
      && after.inputPrice >= before.inputPrice
      && after.outputPrice >= before.outputPrice
      && after.thinkingPrice >= before.thinkingPrice
  {
    var p, d := row.pricing.value, EffectiveDiscount(row.item);
    RaisedPriceMeetsFloor(p.inputPrice, row.item.inputCost, d);
    RaisedPriceMeetsFloor(p.outputPrice, row.item.outputCost, d);
    RaisedPriceMeetsFloor(p.thinkingPrice, row.item.thinkingCost, d);
  }

  lemma RaisedPricesTwice(item: Item, p: Pricing)
    ensures RaisedPrices(item, RaisedPrices(item, p)) == RaisedPrices(item, p)
  {
    var d := EffectiveDiscount(item);
    RaisedPriceMeetsFloor(p.inputPrice, item.inputCost, d);
    RaisedPriceMeetsFloor(p.outputPrice, item.outputCost, d);
    RaisedPriceMeetsFloor(p.thinkingPrice, item.thinkingCost, d);
  }

  /** The step is a fixpoint of itself for every row: prices, per-token prices, currency and tiers. */
  lemma AccurateTwice(row: Row)
    ensures Accurate(Accurate(row)) == Accurate(row)
  {
    if HasCost(row.item) && Changes(row) {
      var p := StartingPricing(row);
      RaisedPricesTwice(row.item, p);
      var once := OfficialPricing(row);
      var q := RaisedPrices(row.item, p);
      assert RaisedPrices(row.item, once) == once by {
        assert RaisedPrices(row.item, q) == q;
        assert once == q.(tiers := once.tiers);
        RaisingIgnoresTiers(row.item, q, once.tiers);
      }
      assert OfficialPricing(Accurate(row)) == once;
    }
  }

  lemma RaisingIgnoresTiers(item: Item, p: Pricing, tiers: Column)
    ensures RaisedPrices(item, p.(tiers := tiers)) == RaisedPrices(item, p).(tiers := tiers)
  {
  }

  // ---------- Tiers ----------

  lemma RewritingKeepsKeys(d: real)
    ensures forall t :: SameKey(Raiser(d)(t), t)
    ensures forall t :: SameKey(Officializer()(t), t)
  {
  }

  /** The rewritten tiers, tier by tier, in the sorted order of the cost tiers. */
  lemma OfficialForm(tiers: seq<Tier>, d: real)
    ensures Marshalled(OfficialTiers(Map(tiers, Raiser(d)))) == Map(Map(Sorted(tiers), Raiser(d)), Officializer())
  {
    var raised := Map(Sorted(tiers), Raiser(d));
    RewritingKeepsKeys(d);
    SortedMap(tiers, Raiser(d));
    SortedMap(Map(tiers, Raiser(d)), Officializer());
    SortedInOrder(tiers);
    MapInOrder(Sorted(tiers), Raiser(d));
    forall i: nat | i < |raised| ensures Normalized(Officializer()(raised[i])) == Officializer()(raised[i]) {
      MapLength(Sorted(tiers), Raiser(d));
      MapAt(Sorted(tiers), Raiser(d), i);
      NormalizedTwice(Sorted(tiers)[i]);
      RewrittenIsNormal(Sorted(tiers)[i], d);
    }
    MapTidy(raised, Officializer());
    MarshalledKeeps(Map(raised, Officializer()));
  }

  lemma RewrittenIsNormal(t: Tier, d: real)
    ensures Normalized(OfficialTier(RaisedTier(t, d))) == OfficialTier(RaisedTier(t, d))
  {
    NormalizedTwice(t);
  }

  lemma OfficialAt(item: Item, column: Column, data: TiersData, i: nat)
    requires DecodedCurrent(column) == Some(data) && OfficialSelling(item, column).Some? && i < |data.tiers|
    ensures
      var tiers := OfficialSelling(item, column).value.tiers;
      && |tiers| == |Sorted(data.tiers)| == |data.tiers|
      && tiers[i] == OfficialTier(RaisedTier(Sorted(data.tiers)[i], EffectiveDiscount(item)))
  {
    var d := EffectiveDiscount(item);
    OfficialForm(data.tiers, d);
    SortedPermutes(data.tiers);
    MapAt(Sorted(data.tiers), Raiser(d), i);
    MapAt(Map(Sorted(data.tiers), Raiser(d)), Officializer(), i);
  }

  predicate SixDecimalKind(override: Option<real>, base: real) {
    Round6(base) == base && (override.Some? ==> Round6(override.value) == override.value)
  }

  /** Stored prices have six decimals. */
  predicate SixDecimalTier(t: Tier) {
    && SixDecimalKind(t.sellingInput, t.inputPrice)
    && SixDecimalKind(t.sellingOutput, t.outputPrice)
    && SixDecimalKind(t.sellingThinking, t.thinkingPrice)
  }

  predicate TierMeetsFloor(sold: Tier, bought: Tier, d: real) {
    && (bought.inputPrice > 0.0 ==> MeetsFloor(sold.inputPrice, bought.inputPrice, d))
    && (bought.outputPrice > 0.0 ==> MeetsFloor(sold.outputPrice, bought.outputPrice, d))
    && (bought.thinkingPrice > 0.0 ==> MeetsFloor(sold.thinkingPrice, bought.thinkingPrice, d))
  }

  /** The official price when the override misses the floor, else the override, else the cost price. */
  function RewrittenPrice(override: Option<real>, base: real, d: real): real {
    if base > 0.0 && !(override.Some? && MeetsFloor(override.value, base, d)) then
      if Round6(base) > 0.0 then Round6(base) else base
    else if override.Some? && override.value > 0.0 then Round6(override.value)
    else base
  }

  lemma RewrittenPriceIs(override: Option<real>, base: real, d: real)
    requires 0.0 < d <= 1.0
    ensures OfficialPrice(RaisedOverride(override, base, d), base) == RewrittenPrice(override, base, d)
  {
    ShouldRaiseIff(if override.Some? then override.value else 0.0, base, d);
    Round6Twice(base);
  }

  predicate AllMeetFloor(sold: seq<Tier>, bought: seq<Tier>, d: real)
    requires |sold| == |bought|
  {
    forall i :: 0 <= i < |bought| ==> TierMeetsFloor(sold[i], bought[i], d)
  }

  /** Each price the tier is rewritten to meets the floor. */
  predicate RewrittenMeetsFloor(t: Tier, d: real) {
    && (t.inputPrice > 0.0 ==> MeetsFloor(RewrittenPrice(t.sellingInput, t.inputPrice, d), t.inputPrice, d))
    && (t.outputPrice > 0.0 ==> MeetsFloor(RewrittenPrice(t.sellingOutput, t.outputPrice, d), t.outputPrice, d))
    && (t.thinkingPrice > 0.0 ==>
          MeetsFloor(RewrittenPrice(t.sellingThinking, t.thinkingPrice, d), t.thinkingPrice, d))
  }

  /** For any number of decimals: whenever the tiers are rewritten, exactly those whose rewritten
      prices do meet the floor. */
  lemma RewrittenTiersMeetFloorIff(item: Item, column: Column, data: TiersData)
    requires DecodedCurrent(column) == Some(data) && OfficialSelling(item, column).Some?
    ensures |OfficialSelling(item, column).value.tiers| == |Sorted(data.tiers)| == |data.tiers|
    ensures
      var sold, bought, d := OfficialSelling(item, column).value.tiers, Sorted(data.tiers), EffectiveDiscount(item);
      && (forall i :: 0 <= i < |bought| ==>
            (TierMeetsFloor(sold[i], bought[i], d) <==> RewrittenMeetsFloor(bought[i], d)))
      && (AllMeetFloor(sold, bought, d) <==> forall i :: 0 <= i < |bought| ==> RewrittenMeetsFloor(bought[i], d))
  {
    var sold, bought, d := OfficialSelling(item, column).value.tiers, Sorted(data.tiers), EffectiveDiscount(item);
    DecodedCurrentNotEmpty(column);
    OfficialAt(item, column, data, 0);
    forall i: nat | i < |bought| ensures TierMeetsFloor(sold[i], bought[i], d) <==> RewrittenMeetsFloor(bought[i], d) {
      var t := bought[i];
      OfficialAt(item, column, data, i);
      RewrittenPriceIs(t.sellingInput, t.inputPrice, d);
      RewrittenPriceIs(t.sellingOutput, t.outputPrice, d);
      RewrittenPriceIs(t.sellingThinking, t.thinkingPrice, d);
    }
  }

  /** A price below its floor is rewritten to one that meets it unless the official price rounds down
      to one that is positive and leaves too little. */
  lemma RoundedOfficialMeetsFloorIff(override: Option<real>, base: real, d: real)
    requires 0.0 < d <= 1.0 && base > 0.0 && !(override.Some? && MeetsFloor(override.value, base, d))
    ensures MeetsFloor(RewrittenPrice(override, base, d), base, d)
      <==> !(0.0 < Round6(base) < base && Round6(base) - base * d < MIN_MARGIN * Round6(base))
  {
    Round6Sign(base);
  }

  /** A tier whose prices have a seventh decimal: its price falls below its override, and the floor. */
  lemma SeventhDecimalIsLowered() returns (column: Column, data: TiersData)
    ensures DecodedCurrent(column) == Some(data) && |data.tiers| == 1
    ensures data.tiers[0] == PlainTier(0, 1.0000004, 0.0).(sellingInput := Some(1.0000003))
    ensures OfficialSelling(PlainItem(1.0), column).Some?
    ensures
      var sold := OfficialSelling(PlainItem(1.0), column).value.tiers;
      && |sold| == 1 && sold[0].inputPrice == 1.0
      && !TierMeetsFloor(sold[0], data.tiers[0], EffectiveDiscount(PlainItem(1.0)))
  {
    data := TiersData([PlainTier(0, 1.0000004, 0.0).(sellingInput := Some(1.0000003))], "CNY", "", "");
    column := Encoded(data);
    EncodedReadsBack(data);
    SortedKeeps(data.tiers);
    ShouldRaiseIff(1.0000003, 1.0000004, 1.0);
    assert Round(1.0000004 * MICRO) == 1000000;
    assert RaisesTier(data.tiers[0], 1.0);
    RewrittenTiersMeetFloorIff(PlainItem(1.0), column, data);
    RewrittenPriceIs(Some(1.0000003), 1.0000004, 1.0);
    OfficialAt(PlainItem(1.0), column, data, 0);
  }

  lemma OfficialPriceMeetsFloor(override: Option<real>, base: real, d: real)
    requires 0.0 < d <= 1.0 && base > 0.0 && SixDecimalKind(override, base)
    ensures MeetsFloor(OfficialPrice(RaisedOverride(override, base, d), base), base, d)
  {
    ShouldRaiseIff(if override.Some? then override.value else 0.0, base, d);
  }

  /** Whenever the tiers are rewritten, every price in every tier meets the floor, over the same ranges. */
  lemma RewrittenTiersMeetFloor(item: Item, column: Column, data: TiersData, i: nat)
    requires DecodedCurrent(column) == Some(data) && OfficialSelling(item, column).Some? && i < |data.tiers|
    requires |Sorted(data.tiers)| == |data.tiers| && SixDecimalTier(Sorted(data.tiers)[i])
    ensures |OfficialSelling(item, column).value.tiers| == |data.tiers|
    ensures
      var sold, bought := OfficialSelling(item, column).value.tiers[i], Sorted(data.tiers)[i];
      TierMeetsFloor(sold, bought, EffectiveDiscount(item))
  {
    var t, d := Sorted(data.tiers)[i], EffectiveDiscount(item);
    OfficialAt(item, column, data, i);
    if t.inputPrice > 0.0 {
      OfficialPriceMeetsFloor(t.sellingInput, t.inputPrice, d);
    }
    if t.outputPrice > 0.0 {
      OfficialPriceMeetsFloor(t.sellingOutput, t.outputPrice, d);
    }
    if t.thinkingPrice > 0.0 {
      OfficialPriceMeetsFloor(t.sellingThinking, t.thinkingPrice, d);
    }
  }

  /** The cache prices of a rewritten tier are marked up like its input price; without an input price,
      before or after, they stay. */
  lemma OfficialCacheProportion(t: Tier)
    ensures
      var after := OfficialTier(t);
      if t.inputPrice > 0.0 && after.inputPrice > 0.0 then
        && SameProportion(after.cacheInputPrice, t.cacheInputPrice, after.inputPrice, t.inputPrice)
        && SameProportion(after.cacheWritePrice, t.cacheWritePrice, after.inputPrice, t.inputPrice)
      else after.cacheInputPrice == t.cacheInputPrice && after.cacheWritePrice == t.cacheWritePrice
  {
    var input := OfficialPrice(t.sellingInput, t.inputPrice);
    if t.inputPrice > 0.0 && input > 0.0 {
      CacheAtQuotient(t.cacheInputPrice, input, t.inputPrice);
      CacheAtQuotient(t.cacheWritePrice, input, t.inputPrice);
    }
  }

  lemma CacheAtQuotient(cache: real, sold: real, bought: real)
    requires bought > 0.0
    ensures SameProportion(Scaled(cache, sold / bought), cache, sold, bought)
  {
    var ratio := sold / bought;
    assert ratio * bought == sold;
    ScaledProportion(cache, ratio, sold, bought);
  }

  /** The rewritten tiers select as the cost tiers do, once those are in normal form. */
  lemma RewrittenTiersSelectAlike(item: Item, column: Column, data: TiersData, inputTokens: int, outputTokens: int)
    requires DecodedCurrent(column) == Some(data) && OfficialSelling(item, column).Some?
    ensures Selected(OfficialSelling(item, column).value.tiers, inputTokens, outputTokens)
      == Selected(Marshalled(data.tiers), inputTokens, outputTokens)
  {
    var tiers, sorted := OfficialSelling(item, column).value.tiers, Sorted(data.tiers);
    assert forall t :: SameKey(Normalizer()(t), t);
    SortedMap(data.tiers, Normalizer());
    DecodedCurrentNotEmpty(column);
    OfficialAt(item, column, data, 0);
    MapLength(sorted, Normalizer());
    forall i: nat | i < |tiers|
      ensures tiers[i].input == Marshalled(data.tiers)[i].input && tiers[i].output == Marshalled(data.tiers)[i].output
    {
      OfficialAt(item, column, data, i);
      MapAt(sorted, Normalizer(), i);
    }
    SelectionByRanges(tiers, Marshalled(data.tiers), inputTokens, outputTokens);
  }

  // Read in the current format, a tier of the old one has no prices.
  lemma UnpricedTiersAreLeft(item: Item, column: Column, data: TiersData)
    requires DecodedCurrent(column) == Some(data)
    requires forall i :: 0 <= i < |data.tiers| ==>
      data.tiers[i].inputPrice <= 0.0 && data.tiers[i].outputPrice <= 0.0 && data.tiers[i].thinkingPrice <= 0.0
    ensures OfficialSelling(item, column) == None
  {
  }
}
