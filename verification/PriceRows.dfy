/**
  The rows the price migrations work on: ai_models with their model_pricings, and the JSON
  columns that hold price tiers in one of several shapes.
*/
module PriceRows {
  import opened Common
  import opened PriceTier
  import opened LegacyTiers

  /** One element of a stored tier list: the fields of both formats, zero where absent. */
  datatype RawTier = RawTier(
    tier: Tier,
    caption: string,
    minInputTokens: int,
    maxInputTokens: int,
    inputPriceRmb: real,
    outputPriceRmb: real,
    cacheReadRmb: real,
    cacheWriteRmb: real)

  /** A price_tiers column: nothing usable, a bare list, or a list with its currency and source. */
  datatype Column =
    | Absent
    | Bare(tiers: seq<RawTier>)
    | Wrapped(tiers: seq<RawTier>, currency: string, unitLabel: string, sourceURL: string)

  datatype Item = Item(
    inputCost: real,
    outputCost: real,
    thinkingCost: real,
    cacheInputPrice: real,
    cacheWritePrice: real,
    supportsCache: bool,
    currency: string,
    discount: real,
    supplierDiscount: real)

  datatype Pricing = Pricing(
    inputPrice: real,
    outputPrice: real,
    thinkingPrice: real,
    inputPerToken: int,
    outputPerToken: int,
    thinkingPerToken: int,
    currency: string,
    tiers: Column)

  datatype Row = Row(item: Item, priceTiers: Column, pricing: Option<Pricing>)

  const NO_PRICING := Pricing(0.0, 0.0, 0.0, 0, 0, 0, "", Absent)

  // ---------- JSON ----------

  predicate HasLegacyFields(t: RawTier) {
    || t.inputPriceRmb > 0.0 || t.outputPriceRmb > 0.0
    || t.cacheReadRmb > 0.0 || t.cacheWriteRmb > 0.0
    || t.maxInputTokens > 0
  }

  predicate IsLegacy(tiers: seq<RawTier>) {
    exists i :: 0 <= i < |tiers| && HasLegacyFields(tiers[i])
  }

  function AsLegacy(tiers: seq<RawTier>): seq<LegacyTier> {
    if tiers == [] then []
    else
      var t := tiers[0];
      var max := if t.tier.input.max.Some? then t.tier.input.max.value else 0;
      [LegacyTier(t.tier.name, t.caption, t.tier.input.min, max, t.minInputTokens, t.maxInputTokens,
                  t.inputPriceRmb, t.outputPriceRmb, t.cacheReadRmb, t.cacheWriteRmb)] + AsLegacy(tiers[1..])
  }

  function AsTiers(tiers: seq<RawTier>): seq<Tier> {
    if tiers == [] then [] else [tiers[0].tier] + AsTiers(tiers[1..])
  }

  function AsRaw(tiers: seq<Tier>): seq<RawTier> {
    if tiers == [] then [] else [RawTier(tiers[0], "", 0, 0, 0.0, 0.0, 0.0, 0.0)] + AsRaw(tiers[1..])
  }

  function Encoded(data: TiersData): Column {
    Wrapped(AsRaw(data.tiers), data.currency, data.unitLabel, data.sourceURL)
  }

  function DecodedLegacy(tiers: seq<RawTier>, currency: string, unitLabel: string, sourceURL: string): TiersData {
    TiersData(Sorted(Decoded(AsLegacy(tiers))), FirstNonBlank(currency, "CNY", ""), unitLabel, sourceURL)
  }

  /** priceAccuracyDecodeTiers: only the current format. */
  function DecodedCurrent(column: Column): Option<TiersData> {
    match column
    case Absent => None
    case Bare(tiers) => if tiers == [] then None else Some(TiersData(AsTiers(tiers), "CNY", "", ""))
    case Wrapped(tiers, currency, unit, url) =>
      if tiers == [] then None else Some(TiersData(AsTiers(tiers), currency, unit, url))
  }

  /** decodeSyncPriceTiers: the old format first, then the current one. */
  function DecodedSync(column: Column): Option<TiersData> {
    if column.Wrapped? && IsLegacy(column.tiers) then
      Some(DecodedLegacy(column.tiers, column.currency, column.unitLabel, column.sourceURL))
    else if column.Bare? && IsLegacy(column.tiers) then
      Some(DecodedLegacy(column.tiers, "CNY", "", ""))
    else DecodedCurrent(column)
  }

  lemma {:induction false} AsRawReadsBack(tiers: seq<Tier>)
    ensures AsTiers(AsRaw(tiers)) == tiers && |AsRaw(tiers)| == |tiers|
    ensures !IsLegacy(AsRaw(tiers))
  {
    if tiers != [] {
      var raw := AsRaw(tiers);
      AsRawReadsBack(tiers[1..]);
      assert raw[1..] == AsRaw(tiers[1..]);
      forall i | 0 <= i < |raw| ensures !HasLegacyFields(raw[i]) {
        assert i > 0 ==> raw[i] == AsRaw(tiers[1..])[i - 1];
      }
    }
  }

  lemma {:induction false} AsTiersLength(tiers: seq<RawTier>)
    ensures |AsTiers(tiers)| == |tiers|
  {
    if tiers != [] {
      AsTiersLength(tiers[1..]);
    }
  }

  lemma {:induction false} AsLegacyLength(tiers: seq<RawTier>)
    ensures |AsLegacy(tiers)| == |tiers|
  {
    if tiers != [] {
      AsLegacyLength(tiers[1..]);
    }
  }

  /** What a migration has written is read back as it was, and never mistaken for the old format. */
  lemma EncodedReadsBack(data: TiersData)
    requires data.tiers != []
    ensures DecodedSync(Encoded(data)) == DecodedCurrent(Encoded(data)) == Some(data)
  {
    AsRawReadsBack(data.tiers);
  }

  lemma EncodedInjective(a: TiersData, b: TiersData)
    requires Encoded(a) == Encoded(b)
    ensures a == b
  {
    AsRawReadsBack(a.tiers);
    AsRawReadsBack(b.tiers);
  }

  lemma DecodedSyncNotEmpty(column: Column)
    ensures DecodedSync(column).Some? ==> DecodedSync(column).value.tiers != []
  {
    if column.Wrapped? || column.Bare? {
      AsTiersLength(column.tiers);
      AsLegacyLength(column.tiers);
      DecodedLength(AsLegacy(column.tiers));
      SortedPermutes(Decoded(AsLegacy(column.tiers)));
    }
  }

  lemma DecodedCurrentNotEmpty(column: Column)
    ensures DecodedCurrent(column).Some? ==> DecodedCurrent(column).value.tiers != []
  {
    if column.Wrapped? || column.Bare? {
      AsTiersLength(column.tiers);
    }
  }

  lemma {:induction false} AsLegacyAt(tiers: seq<RawTier>, i: nat)
    requires i < |tiers|
    ensures |AsLegacy(tiers)| == |tiers|
    ensures
      var t, legacy := tiers[i], AsLegacy(tiers)[i];
      && legacy.name == t.tier.name && legacy.caption == t.caption
      && legacy.inputMin == t.tier.input.min && (t.tier.input.max == Some(legacy.inputMax)
                                                 || (t.tier.input.max == None && legacy.inputMax == 0))
      && legacy.minInputTokens == t.minInputTokens && legacy.maxInputTokens == t.maxInputTokens
      && legacy.inputPrice == t.inputPriceRmb && legacy.outputPrice == t.outputPriceRmb
      && legacy.cacheRead == t.cacheReadRmb && legacy.cacheWrite == t.cacheWriteRmb
  {
    AsLegacyLength(tiers);
    if i > 0 {
      AsLegacyAt(tiers[1..], i - 1);
    }
  }

  /** Tier i of a list in the old format, before sorting: its own four prices, and nothing else. */
  predicate DecodedFrom(t: Tier, raw: RawTier) {
    && t.inputPrice == raw.inputPriceRmb && t.outputPrice == raw.outputPriceRmb && t.thinkingPrice == 0.0
    && t.cacheInputPrice == raw.cacheReadRmb && t.cacheWritePrice == raw.cacheWriteRmb
    && t.sellingInput == None && t.sellingOutput == None && t.sellingThinking == None
    && (!Blank(raw.tier.name) ==> t.name == raw.tier.name)
    && (Blank(raw.tier.name) && !Blank(raw.caption) ==> t.name == raw.caption)
  }

  lemma DecodedFromRaw(tiers: seq<RawTier>, i: nat)
    requires i < |tiers|
    ensures |Decoded(AsLegacy(tiers))| == |tiers| && DecodedFrom(Decoded(AsLegacy(tiers))[i], tiers[i])
  {
    AsLegacyAt(tiers, i);
    DecodedAt(AsLegacy(tiers), i);
  }

  lemma DefaultCurrency(currency: string)
    ensures FirstNonBlank(currency, "CNY", "") == if Blank(currency) then "CNY" else currency
  {
    var cny := "CNY";
    assert cny[0] !in SPACES;
    assert !Blank(cny);
  }

  /** One of the five fields by which the old format is told. */
  predicate SetsLegacyField(t: RawTier) {
    !(t.inputPriceRmb <= 0.0 && t.outputPriceRmb <= 0.0 && t.cacheReadRmb <= 0.0 && t.cacheWriteRmb <= 0.0
      && t.maxInputTokens <= 0)
  }

  /** A column in the old format is decoded as such: sorted, and with its currency, unit and source. */
  lemma LegacyColumn(column: Column)
    requires !column.Absent? && exists i :: 0 <= i < |column.tiers| && SetsLegacyField(column.tiers[i])
    ensures DecodedSync(column).Some? && DecodedSync(column).value.tiers == Sorted(Decoded(AsLegacy(column.tiers)))
    ensures
      var data := DecodedSync(column).value;
      if column.Bare? then data.currency == "CNY" && data.unitLabel == "" && data.sourceURL == ""
      else
        && data.currency == (if Blank(column.currency) then "CNY" else column.currency)
        && data.unitLabel == column.unitLabel && data.sourceURL == column.sourceURL
  {
    var i: nat :| i < |column.tiers| && SetsLegacyField(column.tiers[i]);
    assert HasLegacyFields(column.tiers[i]);
    match column
    case Bare(_) => DefaultCurrency("CNY");
    case Wrapped(_, currency, _, _) => DefaultCurrency(currency);
  }

  lemma AllDecodedFromRaw(raw: seq<RawTier>)
    ensures |Decoded(AsLegacy(raw))| == |raw|
    ensures forall i :: 0 <= i < |raw| ==> DecodedFrom(Decoded(AsLegacy(raw))[i], raw[i])
  {
    AsLegacyLength(raw);
    DecodedLength(AsLegacy(raw));
    forall i: nat | i < |raw| ensures DecodedFrom(Decoded(AsLegacy(raw))[i], raw[i]) {
      DecodedFromRaw(raw, i);
    }
  }

  /** Each of its tiers keeps its prices, up to the order of the tiers. */
  lemma LegacyFieldsAreKept(column: Column) returns (tiers: seq<Tier>)
    requires !column.Absent? && exists i :: 0 <= i < |column.tiers| && SetsLegacyField(column.tiers[i])
    ensures DecodedSync(column).Some? && multiset(DecodedSync(column).value.tiers) == multiset(tiers)
    ensures |tiers| == |column.tiers| && forall i :: 0 <= i < |tiers| ==> DecodedFrom(tiers[i], column.tiers[i])
  {
    tiers := Decoded(AsLegacy(column.tiers));
    LegacyColumn(column);
    SortedPermutes(tiers);
    AllDecodedFromRaw(column.tiers);
  }

  lemma {:induction false} AsTiersAt(tiers: seq<RawTier>, i: nat)
    requires i < |tiers|
    ensures |AsTiers(tiers)| == |tiers| && AsTiers(tiers)[i] == tiers[i].tier
  {
    if i > 0 {
      AsTiersAt(tiers[1..], i - 1);
    }
    AsTiersLength(tiers);
  }

  /** One in the current format is read as it stands; it is the current format when no tier sets a field
      of the old one, and for the accuracy step in any case. */
  lemma CurrentFieldsAreKept(column: Column)
    requires !column.Absent? && column.tiers != []
    ensures DecodedCurrent(column).Some? && |DecodedCurrent(column).value.tiers| == |column.tiers|
    ensures forall i :: 0 <= i < |column.tiers| ==> DecodedCurrent(column).value.tiers[i] == column.tiers[i].tier
    ensures
      var data := DecodedCurrent(column).value;
      if column.Bare? then data.currency == "CNY" && data.unitLabel == "" && data.sourceURL == ""
      else data.currency == column.currency && data.unitLabel == column.unitLabel && data.sourceURL == column.sourceURL
    ensures (forall i :: 0 <= i < |column.tiers| ==> !SetsLegacyField(column.tiers[i]))
      ==> DecodedSync(column) == DecodedCurrent(column)
  {
    AsTiersLength(column.tiers);
    forall i: nat | i < |column.tiers| ensures AsTiers(column.tiers)[i] == column.tiers[i].tier {
      AsTiersAt(column.tiers, i);
    }
  }

  /** A written tier sets no field of the old format. */
  lemma {:induction false} WrittenTier(tiers: seq<Tier>, i: nat)
    requires i < |tiers|
    ensures |AsRaw(tiers)| == |tiers|
    ensures
      var raw := AsRaw(tiers)[i];
      && raw.tier == tiers[i] && raw.caption == "" && raw.minInputTokens == raw.maxInputTokens == 0
      && raw.inputPriceRmb == raw.outputPriceRmb == raw.cacheReadRmb == raw.cacheWriteRmb == 0.0
  {
    AsRawReadsBack(tiers);
    if i > 0 {
      WrittenTier(tiers[1..], i - 1);
    }
  }

  // ---------- Writing a list of tiers ----------

  function Normalizer(): Tier -> Tier {
    (t: Tier) => Normalized(t)
  }

  /** marshalPriceTiersData and priceAccuracyMarshalTiers, up to the text. */
  function Marshalled(tiers: seq<Tier>): seq<Tier> {
    Sorted(Map(tiers, Normalizer()))
  }

  predicate Tidy(tiers: seq<Tier>) {
    InOrder(tiers) && forall i :: 0 <= i < |tiers| ==> Normalized(tiers[i]) == tiers[i]
  }

  lemma {:induction false} MapKeeps(s: seq<Tier>, f: Tier -> Tier)
    requires forall i :: 0 <= i < |s| ==> f(s[i]) == s[i]
    ensures Map(s, f) == s
  {
    if s != [] {
      MapKeeps(s[1..], f);
      assert s == [s[0]] + s[1..];
    }
  }

  lemma MarshalledKeeps(tiers: seq<Tier>)
    requires Tidy(tiers)
    ensures Marshalled(tiers) == tiers && Sorted(tiers) == tiers
  {
    MapKeeps(tiers, Normalizer());
    SortedKeeps(tiers);
  }

  /** A tier-by-tier change that keeps keys and normal form keeps a tidy list tidy. */
  lemma MapTidy(s: seq<Tier>, f: Tier -> Tier)
    requires InOrder(s)
    requires forall t :: SameKey(f(t), t)
    requires forall i :: 0 <= i < |s| ==> Normalized(f(s[i])) == f(s[i])
    ensures Tidy(Map(s, f))
  {
    MapInOrder(s, f);
    MapLength(s, f);
    forall i: nat | i < |s| ensures Normalized(Map(s, f)[i]) == Map(s, f)[i] {
      MapAt(s, f, i);
    }
  }

  lemma MapIs(s: seq<Tier>, f: Tier -> Tier, t: seq<Tier>)
    requires |t| == |s| && forall i :: 0 <= i < |s| ==> t[i] == f(s[i])
    ensures t == Map(s, f)
  {
    MapLength(s, f);
    forall i: nat | i < |s| ensures t[i] == Map(s, f)[i] {
      MapAt(s, f, i);
    }
  }

  method NormalizeTiers(tiers: array<Tier>)
    modifies tiers
    ensures tiers[..] == Marshalled(old(tiers[..]))
  {
    ghost var was := tiers[..];
    for i := 0 to tiers.Length
      invariant forall k :: 0 <= k < i ==> tiers[k] == Normalizer()(was[k])
      invariant forall k :: i <= k < tiers.Length ==> tiers[k] == was[k]
    {
      tiers[i] := Normalized(tiers[i]);
    }
    MapIs(was, Normalizer(), tiers[..]);
    SortTiers(tiers);
  }
}
