/**
  Decoding of the old tier format: legacySyncTiersToData of
  internal/database/migrate_price_tier_selling_sync.go.
*/
module LegacyTiers {
  import opened Common
  import opened PriceTier

  datatype LegacyTier = LegacyTier(
    name: string,
    caption: string,    // "label"
    inputMin: int,
    inputMax: int,
    minInputTokens: int,
    maxInputTokens: int,
    inputPrice: real,
    outputPrice: real,
    cacheRead: real,
    cacheWrite: real)

  /** The largest input of a tier; not positive when it has none. */
  function MaxOf(legacy: LegacyTier): int {
    if legacy.maxInputTokens > 0 then legacy.maxInputTokens else legacy.inputMax
  }

  function ExplicitMin(legacy: LegacyTier): int {
    if legacy.minInputTokens > 0 then legacy.minInputTokens else legacy.inputMin
  }

  /** The maximum of the last tier that has one. */
  function PreviousMax(tiers: seq<LegacyTier>): int {
    if tiers == [] then 0
    else if MaxOf(tiers[|tiers| - 1]) > 0 then MaxOf(tiers[|tiers| - 1])
    else PreviousMax(tiers[..|tiers| - 1])
  }

  function DecodedTier(legacy: LegacyTier, first: bool, previousMax: int): Tier {
    var explicit := ExplicitMin(legacy);
    var min := if explicit == 0 && !first && previousMax > 0 then previousMax else explicit;
    var max := if MaxOf(legacy) > 0 then Some(MaxOf(legacy)) else None;
    Normalized(Tier(FirstNonBlank(legacy.name, legacy.caption, ""), "", map[],
                    Range(min, !first && min > 0, max, false), Range(0, true, None, false),
                    legacy.inputPrice, legacy.outputPrice, legacy.cacheRead, legacy.cacheWrite, 0.0, None, None, None))
  }

  function Decoded(tiers: seq<LegacyTier>): seq<Tier> {
    if tiers == [] then []
    else
      var before := tiers[..|tiers| - 1];
      Decoded(before) + [DecodedTier(tiers[|tiers| - 1], before == [], PreviousMax(before))]
  }

  method LegacySyncTiersToData(tiers: seq<LegacyTier>, currency: string, unitLabel: string, sourceURL: string)
    returns (data: TiersData)
    ensures data == TiersData(Sorted(Decoded(tiers)), FirstNonBlank(currency, "CNY", ""), unitLabel, sourceURL)
  {
    var out: seq<Tier> := [];
    var previousMax := 0;
    for i := 0 to |tiers|
      invariant out == Decoded(tiers[..i])
      invariant previousMax == PreviousMax(tiers[..i])
    {
      var legacy := tiers[i];
      var name := FirstNonBlank(legacy.name, legacy.caption, "");
      var min := legacy.inputMin;
      if legacy.minInputTokens > 0 {
        min := legacy.minInputTokens;
      }
      if min == 0 && i > 0 && previousMax > 0 {
        min := previousMax;
      }
      var max := legacy.inputMax;
      if legacy.maxInputTokens > 0 {
        max := legacy.maxInputTokens;
      }
      var tier := Tier(name, "", map[], Range(min, i > 0 && min > 0, None, false), Range(0, true, None, false),
                       legacy.inputPrice, legacy.outputPrice, legacy.cacheRead, legacy.cacheWrite, 0.0,
                       None, None, None);
      assert tiers[..i + 1][..i] == tiers[..i];
      if max > 0 {
        tier := tier.(input := tier.input.(max := Some(max)));
        previousMax := max;
      }
      tier := Normalized(tier);
      out := out + [tier];
    }
    assert tiers[..|tiers|] == tiers;
    data := TiersData(Sorted(out), FirstNonBlank(currency, "CNY", ""), unitLabel, sourceURL);
  }

  // ---------- What the decoded ranges cover ----------

  /** No explicit minimums, a maximum on every tier but the last, and none on the last. */
  predicate Chain(tiers: seq<LegacyTier>) {
    && tiers != []
    && (forall i :: 0 <= i < |tiers| ==> ExplicitMin(tiers[i]) == 0)
    && (forall i :: 0 <= i < |tiers| - 1 ==> MaxOf(tiers[i]) > 0)
    && MaxOf(tiers[|tiers| - 1]) <= 0
  }

  predicate MaximaDoNotFall(tiers: seq<LegacyTier>) {
    forall i, j :: 0 <= i < j < |tiers| - 1 ==> MaxOf(tiers[i]) <= MaxOf(tiers[j])
  }

  /** How many tiers a request falls into. */
  function MatchCount(tiers: seq<Tier>, inputTokens: int, outputTokens: int): nat {
    if tiers == [] then 0
    else
      var first := if Matches(tiers[0], inputTokens, outputTokens) then 1 else 0;
      first + MatchCount(tiers[1..], inputTokens, outputTokens)
  }

  ghost predicate CoversEveryCountOnce(tiers: seq<Tier>) {
    forall inputTokens: nat, outputTokens: nat :: outputTokens > 0 ==> MatchCount(tiers, inputTokens, outputTokens) == 1
  }

  /** The first tier, from `i` on, whose maximum the input does not exceed. */
  function FirstFit(tiers: seq<LegacyTier>, inputTokens: nat, i: nat): (fit: nat)
    requires i < |tiers|
    ensures i <= fit < |tiers|
    ensures fit == |tiers| - 1 || inputTokens <= MaxOf(tiers[fit])
    decreases |tiers| - i
  {
    if i == |tiers| - 1 || inputTokens <= MaxOf(tiers[i]) then i else FirstFit(tiers, inputTokens, i + 1)
  }

  predicate Covers(tiers: seq<LegacyTier>, i: nat, inputTokens: nat)
    requires i < |tiers|
  {
    && (i == 0 || inputTokens > MaxOf(tiers[i - 1]))
    && (i == |tiers| - 1 || inputTokens <= MaxOf(tiers[i]))
  }

  lemma {:induction false} DecodedAt(tiers: seq<LegacyTier>, i: nat)
    requires i < |tiers|
    ensures |Decoded(tiers)| == |tiers|
    ensures Decoded(tiers)[i] == DecodedTier(tiers[i], i == 0, PreviousMax(tiers[..i]))
  {
    var before := tiers[..|tiers| - 1];
    if i < |tiers| - 1 {
      DecodedAt(before, i);
      assert before[..i] == tiers[..i];
    } else if before != [] {
      DecodedAt(before, 0);
    }
  }

  lemma DecodedMatchesIff(tiers: seq<LegacyTier>, i: nat, inputTokens: nat, outputTokens: nat)
    requires Chain(tiers) && i < |tiers|
    ensures |Decoded(tiers)| == |tiers|
    ensures Matches(Decoded(tiers)[i], inputTokens, outputTokens) <==> outputTokens > 0 && Covers(tiers, i, inputTokens)
  {
    DecodedAt(tiers, i);
    if i > 0 {
      assert tiers[..i][i - 1] == tiers[i - 1];
    }
  }

  lemma {:induction false} NoMatches(tiers: seq<Tier>, inputTokens: int, outputTokens: int)
    requires forall i :: 0 <= i < |tiers| ==> !Matches(tiers[i], inputTokens, outputTokens)
    ensures MatchCount(tiers, inputTokens, outputTokens) == 0
  {
    if tiers != [] {
      assert !Matches(tiers[0], inputTokens, outputTokens);
      NoMatches(tiers[1..], inputTokens, outputTokens);
    }
  }

  lemma {:induction false} OneMatch(tiers: seq<Tier>, k: nat, inputTokens: int, outputTokens: int)
    requires k < |tiers|
    requires forall i :: 0 <= i < |tiers| ==> (Matches(tiers[i], inputTokens, outputTokens) <==> i == k)
    ensures MatchCount(tiers, inputTokens, outputTokens) == 1
  {
    assert Matches(tiers[0], inputTokens, outputTokens) <==> 0 == k;
    if k == 0 {
      NoMatches(tiers[1..], inputTokens, outputTokens);
    } else {
      OneMatch(tiers[1..], k - 1, inputTokens, outputTokens);
    }
  }

  lemma {:induction false} SomeMatch(tiers: seq<Tier>, k: nat, inputTokens: int, outputTokens: int)
    requires k < |tiers| && Matches(tiers[k], inputTokens, outputTokens)
    ensures MatchCount(tiers, inputTokens, outputTokens) >= 1
  {
    if k > 0 {
      SomeMatch(tiers[1..], k - 1, inputTokens, outputTokens);
    }
  }

  lemma {:induction false} TwoMatches(tiers: seq<Tier>, a: nat, b: nat, inputTokens: int, outputTokens: int)
    requires a < b < |tiers|
    requires Matches(tiers[a], inputTokens, outputTokens) && Matches(tiers[b], inputTokens, outputTokens)
    ensures MatchCount(tiers, inputTokens, outputTokens) >= 2
  {
    if a == 0 {
      SomeMatch(tiers[1..], b - 1, inputTokens, outputTokens);
    } else {
      TwoMatches(tiers[1..], a - 1, b - 1, inputTokens, outputTokens);
    }
  }

  lemma {:induction false} InsertedMatchCount(t: Tier, s: seq<Tier>, inputTokens: int, outputTokens: int)
    ensures MatchCount(Inserted(t, s), inputTokens, outputTokens) == MatchCount([t] + s, inputTokens, outputTokens)
  {
    assert ([t] + s)[1..] == s;
    if s != [] && Before(s[0], t) {
      InsertedMatchCount(t, s[1..], inputTokens, outputTokens);
      assert ([t] + s[1..])[1..] == s[1..];
      assert ([s[0]] + Inserted(t, s[1..]))[1..] == Inserted(t, s[1..]);
    }
  }

  lemma {:induction false} SortedMatchCount(s: seq<Tier>, inputTokens: int, outputTokens: int)
    ensures MatchCount(Sorted(s), inputTokens, outputTokens) == MatchCount(s, inputTokens, outputTokens)
  {
    if s != [] {
      SortedMatchCount(s[1..], inputTokens, outputTokens);
      InsertedMatchCount(s[0], Sorted(s[1..]), inputTokens, outputTokens);
      assert ([s[0]] + Sorted(s[1..]))[1..] == Sorted(s[1..]);
    }
  }

  lemma {:induction false} FirstFitIsFirst(tiers: seq<LegacyTier>, inputTokens: nat, i: nat, k: nat)
    requires i <= k < |tiers| && inputTokens <= MaxOf(tiers[k])
    ensures FirstFit(tiers, inputTokens, i) <= k
    decreases k - i
  {
    if i < k && inputTokens > MaxOf(tiers[i]) {
      FirstFitIsFirst(tiers, inputTokens, i + 1, k);
    }
  }

  lemma {:induction false} FirstFitCovers(tiers: seq<LegacyTier>, inputTokens: nat, i: nat)
    requires i < |tiers|
    requires i == 0 || inputTokens > MaxOf(tiers[i - 1])
    ensures Covers(tiers, FirstFit(tiers, inputTokens, i), inputTokens)
    decreases |tiers| - i
  {
    if i < |tiers| - 1 && inputTokens > MaxOf(tiers[i]) {
      FirstFitCovers(tiers, inputTokens, i + 1);
    }
  }

  lemma CoversOnlyFirstFit(tiers: seq<LegacyTier>, i: nat, inputTokens: nat)
    requires Chain(tiers) && MaximaDoNotFall(tiers) && i < |tiers|
    ensures Covers(tiers, i, inputTokens) <==> i == FirstFit(tiers, inputTokens, 0)
  {
    var fit := FirstFit(tiers, inputTokens, 0);
    FirstFitCovers(tiers, inputTokens, 0);
    if i > fit {
      assert MaxOf(tiers[fit]) <= MaxOf(tiers[i - 1]);
    } else if i < fit && inputTokens <= MaxOf(tiers[i]) {
      FirstFitIsFirst(tiers, inputTokens, 0, i);
    }
  }

  lemma DecodedMatchesOnlyFirstFit(tiers: seq<LegacyTier>, inputTokens: nat, outputTokens: nat)
    requires Chain(tiers) && MaximaDoNotFall(tiers) && outputTokens > 0
    ensures |Decoded(tiers)| == |tiers|
    ensures forall i :: 0 <= i < |tiers| ==>
      (Matches(Decoded(tiers)[i], inputTokens, outputTokens) <==> i == FirstFit(tiers, inputTokens, 0))
  {
    DecodedAt(tiers, 0);
    forall i: nat | i < |tiers|
      ensures Matches(Decoded(tiers)[i], inputTokens, outputTokens) <==> i == FirstFit(tiers, inputTokens, 0)
    {
      DecodedMatchesIff(tiers, i, inputTokens, outputTokens);
      CoversOnlyFirstFit(tiers, i, inputTokens);
    }
  }

  lemma CoveredTwice(tiers: seq<LegacyTier>, a: nat, b: nat, inputTokens: nat)
    requires Chain(tiers) && a < b < |tiers|
    requires Covers(tiers, a, inputTokens) && Covers(tiers, b, inputTokens)
    ensures MatchCount(Decoded(tiers), inputTokens, 1) >= 2
  {
    DecodedMatchesIff(tiers, a, inputTokens, 1);
    DecodedMatchesIff(tiers, b, inputTokens, 1);
    TwoMatches(Decoded(tiers), a, b, inputTokens, 1);
  }

  // An input as large as the higher, earlier maximum fits a tier up to it and again one after the fall.
  lemma FallingMaximaCoverTwice(tiers: seq<LegacyTier>, i: nat, j: nat)
    requires Chain(tiers) && i < j < |tiers| - 1 && MaxOf(tiers[i]) > MaxOf(tiers[j])
    ensures MaxOf(tiers[i]) >= 0 && MatchCount(Decoded(tiers), MaxOf(tiers[i]), 1) >= 2
  {
    var v: nat := MaxOf(tiers[i]);
    FirstFitCovers(tiers, v, 0);
    FirstFitIsFirst(tiers, v, 0, i);
    FirstFitCovers(tiers, v, j + 1);
    var a, b := FirstFit(tiers, v, 0), FirstFit(tiers, v, j + 1);
    assert a <= i < b;
    CoveredTwice(tiers, a, b, v);
  }

  /**
    The decoded ranges cover every token count exactly once precisely when the maxima, in the
    order they are listed, never fall.
  */
  lemma CoversEveryCountOnceIff(tiers: seq<LegacyTier>)
    requires Chain(tiers)
    ensures CoversEveryCountOnce(Sorted(Decoded(tiers))) <==> MaximaDoNotFall(tiers)
  {
    if MaximaDoNotFall(tiers) {
      forall inputTokens: nat, outputTokens: nat | outputTokens > 0
        ensures MatchCount(Sorted(Decoded(tiers)), inputTokens, outputTokens) == 1
      {
        DecodedMatchesOnlyFirstFit(tiers, inputTokens, outputTokens);
        OneMatch(Decoded(tiers), FirstFit(tiers, inputTokens, 0), inputTokens, outputTokens);
        SortedMatchCount(Decoded(tiers), inputTokens, outputTokens);
      }
    } else {
      var i: nat, j: nat :| i < j < |tiers| - 1 && MaxOf(tiers[i]) > MaxOf(tiers[j]);
      FallingMaximaCoverTwice(tiers, i, j);
      SortedMatchCount(Decoded(tiers), MaxOf(tiers[i]), 1);
    }
  }

  lemma DecodedInOrder(tiers: seq<LegacyTier>)
    requires Chain(tiers) && MaximaDoNotFall(tiers)
    ensures Sorted(Decoded(tiers)) == Decoded(tiers)
  {
    DecodedAt(tiers, 0);
    forall i: nat, j: nat | i < j < |Decoded(tiers)| ensures !Before(Decoded(tiers)[j], Decoded(tiers)[i]) {
      DecodedAt(tiers, i);
      DecodedAt(tiers, j);
      assert tiers[..j][j - 1] == tiers[j - 1];
      assert i > 0 ==> tiers[..i][i - 1] == tiers[i - 1];
    }
    SortedKeeps(Decoded(tiers));
  }

  /** Each request is billed at the first listed tier whose maximum it does not exceed. */
  lemma SelectsFirstFit(tiers: seq<LegacyTier>, inputTokens: nat, outputTokens: nat)
    requires Chain(tiers) && MaximaDoNotFall(tiers) && outputTokens > 0
    ensures Selected(Sorted(Decoded(tiers)), inputTokens, outputTokens) == FirstFit(tiers, inputTokens, 0)
  {
    DecodedInOrder(tiers);
    DecodedMatchesOnlyFirstFit(tiers, inputTokens, outputTokens);
    SelectedFirst(Decoded(tiers), FirstFit(tiers, inputTokens, 0), inputTokens, outputTokens);
  }

  /** The output range starts above zero, so a request without output falls into no tier at all. */
  lemma NoOutputNoTier(tiers: seq<LegacyTier>, inputTokens: int)
    ensures Selected(Sorted(Decoded(tiers)), inputTokens, 0) == -1
  {
    SortedPermutes(Decoded(tiers));
    forall k | 0 <= k < |Sorted(Decoded(tiers))| ensures !Matches(Sorted(Decoded(tiers))[k], inputTokens, 0) {
      var t := Sorted(Decoded(tiers))[k];
      assert t in multiset(Decoded(tiers));
      var i: nat :| i < |Decoded(tiers)| && Decoded(tiers)[i] == t;
      DecodedLength(tiers);
      DecodedAt(tiers, i);
    }
    SelectedNone(Sorted(Decoded(tiers)), inputTokens, 0);
  }

  lemma {:induction false} DecodedLength(tiers: seq<LegacyTier>)
    ensures |Decoded(tiers)| == |tiers|
  {
    if tiers != [] {
      DecodedLength(tiers[..|tiers| - 1]);
    }
  }

  // ---------- Lists of any shape ----------

  /** First count of a range, and the first past it. */
  function RangeStart(r: Range): int {
    if r.minExclusive then r.min + 1 else r.min
  }

  function RangeEnd(r: Range): Option<int> {
    if r.max.None? then None else Some(if r.maxExclusive then r.max.value else r.max.value + 1)
  }

  /** The places where coverage may change: 0, and where a range starts or has ended. */
  predicate IsEdge(tiers: seq<Tier>, v: int) {
    v == 0 || exists i :: 0 <= i < |tiers| && (v == RangeStart(tiers[i].input) || Some(v) == RangeEnd(tiers[i].input))
  }

  lemma {:induction false} NoChangeOffEdges(tiers: seq<Tier>, v: nat, outputTokens: int)
    requires v > 0 && !IsEdge(tiers, v)
    ensures MatchCount(tiers, v, outputTokens) == MatchCount(tiers, v - 1, outputTokens)
  {
    if tiers != [] {
      var t := tiers[0];
      assert v != RangeStart(t.input) && Some(v) != RangeEnd(t.input);
      assert InRange(v, t.input) == InRange(v - 1, t.input);
      assert forall i :: 0 <= i < |tiers[1..]| ==> tiers[1..][i] == tiers[i + 1];
      NoChangeOffEdges(tiers[1..], v, outputTokens);
    }
  }

  lemma {:induction false} OutputsAlike(tiers: seq<Tier>, v: int, w: nat)
    requires w > 0 && forall i :: 0 <= i < |tiers| ==> tiers[i].output == Range(0, true, None, false)
    ensures MatchCount(tiers, v, w) == MatchCount(tiers, v, 1)
  {
    if tiers != [] {
      assert tiers[0].output == Range(0, true, None, false);
      OutputsAlike(tiers[1..], v, w);
    }
  }

  ghost predicate CoversEdgesOnce(tiers: seq<Tier>) {
    forall v: nat :: IsEdge(tiers, v) ==> MatchCount(tiers, v, 1) == 1
  }

  lemma {:induction false} EdgesDecide(tiers: seq<Tier>, v: nat)
    requires CoversEdgesOnce(tiers)
    ensures MatchCount(tiers, v, 1) == 1
  {
    if !IsEdge(tiers, v) {
      NoChangeOffEdges(tiers, v, 1);
      EdgesDecide(tiers, v - 1);
    }
  }

  lemma DecodedOutputs(tiers: seq<LegacyTier>)
    ensures forall i :: 0 <= i < |Decoded(tiers)| ==> Decoded(tiers)[i].output == Range(0, true, None, false)
  {
    DecodedLength(tiers);
    forall i: nat | i < |Decoded(tiers)| ensures Decoded(tiers)[i].output == Range(0, true, None, false) {
      DecodedAt(tiers, i);
    }
  }

  /**
    For every list, with explicit minimums, bounded last tiers and all: the decoded ranges cover
    every token count exactly once if and only if they do so at the finitely many edges.
  */
  lemma AnyListCoversOnceIff(tiers: seq<LegacyTier>)
    ensures CoversEveryCountOnce(Sorted(Decoded(tiers))) <==> CoversEdgesOnce(Decoded(tiers))
  {
    var decoded := Decoded(tiers);
    if CoversEdgesOnce(decoded) {
      forall v: nat, w: nat | w > 0 ensures MatchCount(Sorted(decoded), v, w) == 1 {
        SortedMatchCount(decoded, v, w);
        DecodedOutputs(tiers);
        OutputsAlike(decoded, v, w);
        EdgesDecide(decoded, v);
      }
    } else {
      var v: nat :| IsEdge(decoded, v) && MatchCount(decoded, v, 1) != 1;
      SortedMatchCount(decoded, v, 1);
    }
  }

  /** The lower end of a tier of any list: its own minimum, or else the last maximum before it. */
  function MinOf(tiers: seq<LegacyTier>, i: nat): int
    requires i < |tiers|
  {
    if ExplicitMin(tiers[i]) == 0 && i > 0 && PreviousMax(tiers[..i]) > 0 then PreviousMax(tiers[..i])
    else ExplicitMin(tiers[i])
  }

  /** What a tier of any list matches. */
  lemma AnyTierMatchesIff(tiers: seq<LegacyTier>, i: nat, inputTokens: nat, outputTokens: nat)
    requires i < |tiers|
    ensures |Decoded(tiers)| == |tiers|
    ensures Matches(Decoded(tiers)[i], inputTokens, outputTokens)
      <==> && outputTokens > 0
           && (if i > 0 && MinOf(tiers, i) > 0 then inputTokens > MinOf(tiers, i) else inputTokens >= MinOf(tiers, i))
           && (MaxOf(tiers[i]) > 0 ==> inputTokens <= MaxOf(tiers[i]))
  {
    DecodedAt(tiers, i);
  }
}
