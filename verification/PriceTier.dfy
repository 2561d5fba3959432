/**
  Price tiers: internal/model/price_tier.go and internal/model/price_tier_helpers.go, with the
  rounding of internal/database/seed_wangsu.go.
*/
module PriceTier {
  import opened Common

  // ---------- Rounding to six decimals ----------

  const MICRO := 1000000.0

  /** math.Round: to the nearest integer, halves away from zero. */
  function Round(x: real): int {
    if x >= 0.0 then (x + 0.5).Floor else -(0.5 - x).Floor
  }

  function Micros(n: int): real {
    n as real / MICRO
  }

  function Round6(x: real): real {
    Micros(Round(x * MICRO))
  }

  function Scaled(price: real, ratio: real): real {
    Round6(price * ratio)
  }

  function Divided(product: real, divisor: real): real
    requires divisor != 0.0
  {
    Round6(product / divisor)
  }

  ghost predicate SixDecimals(x: real) {
    exists n: int :: x == Micros(n)
  }

  function Distance(x: real, y: real): real {
    if x <= y then y - x else x - y
  }

  /** The result has six decimals, nothing with six decimals is nearer, and a tie goes outward. */
  lemma Round6IsNearest(x: real, y: real)
    requires SixDecimals(y)
    ensures SixDecimals(Round6(x))
    ensures Distance(x, Round6(x)) <= Distance(x, y)
    ensures Distance(x, Round6(x)) == Distance(x, y) && y != Round6(x) ==> Distance(0.0, Round6(x)) > Distance(0.0, y)
  {
    var n: int :| y == Micros(n);
    var m := Round(x * MICRO);
    assert y * MICRO == n as real && Round6(x) * MICRO == m as real;
    if n < m {
      assert n as real <= m as real - 1.0;
    } else if n > m {
      assert n as real >= m as real + 1.0;
    }
  }

  lemma RoundKeeps(n: int)
    ensures Round(n as real) == n
  {
    if n >= 0 {
      assert (n as real + 0.5).Floor == n;
    } else {
      assert (0.5 - n as real) == (-n) as real + 0.5;
    }
  }

  lemma Round6Keeps(x: real)
    requires SixDecimals(x)
    ensures Round6(x) == x
  {
    var n: int :| x == Micros(n);
    RoundKeeps(n);
    assert x * MICRO == n as real;
  }

  lemma Round6Twice(x: real)
    ensures SixDecimals(Round6(x)) && Round6(Round6(x)) == Round6(x)
  {
    Round6Keeps(Round6(x));
  }

  lemma Round6Monotone(x: real, y: real)
    requires x <= y
    ensures Round6(x) <= Round6(y)
  {
    assert x * MICRO <= y * MICRO;
    assert Round(x * MICRO) <= Round(y * MICRO);
  }

  const HALF_MICRO := 0.0000005

  lemma Round6Near(x: real)
    ensures Distance(x, Round6(x)) <= HALF_MICRO && HALF_MICRO * 2000000.0 == 1.0
  {
    assert Round6(x) * MICRO == Round(x * MICRO) as real;
  }

  lemma Round6Sign(x: real)
    ensures x >= 0.0 ==> Round6(x) >= 0.0
    ensures x <= 0.0 ==> Round6(x) <= 0.0
  {
    assert Round6(0.0) == 0.0;
    if x >= 0.0 {
      Round6Monotone(0.0, x);
    } else {
      Round6Monotone(x, 0.0);
    }
  }

  // ---------- Tiers ----------

  /** A token range; the int64 of the original only ever holds values read from JSON. */
  datatype Range = Range(min: int, minExclusive: bool, max: Option<int>, maxExclusive: bool)

  datatype Tier = Tier(
    name: string,
    variant: string,
    dims: map<string, string>,
    input: Range,
    output: Range,
    inputPrice: real,
    outputPrice: real,
    cacheInputPrice: real,
    cacheWritePrice: real,
    thinkingPrice: real,
    sellingInput: Option<real>,
    sellingOutput: Option<real>,
    sellingThinking: Option<real>)

  datatype TiersData = TiersData(tiers: seq<Tier>, currency: string, unitLabel: string, sourceURL: string)

  function InRange(v: int, r: Range): bool {
    && (if r.minExclusive then v > r.min else v >= r.min)
    && (r.max.None? || if r.maxExclusive then v < r.max.value else v <= r.max.value)
  }

  predicate Matches(t: Tier, inputTokens: int, outputTokens: int) {
    InRange(inputTokens, t.input) && InRange(outputTokens, t.output)
  }

  /** The first tier that matches, -1 when none does. */
  method SelectTier(tiers: seq<Tier>, inputTokens: int, outputTokens: int) returns (index: int)
    ensures -1 <= index < |tiers|
    ensures index >= 0 ==> Matches(tiers[index], inputTokens, outputTokens)
    ensures forall i :: 0 <= i < (if index >= 0 then index else |tiers|) ==>
      !Matches(tiers[i], inputTokens, outputTokens)
    ensures index == Selected(tiers, inputTokens, outputTokens)
  {
    for i := 0 to |tiers|
      invariant forall k :: 0 <= k < i ==> !Matches(tiers[k], inputTokens, outputTokens)
    {
      if Matches(tiers[i], inputTokens, outputTokens) {
        SelectedFirst(tiers, i, inputTokens, outputTokens);
        return i;
      }
    }
    SelectedNone(tiers, inputTokens, outputTokens);
    index := -1;
  }

  function Selected(tiers: seq<Tier>, inputTokens: int, outputTokens: int): int {
    if tiers == [] then -1
    else if Matches(tiers[0], inputTokens, outputTokens) then 0
    else
      var later := Selected(tiers[1..], inputTokens, outputTokens);
      if later < 0 then -1 else later + 1
  }

  lemma {:induction false} SelectedFirst(tiers: seq<Tier>, i: nat, inputTokens: int, outputTokens: int)
    requires i < |tiers| && Matches(tiers[i], inputTokens, outputTokens)
    requires forall k :: 0 <= k < i ==> !Matches(tiers[k], inputTokens, outputTokens)
    ensures Selected(tiers, inputTokens, outputTokens) == i
  {
    if i > 0 {
      assert !Matches(tiers[0], inputTokens, outputTokens);
      SelectedFirst(tiers[1..], i - 1, inputTokens, outputTokens);
    }
  }

  lemma {:induction false} SelectedNone(tiers: seq<Tier>, inputTokens: int, outputTokens: int)
    requires forall k :: 0 <= k < |tiers| ==> !Matches(tiers[k], inputTokens, outputTokens)
    ensures Selected(tiers, inputTokens, outputTokens) == -1
  {
    if tiers != [] {
      assert !Matches(tiers[0], inputTokens, outputTokens);
      SelectedNone(tiers[1..], inputTokens, outputTokens);
    }
  }

  predicate SameRanges(a: seq<Tier>, b: seq<Tier>) {
    |a| == |b| && forall i :: 0 <= i < |a| ==> a[i].input == b[i].input && a[i].output == b[i].output
  }

  /** Which tier a request falls into depends on the ranges alone, never on prices or names. */
  lemma {:induction false} SelectionByRanges(a: seq<Tier>, b: seq<Tier>, inputTokens: int, outputTokens: int)
    requires SameRanges(a, b)
    ensures Selected(a, inputTokens, outputTokens) == Selected(b, inputTokens, outputTokens)
  {
    if a != [] {
      assert Matches(a[0], inputTokens, outputTokens) == Matches(b[0], inputTokens, outputTokens);
      SelectionByRanges(a[1..], b[1..], inputTokens, outputTokens);
    }
  }

  // ---------- Normalisation ----------

  /** unicode.IsSpace */
  const SPACES: set<char> :=
    {'\U{9}', '\U{A}', '\U{B}', '\U{C}', '\U{D}', ' ', '\U{85}', '\U{A0}', '\U{1680}',
     '\U{2000}', '\U{2001}', '\U{2002}', '\U{2003}', '\U{2004}', '\U{2005}', '\U{2006}', '\U{2007}',
     '\U{2008}', '\U{2009}', '\U{200A}', '\U{2028}', '\U{2029}', '\U{202F}', '\U{205F}', '\U{3000}'}

  lemma SpacesAre(c: char)
    ensures c in SPACES <==> var n := c as int;
      || 9 <= n <= 13 || n == 32 || n == 0x85 || n == 0xA0 || n == 0x1680 || 0x2000 <= n <= 0x200A
      || n == 0x2028 || n == 0x2029 || n == 0x202F || n == 0x205F || n == 0x3000
  {
  }

  predicate Blank(s: string) {
    forall i :: 0 <= i < |s| ==> s[i] in SPACES
  }

  /** firstNonEmpty of three candidates. */
  function FirstNonBlank(a: string, b: string, c: string): string {
    if !Blank(a) then a else if !Blank(b) then b else if !Blank(c) then c else ""
  }

  function Decimal(n: nat): string {
    (if n < 10 then "" else Decimal(n / 10)) + [('0' as int + n % 10) as char]
  }

  function TokenLabel(n: int): string {
    if n <= 0 then "0"
    else if n % 1000000 == 0 then Decimal(n / 1000000) + "M"
    else if n % 1000 == 0 then Decimal(n / 1000) + "k"
    else Decimal(n)
  }

  function AutoName(t: Tier): string {
    var lower := if t.input.minExclusive then "(" else "[";
    if t.input.min == 0 && t.input.max.None? then "0-inf"
    else if t.input.max.None? then lower + TokenLabel(t.input.min) + ", +inf)"
    else
      var upper := if t.input.maxExclusive then ")" else "]";
      lower + TokenLabel(t.input.min) + ", " + TokenLabel(t.input.max.value) + upper
  }

  function Normalized(t: Tier): Tier {
    var output := if t.output.min == 0 && !t.output.minExclusive && t.output.max.None?
                  then t.output.(minExclusive := true) else t.output;
    t.(output := output, name := if Blank(t.name) then AutoName(t) else t.name)
  }

  /** A normalised tier matches what it matched before, except that an output range without bounds no
      longer takes in a request without output; nothing but the name changes otherwise. */
  lemma NormalizedMatchesIff(t: Tier, inputTokens: int, outputTokens: int)
    ensures Matches(Normalized(t), inputTokens, outputTokens)
      <==> && Matches(t, inputTokens, outputTokens)
           && !(outputTokens == 0 && t.output.min == 0 && t.output.max == None)
    ensures Normalized(t).(output := t.output, name := t.name) == t
    ensures !Blank(t.name) ==> Normalized(t).name == t.name
    ensures Normalized(t).output.min == t.output.min && Normalized(t).output.max == t.output.max
  {
  }

  lemma AutoNameIsNotBlank(t: Tier)
    ensures !Blank(AutoName(t))
  {
    var s := AutoName(t);
    assert s[0] == '0' || s[0] == '(' || s[0] == '[';
    assert s[0] !in SPACES;
  }

  lemma NormalizedTwice(t: Tier)
    ensures Normalized(Normalized(t)) == Normalized(t)
    ensures !Blank(Normalized(t).name)
  {
    AutoNameIsNotBlank(t);
  }

  // ---------- What an automatic name says ----------

  function DigitsValue(s: string): int {
    if s == "" then 0 else DigitsValue(s[..|s| - 1]) * 10 + (s[|s| - 1] as int - 48)
  }

  predicate IsDigit(c: char) { '0' <= c <= '9' }

  predicate AllDigits(s: string) {
    forall i :: 0 <= i < |s| ==> IsDigit(s[i])
  }

  lemma OneMoreDigit(s: string, d: nat)
    requires d < 10
    ensures var longer := s + [('0' as int + d) as char];
      DigitsValue(longer) == DigitsValue(s) * 10 + d && (AllDigits(s) ==> AllDigits(longer))
  {
    var longer := s + [('0' as int + d) as char];
    assert longer[..|longer| - 1] == s;
  }

  lemma {:induction false} DecimalReads(n: nat)
    ensures DigitsValue(Decimal(n)) == n && Decimal(n) != "" && AllDigits(Decimal(n))
  {
    if n >= 10 {
      DecimalReads(n / 10);
      OneMoreDigit(Decimal(n / 10), n % 10);
    } else {
      OneMoreDigit("", n);
    }
  }

  /** A number of tokens, as written with M for a million and k for a thousand. */
  function LabelValue(s: string): int
    requires s != ""
  {
    var last := s[|s| - 1];
    if last == 'M' then DigitsValue(s[..|s| - 1]) * 1000000
    else if last == 'k' then DigitsValue(s[..|s| - 1]) * 1000
    else DigitsValue(s)
  }

  lemma DigitsAsLabel(digits: string)
    requires digits != "" && AllDigits(digits)
    ensures LabelValue(digits) == DigitsValue(digits) && ',' !in digits
    ensures LabelValue(digits + "M") == DigitsValue(digits) * 1000000 && ',' !in digits + "M"
    ensures LabelValue(digits + "k") == DigitsValue(digits) * 1000 && ',' !in digits + "k"
  {
    assert (digits + "M")[..|digits|] == (digits + "k")[..|digits|] == digits;
    assert IsDigit(digits[|digits| - 1]);
  }

  predicate Reads(s: string, n: nat) {
    s != "" && LabelValue(s) == n && ',' !in s && IsDigit(s[0])
  }

  lemma DecimalAsLabel(n: nat)
    ensures Reads(Decimal(n), n) && Reads(Decimal(n) + "M", n * 1000000) && Reads(Decimal(n) + "k", n * 1000)
  {
    DecimalReads(n);
    DigitsAsLabel(Decimal(n));
  }

  lemma ZeroReads()
    ensures Reads("0", 0)
  {
    assert "0"[..0] == "";
  }

  lemma WholeUnits(n: nat, unit: nat)
    requires unit > 0 && n % unit == 0
    ensures n / unit * unit == n
  {
  }

  lemma SmallLabels(n: nat)
    requires n < 1000
    ensures TokenLabel(n) == Decimal(n)
  {
    if n == 0 {
      assert Decimal(0) == "" + ['0'];
    } else {
      assert n % 1000 == n && n % 1000000 == n;
    }
  }

  lemma LabelReads(n: nat)
    ensures Reads(TokenLabel(n), n)
  {
    if n == 0 {
      ZeroReads();
    } else if n % 1000000 == 0 {
      var m := n / 1000000;
      DecimalAsLabel(m);
      WholeUnits(n, 1000000);
      assert Reads(Decimal(m) + "M", n);
    } else if n % 1000 == 0 {
      var m := n / 1000;
      DecimalAsLabel(m);
      WholeUnits(n, 1000);
      assert Reads(Decimal(m) + "k", n);
    } else {
      DecimalAsLabel(n);
    }
  }

  /** Position of the first comma. */
  function Comma(s: string): (i: nat)
    ensures i <= |s|
  {
    if s == "" || s[0] == ',' then 0 else 1 + Comma(s[1..])
  }

  lemma {:induction false} CommaAfter(a: string, b: string)
    requires ',' !in a
    ensures Comma(a + "," + b) == |a|
  {
    if a != "" {
      assert (a + "," + b)[1..] == a[1..] + "," + b;
      CommaAfter(a[1..], b);
    }
  }

  /** The input range that a name speaks of. */
  function NamedRange(s: string): Option<Range> {
    var c := Comma(s);
    if s == "0-inf" then Some(Range(0, false, None, false))
    else if c < 2 || c + 3 >= |s| then None
    else
      var min, rest := LabelValue(s[1..c]), s[c + 2..];
      if rest == "+inf)" then Some(Range(min, s[0] == '(', None, false))
      else Some(Range(min, s[0] == '(', Some(LabelValue(rest[..|rest| - 1])), rest[|rest| - 1] == ')'))
  }

  lemma NameParts(lower: char, min: string, rest: string)
    requires min != "" && ',' !in min && lower != ','
    ensures var s := [lower] + min + ", " + rest;
      Comma(s) == 1 + |min| && s[0] == lower && s[1..Comma(s)] == min && s[Comma(s) + 2..] == rest
  {
    var s := [lower] + min + ", " + rest;
    assert s == ([lower] + min) + "," + (" " + rest);
    assert ',' !in [lower] + min;
    CommaAfter([lower] + min, " " + rest);
  }

  lemma OpenNameReads(lower: char, n: nat)
    requires lower == '(' || lower == '['
    ensures NamedRange([lower] + TokenLabel(n) + ", " + "+inf)") == Some(Range(n, lower == '(', None, false))
  {
    LabelReads(n);
    NameParts(lower, TokenLabel(n), "+inf)");
  }

  lemma UpperEndReads(max: nat, upper: char)
    ensures var rest := TokenLabel(max) + [upper];
      |rest| > 1 && rest != "+inf)" && rest[|rest| - 1] == upper && LabelValue(rest[..|rest| - 1]) == max
  {
    var rest := TokenLabel(max) + [upper];
    LabelReads(max);
    assert rest[..|rest| - 1] == TokenLabel(max) && rest[0] != '+';
  }

  lemma BoundedNameReads(lower: char, n: nat, max: nat, upper: char)
    requires (lower == '(' || lower == '[') && (upper == ')' || upper == ']')
    ensures NamedRange([lower] + TokenLabel(n) + ", " + (TokenLabel(max) + [upper]))
         == Some(Range(n, lower == '(', Some(max), upper == ')'))
  {
    LabelReads(n);
    UpperEndReads(max, upper);
    NameParts(lower, TokenLabel(n), TokenLabel(max) + [upper]);
  }

  /** The automatic name of a tier gives its input range back; without a lower or an upper end there is
      no bound to include or exclude. */
  lemma AutoNameReads(t: Tier)
    requires 0 <= t.input.min && (t.input.max.Some? ==> 0 <= t.input.max.value)
    requires t.input.max == None ==> !t.input.maxExclusive && (t.input.min == 0 ==> !t.input.minExclusive)
    ensures NamedRange(AutoName(t)) == Some(t.input)
  {
    var lower := if t.input.minExclusive then '(' else '[';
    var start := [lower] + TokenLabel(t.input.min);
    if t.input.max.Some? {
      var top, upper := TokenLabel(t.input.max.value), if t.input.maxExclusive then ')' else ']';
      BoundedNameReads(lower, t.input.min, t.input.max.value, upper);
      assert AutoName(t) == start + ", " + top + [upper];
      assert start + ", " + top + [upper] == start + ", " + (top + [upper]);
    } else if t.input.min > 0 {
      OpenNameReads(lower, t.input.min);
      assert AutoName(t) == start + ", +inf)";
      assert start + ", +inf)" == start + ", " + "+inf)";
    }
  }

  // ---------- Sorting ----------

  predicate Before(a: Tier, b: Tier) {
    a.input.min < b.input.min || (a.input.min == b.input.min && a.output.min < b.output.min)
  }

  /** sort.SliceStable, specified below by its three properties. */
  function Sorted(s: seq<Tier>): seq<Tier> {
    if s == [] then [] else Inserted(s[0], Sorted(s[1..]))
  }

  function Inserted(t: Tier, s: seq<Tier>): seq<Tier> {
    if s == [] || !Before(s[0], t) then [t] + s else [s[0]] + Inserted(t, s[1..])
  }

  /** By lower end of the input range, and at the same lower end by that of the output range. */
  predicate InOrder(s: seq<Tier>) {
    forall i, j :: 0 <= i < j < |s| ==>
      && s[i].input.min <= s[j].input.min
      && (s[i].input.min == s[j].input.min ==> s[i].output.min <= s[j].output.min)
  }

  predicate SameKey(a: Tier, b: Tier) {
    a.input.min == b.input.min && a.output.min == b.output.min
  }

  function WithKey(s: seq<Tier>, key: Tier): seq<Tier> {
    if s == [] then [] else (if SameKey(s[0], key) then [s[0]] else []) + WithKey(s[1..], key)
  }

  lemma {:induction false} InsertedPermutes(t: Tier, s: seq<Tier>)
    ensures multiset(Inserted(t, s)) == multiset{t} + multiset(s)
  {
    if s != [] {
      assert s == [s[0]] + s[1..];
      if Before(s[0], t) {
        InsertedPermutes(t, s[1..]);
      }
    }
  }

  lemma {:induction false} SortedPermutes(s: seq<Tier>)
    ensures multiset(Sorted(s)) == multiset(s) && |Sorted(s)| == |s|
  {
    if s != [] {
      SortedPermutes(s[1..]);
      InsertedPermutes(s[0], Sorted(s[1..]));
      assert s == [s[0]] + s[1..];
      assert |multiset(Sorted(s))| == |Sorted(s)|;
    }
  }

  lemma {:induction false} InsertedInOrder(t: Tier, s: seq<Tier>)
    requires InOrder(s)
    ensures InOrder(Inserted(t, s))
  {
    if s != [] && Before(s[0], t) {
      var later := Inserted(t, s[1..]);
      InsertedInOrder(t, s[1..]);
      InsertedPermutes(t, s[1..]);
      forall j | 0 <= j < |later| ensures !Before(later[j], s[0]) {
        assert later[j] in multiset(later);
        assert later[j] == t || later[j] in s[1..];
      }
    }
  }

  lemma {:induction false} SortedInOrder(s: seq<Tier>)
    ensures InOrder(Sorted(s))
  {
    if s != [] {
      SortedInOrder(s[1..]);
      InsertedInOrder(s[0], Sorted(s[1..]));
    }
  }

  lemma {:induction false} InsertedStable(t: Tier, s: seq<Tier>, key: Tier)
    ensures WithKey(Inserted(t, s), key) == WithKey([t] + s, key)
  {
    assert ([t] + s)[1..] == s;
    if s != [] && Before(s[0], t) {
      InsertedStable(t, s[1..], key);
      assert ([t] + s[1..])[1..] == s[1..];
      assert ([s[0]] + Inserted(t, s[1..]))[1..] == Inserted(t, s[1..]);
    }
  }

  lemma {:induction false} SortedStable(s: seq<Tier>, key: Tier)
    ensures WithKey(Sorted(s), key) == WithKey(s, key)
  {
    if s != [] {
      SortedStable(s[1..], key);
      InsertedStable(s[0], Sorted(s[1..]), key);
      assert ([s[0]] + Sorted(s[1..]))[1..] == Sorted(s[1..]);
    }
  }

  lemma {:induction false} SortedKeeps(s: seq<Tier>)
    requires InOrder(s)
    ensures Sorted(s) == s
  {
    if s != [] {
      SortedKeeps(s[1..]);
      assert s == [s[0]] + s[1..];
      if |s| > 1 {
        assert !Before(s[1], s[0]);
      }
    }
  }

  // ---------- Tier by tier ----------

  function Map(s: seq<Tier>, f: Tier -> Tier): seq<Tier> {
    if s == [] then [] else [f(s[0])] + Map(s[1..], f)
  }

  lemma {:induction false} MapLength(s: seq<Tier>, f: Tier -> Tier)
    ensures |Map(s, f)| == |s|
  {
    if s != [] {
      MapLength(s[1..], f);
    }
  }

  lemma {:induction false} MapAt(s: seq<Tier>, f: Tier -> Tier, i: nat)
    requires i < |s|
    ensures |Map(s, f)| == |s| && Map(s, f)[i] == f(s[i])
  {
    MapLength(s, f);
    if i > 0 {
      MapAt(s[1..], f, i - 1);
    }
  }

  /** A change that leaves the keys alone can be made before or after sorting. */
  lemma {:induction false} SortedMap(s: seq<Tier>, f: Tier -> Tier)
    requires forall t :: SameKey(f(t), t)
    ensures Sorted(Map(s, f)) == Map(Sorted(s), f)
  {
    if s != [] {
      SortedMap(s[1..], f);
      assert Map(s, f)[1..] == Map(s[1..], f);
      InsertedMap(s[0], Sorted(s[1..]), f);
    }
  }

  lemma {:induction false} InsertedMap(t: Tier, s: seq<Tier>, f: Tier -> Tier)
    requires forall t :: SameKey(f(t), t)
    ensures Inserted(f(t), Map(s, f)) == Map(Inserted(t, s), f)
  {
    assert ([t] + s)[1..] == s;
    if s != [] {
      assert SameKey(f(t), t) && SameKey(f(s[0]), s[0]);
      assert Map(s, f)[1..] == Map(s[1..], f);
      if Before(s[0], t) {
        InsertedMap(t, s[1..], f);
        assert ([s[0]] + Inserted(t, s[1..]))[1..] == Inserted(t, s[1..]);
      }
    }
  }

  lemma MapInOrder(s: seq<Tier>, f: Tier -> Tier)
    requires InOrder(s) && forall t :: SameKey(f(t), t)
    ensures InOrder(Map(s, f))
  {
    MapLength(s, f);
    forall i, j | 0 <= i < j < |s| ensures !Before(Map(s, f)[j], Map(s, f)[i]) {
      MapAt(s, f, i);
      MapAt(s, f, j);
      assert SameKey(f(s[i]), s[i]) && SameKey(f(s[j]), s[j]);
    }
  }

  /** sort.SliceStable in place. */
  method SortTiers(tiers: array<Tier>)
    modifies tiers
    ensures tiers[..] == Sorted(old(tiers[..]))
  {
    var sorted := Sorted(tiers[..]);
    SortedPermutes(tiers[..]);
    forall i | 0 <= i < tiers.Length {
      tiers[i] := sorted[i];
    }
    assert tiers[..] == sorted;
  }
}
