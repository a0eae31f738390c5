/** The cost of one LLM call: subset deductions, context tiers, per-dimension costs and rounding. Prices are reals. */
module Pricing {
  import opened Basics
  import opened StableSort
  import opened Text
  import opened Wrappers

  // ---------- Configuration and usage ----------

  datatype ContextTier = ContextTier(maxContext: int, multiplier: real)

  datatype ExtraDimension = ExtraDimension(name: string, costPer1k: real, billedSeparately: bool)

  /** `rounding` is the number of decimals, if costs are rounded. Extras have distinct names. */
  datatype PricingConfig = PricingConfig(
    inputPer1k: real,
    outputPer1k: real,
    extras: seq<ExtraDimension>,
    tiers: seq<ContextTier>,
    rounding: Option<nat>)

  /** Normalized token counts by name. */
  type Usage = map<string, int>

  function Tokens(usage: Usage, name: string): int {
    if name in usage then usage[name] else 0
  }

  datatype Parent = Input | Output | NoParent

  /** Which core count already contains the tokens of an extra dimension, by its name. */
  function ResolveParentDimension(name: string): Parent {
    if Contains(name, "cache") || Contains(name, "cached") || Contains(name, "prompt") || Contains(name, "input") then Input
    else if Contains(name, "reasoning") || Contains(name, "completion") || Contains(name, "output") then Output
    else NoParent
  }

  // ---------- Context tiers ----------

  predicate SmallerCap(x: ContextTier, y: ContextTier) {
    x.maxContext <= y.maxContext
  }

  /** `max(tiers, key=max_context)`: the first of the largest. */
  method LargestTier(tiers: seq<ContextTier>) returns (t: ContextTier)
    requires tiers != []
    ensures t in tiers && forall u | u in tiers :: u.maxContext <= t.maxContext
  {
    t := tiers[0];
    for n := 1 to |tiers|
      invariant t in tiers && forall i | 0 <= i < n :: tiers[i].maxContext <= t.maxContext
    {
      if tiers[n].maxContext > t.maxContext {
        t := tiers[n];
      }
    }
  }

  ghost predicate DistinctCaps(tiers: seq<ContextTier>) {
    forall t, u | t in tiers && u in tiers && t.maxContext == u.maxContext :: t == u
  }

  /** The tier that applies: the smallest one that fits, or the largest one if none does. */
  ghost predicate Applies(t: ContextTier, total: int, tiers: seq<ContextTier>) {
    && t in tiers
    && if exists u :: u in tiers && total <= u.maxContext
       then total <= t.maxContext && forall u | u in tiers && total <= u.maxContext :: t.maxContext <= u.maxContext
       else forall u | u in tiers :: u.maxContext <= t.maxContext
  }

  /** With distinct caps there is one such tier, whatever the order in which tiers are listed. */
  lemma AppliesIsUnique(t: ContextTier, u: ContextTier, total: int, tiers: seq<ContextTier>, listed: seq<ContextTier>)
    requires DistinctCaps(tiers) && multiset(tiers) == multiset(listed)
    requires Applies(t, total, tiers) && Applies(u, total, listed)
    ensures t == u
  {
    forall x ensures x in tiers <==> x in listed { InMultiset(tiers, listed, x); }
    assert t.maxContext == u.maxContext;
  }

  ghost predicate IsMultiplier(multiplier: real, total: int, tiers: seq<ContextTier>) {
    && (tiers == [] ==> multiplier == 1.0)
    && (tiers != [] ==> exists t :: Applies(t, total, tiers) && multiplier == t.multiplier)
  }

  method GetContextMultiplier(total: int, tiers: seq<ContextTier>) returns (multiplier: real)
    ensures IsMultiplier(multiplier, total, tiers)
  {
    if tiers == [] {
      return 1.0;
    }
    var sorted := Sort(tiers, SmallerCap);
    SortSorts(tiers, SmallerCap);
    SortKeepsElements(tiers, SmallerCap);
    for n := 0 to |sorted|
      invariant forall i | 0 <= i < n :: sorted[i].maxContext < total
    {
      if total <= sorted[n].maxContext {
        assert sorted[n] in sorted;
        assert Applies(sorted[n], total, tiers);
        return sorted[n].multiplier;
      }
    }
    var largest := LargestTier(tiers);
    assert Applies(largest, total, tiers);
    return largest.multiplier;
  }

  // ---------- Costs ----------

  function DimensionCost(tokens: int, costPer1k: real, multiplier: real): real {
    if tokens <= 0 then 0.0 else tokens as real / 1000.0 * costPer1k * multiplier
  }

  /** The tokens of the first `n` extras that are part of `parent` and not billed separately. */
  function Deduction(extras: seq<ExtraDimension>, usage: Usage, parent: Parent): int {
    if extras == [] then 0
    else
      var init, e := extras[..|extras| - 1], extras[|extras| - 1];
      Deduction(init, usage, parent)
      + if !e.billedSeparately && e.name in usage && ResolveParentDimension(e.name) == parent then usage[e.name] else 0
  }

  /** The cost of all extras. */
  function ExtrasCost(extras: seq<ExtraDimension>, usage: Usage, multiplier: real): real {
    if extras == [] then 0.0
    else
      var init, e := extras[..|extras| - 1], extras[|extras| - 1];
      ExtrasCost(init, usage, multiplier) + DimensionCost(Tokens(usage, e.name), e.costPer1k, multiplier)
  }

  datatype Cost = Cost(
    input: Option<real>,
    output: Option<real>,
    extras: real,
    total: real,
    extraCosts: map<string, real>,
    estimated: bool,
    multiplier: real)

  const CORE_COUNTS := {"input_tokens", "output_tokens"}

  predicate EndsWith(text: string, suffix: string) {
    |suffix| <= |text| && text[|text| - |suffix|..] == suffix
  }

  /** A used token count for which there is no price. */
  predicate IsUnpriced(name: string, usage: Usage, extras: seq<ExtraDimension>) {
    && EndsWith(name, "_tokens") && Tokens(usage, name) > 0
    && name !in CORE_COUNTS && forall e | e in extras :: e.name != name
  }

  ghost predicate IsEstimated(estimated: bool, usage: Usage, extras: seq<ExtraDimension>) {
    estimated <==> exists name | name in usage :: IsUnpriced(name, usage, extras)
  }

  /** The extras that were used, each at its price. */
  ghost predicate AreExtraCosts(costs: map<string, real>, extras: seq<ExtraDimension>, usage: Usage, multiplier: real) {
    && (forall name :: name in costs <==> exists e | e in extras :: e.name == name && Tokens(usage, name) != 0)
    && forall e | e in extras && e.name in costs ::
         costs[e.name] == DimensionCost(Tokens(usage, e.name), e.costPer1k, multiplier)
  }

  /** Costs before rounding, at a given tier multiplier. */
  ghost predicate IsUnroundedCost(c: Cost, usage: Usage, config: PricingConfig) {
    var input, output := Tokens(usage, "input_tokens"), Tokens(usage, "output_tokens");
    && IsMultiplier(c.multiplier, input + output, config.tiers)
    && c.input == CoreCost(input, Deduction(config.extras, usage, Input), config.inputPer1k, c.multiplier)
    && c.output == CoreCost(output, Deduction(config.extras, usage, Output), config.outputPer1k, c.multiplier)
    && c.extras == ExtrasCost(config.extras, usage, c.multiplier)
    && c.total == Amount(c.input) + Amount(c.output) + c.extras
    && IsEstimated(c.estimated, usage, config.extras)
    && AreExtraCosts(c.extraCosts, config.extras, usage, c.multiplier)
  }

  function Amount(c: Option<real>): real {
    if c.Some? then c.value else 0.0
  }

  ghost predicate DistinctNames(extras: seq<ExtraDimension>) {
    forall i, j | 0 <= i < j < |extras| :: extras[i].name != extras[j].name
  }

  method SubsetDeductions(extras: seq<ExtraDimension>, usage: Usage) returns (deductions: map<Parent, int>)
    ensures forall p | p in {Input, Output} ::
      (if p in deductions then deductions[p] else 0) == Deduction(extras, usage, p)
  {
    deductions := map[];
    for n := 0 to |extras|
      invariant forall p | p in {Input, Output} ::
        (if p in deductions then deductions[p] else 0) == Deduction(extras[..n], usage, p)
    {
      var e := extras[n];
      assert extras[..n + 1][..n] == extras[..n];
      if e.billedSeparately || e.name !in usage {
        continue;
      }
      var parent := ResolveParentDimension(e.name);
      if !parent.NoParent? {
        deductions := deductions[parent := (if parent in deductions then deductions[parent] else 0) + usage[e.name]];
      }
    }
    assert extras[..|extras|] == extras;
  }

  method ExtraCosts(extras: seq<ExtraDimension>, usage: Usage, multiplier: real)
    returns (costs: map<string, real>, total: real)
    requires DistinctNames(extras)
    ensures total == ExtrasCost(extras, usage, multiplier)
    ensures AreExtraCosts(costs, extras, usage, multiplier)
  {
    costs, total := map[], 0.0;
    for n := 0 to |extras|
      invariant total == ExtrasCost(extras[..n], usage, multiplier)
      invariant forall name :: name in costs <==>
        exists i | 0 <= i < n :: extras[i].name == name && Tokens(usage, name) != 0
      invariant forall i | 0 <= i < n && extras[i].name in costs ::
        costs[extras[i].name] == DimensionCost(Tokens(usage, extras[i].name), extras[i].costPer1k, multiplier)
    {
      var e := extras[n];
      assert extras[..n + 1][..n] == extras[..n];
      if e.name in usage {
        var tokens := usage[e.name];
        if tokens != 0 {
          var cost := DimensionCost(tokens, e.costPer1k, multiplier);
          costs := costs[e.name := cost];
          total := total + cost;
        }
      }
    }
    assert extras[..|extras|] == extras;
  }

  method HasUnpriced(extras: seq<ExtraDimension>, usage: Usage) returns (unpriced: bool)
    ensures IsEstimated(unpriced, usage, extras)
  {
    unpriced := false;
    var known := CORE_COUNTS + set e | e in extras :: e.name;
    var left := usage.Keys;
    while left != {}
      invariant left <= usage.Keys
      invariant unpriced <==> exists name | name in usage && name !in left :: IsUnpriced(name, usage, extras)
      decreases left
    {
      var name :| name in left;
      if EndsWith(name, "_tokens") && name !in known && usage[name] > 0 {
        assert IsUnpriced(name, usage, extras);
        unpriced := true;
      }
      left := left - {name};
    }
  }

  /** A core dimension is priced if it was used at all, on the tokens its subsets leave. */
  function CoreCost(tokens: int, deduction: int, costPer1k: real, multiplier: real): Option<real> {
    if tokens == 0 then None else Some(DimensionCost(Max0(tokens - deduction), costPer1k, multiplier))
  }

  method ComputeCost(usage: Usage, config: PricingConfig) returns (c: Cost, ghost exact: Cost)
    requires DistinctNames(config.extras)
    ensures IsUnroundedCost(exact, usage, config)
    ensures c == if config.rounding.Some? then Rounded(exact, config.rounding.value) else exact
    ensures config.rounding.None? ==> IsUnroundedCost(c, usage, config)
  {
    var input, output := Tokens(usage, "input_tokens"), Tokens(usage, "output_tokens");
    var multiplier := GetContextMultiplier(input + output, config.tiers);
    var deductions := SubsetDeductions(config.extras, usage);
    var costInput := CoreCost(input, if Input in deductions then deductions[Input] else 0, config.inputPer1k, multiplier);
    var costOutput := CoreCost(output, if Output in deductions then deductions[Output] else 0, config.outputPer1k, multiplier);
    var extraCosts, extras := ExtraCosts(config.extras, usage, multiplier);
    var total := Amount(costInput) + Amount(costOutput) + extras;
    var estimated := HasUnpriced(config.extras, usage);
    c := Cost(costInput, costOutput, extras, total, extraCosts, estimated, multiplier);
    exact := c;
    if config.rounding.Some? {
      c := Rounded(c, config.rounding.value);
    }
  }

  // ---------- What single dimensions cost ----------

  /** Rates are per thousand tokens, times the multiplier; nothing is charged for no tokens. */
  lemma CostOfThousands(k: nat, rate: real, multiplier: real)
    ensures DimensionCost(1000 * k, rate, multiplier) == k as real * rate * multiplier
  {
    assert (1000 * k) as real / 1000.0 == k as real;
  }

  lemma NothingForNothing(tokens: int, rate: real, multiplier: real)
    ensures tokens <= 0 ==> DimensionCost(tokens, rate, multiplier) == 0.0
  {
  }

  ghost predicate HasAny(name: string, words: seq<string>) {
    exists w | w in words :: Contains(name, w)
  }

  /** An extra whose name says so is part of the input; one whose name says so otherwise of the output. */
  lemma ParentWrittenOut(name: string)
    ensures var input, output := HasAny(name, ["cache", "cached", "prompt", "input"]), HasAny(name, ["reasoning", "completion", "output"]);
      ResolveParentDimension(name) == if input then Input else if output then Output else NoParent
  {
    var inputs, outputs := ["cache", "cached", "prompt", "input"], ["reasoning", "completion", "output"];
    assert inputs[0] in inputs && inputs[1] in inputs && inputs[2] in inputs && inputs[3] in inputs;
    assert outputs[0] in outputs && outputs[1] in outputs && outputs[2] in outputs;
  }

  /** A single extra lowers the billable tokens of its parent by its own, and of the other not at all. */
  lemma OneExtra(c: Cost, usage: Usage, config: PricingConfig, e: ExtraDimension)
    requires IsUnroundedCost(c, usage, config) && config.extras == [e] && e.name in usage && usage[e.name] > 0
    requires Tokens(usage, "input_tokens") > 0 && Tokens(usage, "output_tokens") > 0
    ensures var m, input, output, extra := c.multiplier, Tokens(usage, "input_tokens"), Tokens(usage, "output_tokens"), usage[e.name];
      var ofInput := HasAny(e.name, ["cache", "cached", "prompt", "input"]);
      var ofOutput := !ofInput && HasAny(e.name, ["reasoning", "completion", "output"]);
      && c.input == Some(DimensionCost(if ofInput && !e.billedSeparately then input - extra else input, config.inputPer1k, m))
      && c.output == Some(DimensionCost(if ofOutput && !e.billedSeparately then output - extra else output, config.outputPer1k, m))
      && c.extras == DimensionCost(extra, e.costPer1k, m)
      && c.extraCosts == map[e.name := DimensionCost(extra, e.costPer1k, m)]
  {
    ParentWrittenOut(e.name);
    OneDeduction(e, usage, Input);
    OneDeduction(e, usage, Output);
    MaxIsHarmless(Tokens(usage, "input_tokens") - usage[e.name], config.inputPer1k, c.multiplier);
    MaxIsHarmless(Tokens(usage, "output_tokens") - usage[e.name], config.outputPer1k, c.multiplier);
    assert ExtrasCost([e], usage, c.multiplier) == ExtrasCost([], usage, c.multiplier) + DimensionCost(usage[e.name], e.costPer1k, c.multiplier) by {
      assert [e][..0] == [];
    }
    assert e in config.extras;
    assert forall name :: name in c.extraCosts <==> name == e.name;
  }

  lemma OneDeduction(e: ExtraDimension, usage: Usage, parent: Parent)
    requires e.name in usage
    ensures Deduction([e], usage, parent) ==
            if !e.billedSeparately && ResolveParentDimension(e.name) == parent then usage[e.name] else 0
  {
    assert [e][..0] == [];
  }

  lemma MaxIsHarmless(tokens: int, rate: real, multiplier: real)
    ensures DimensionCost(Max0(tokens), rate, multiplier) == DimensionCost(tokens, rate, multiplier)
  {
  }

  lemma CostOfOneThousand(rate: real, multiplier: real)
    ensures DimensionCost(1000, rate, multiplier) == rate * multiplier
  {
    CostOfThousands(1, rate, multiplier);
    assert 1.0 * rate == rate;
  }

  lemma OneTier(multiplier: real, total: int, tier: ContextTier)
    requires IsMultiplier(multiplier, total, [tier])
    ensures multiplier == tier.multiplier
  {
    var t :| Applies(t, total, [tier]) && multiplier == t.multiplier;
    assert t in [tier];
  }

  /** A thousand input tokens alone cost the input rate times the multiplier of the applying tier; output is not priced. */
  lemma ThousandInputTokens(c: Cost, config: PricingConfig, tier: ContextTier)
    requires IsUnroundedCost(c, map["input_tokens" := 1000], config) && config.extras == [] && config.tiers == [tier]
    ensures c == Cost(Some(config.inputPer1k * tier.multiplier), None, 0.0, config.inputPer1k * tier.multiplier, map[], false, tier.multiplier)
  {
    OneTier(c.multiplier, 1000, tier);
    CostOfOneThousand(config.inputPer1k, tier.multiplier);
    assert c.input == Some(DimensionCost(1000, config.inputPer1k, tier.multiplier));
    assert c.output == None && c.extras == 0.0 && !c.estimated && c.extraCosts == map[];
    assert c.total == Amount(c.input) == config.inputPer1k * tier.multiplier;
  }

  lemma ThousandOutputTokens(c: Cost, config: PricingConfig)
    requires IsUnroundedCost(c, map["output_tokens" := 1000], config) && config.extras == [] && config.tiers == []
    ensures c == Cost(None, Some(config.outputPer1k), 0.0, config.outputPer1k, map[], false, 1.0)
  {
    CostOfOneThousand(config.outputPer1k, 1.0);
    assert c.output == Some(DimensionCost(1000, config.outputPer1k, 1.0));
    assert c.input == None && c.extras == 0.0 && !c.estimated && c.extraCosts == map[];
    assert config.outputPer1k * 1.0 == config.outputPer1k;
    assert c.total == Amount(c.output) == config.outputPer1k;
  }

  /** Of two tiers the smaller one applies up to its cap, the larger one beyond it, however they are listed. */
  lemma TwoTiers(low: ContextTier, high: ContextTier, total: int, t: ContextTier)
    requires low.maxContext < high.maxContext
    ensures Applies(t, total, [low, high]) <==> t == if total <= low.maxContext then low else high
    ensures Applies(t, total, [high, low]) <==> t == if total <= low.maxContext then low else high
  {
    assert [low, high][0] in [low, high] && [low, high][1] in [low, high];
    assert [high, low][0] in [high, low] && [high, low][1] in [high, low];
  }

  /** Any other used count of tokens makes the cost an estimate; a count that is no count of tokens does not. */
  lemma UnpricedWrittenOut(extras: seq<ExtraDimension>)
    requires forall e | e in extras :: e.name != "audio_tokens"
    ensures IsUnpriced("audio_tokens", map["audio_tokens" := 1], extras)
    ensures !IsUnpriced("audio_tokens", map["audio_tokens" := 0], extras) && !IsUnpriced("images", map["images" := 1], extras)
    ensures !IsUnpriced("input_tokens", map["input_tokens" := 1], extras) && !IsUnpriced("output_tokens", map["output_tokens" := 1], extras)
  {
    assert "audio_tokens"[5..] == "_tokens";
  }

  // ---------- Rounding ----------

  function Pow10(d: nat): (p: int)
    ensures p >= 1
  {
    if d == 0 then 1 else 10 * Pow10(d - 1)
  }

  /** The nearest integer, ties away from zero. */
  function HalfUp(y: real): int {
    if y >= 0.0 then (y + 0.5).Floor else -((-y + 0.5).Floor)
  }

  function Scaled(x: real, d: nat): real {
    x * Pow10(d) as real
  }

  /** An amount in units of its last decimal, rounded half up. */
  function Units(x: real, d: nat): int {
    HalfUp(Scaled(x, d))
  }

  function Round(x: real, d: nat): real {
    InUnits(Units(x, d), d)
  }

  function Rounded(c: Cost, d: nat): Cost {
    c.(input := if c.input.Some? then Some(Round(c.input.value, d)) else None,
       output := if c.output.Some? then Some(Round(c.output.value, d)) else None,
       extras := Round(c.extras, d),
       total := Round(c.total, d),
       extraCosts := map name | name in c.extraCosts :: Round(c.extraCosts[name], d))
  }

  // ---------- Each token is priced once ----------

  /** The extra's tokens are part of a core count, and it is not billed on top of it. */
  predicate IsSubset(e: ExtraDimension) {
    !ResolveParentDimension(e.name).NoParent? && !e.billedSeparately
  }

  ghost predicate CountsNotNegative(extras: seq<ExtraDimension>, usage: Usage) {
    forall e | e in extras :: Tokens(usage, e.name) >= 0
  }

  function ParentRate(e: ExtraDimension, config: PricingConfig): real {
    if ResolveParentDimension(e.name).Input? then config.inputPer1k else config.outputPer1k
  }

  /** What the subsets save against the core rates. */
  function Savings(extras: seq<ExtraDimension>, usage: Usage, config: PricingConfig, multiplier: real): real {
    if extras == [] then 0.0
    else
      var init, e := extras[..|extras| - 1], extras[|extras| - 1];
      Savings(init, usage, config, multiplier)
      + if IsSubset(e) then DimensionCost(Tokens(usage, e.name), ParentRate(e, config) - e.costPer1k, multiplier) else 0.0
  }

  /** What is billed on top of the core counts. */
  function OnTop(extras: seq<ExtraDimension>, usage: Usage, multiplier: real): real {
    if extras == [] then 0.0
    else
      var init, e := extras[..|extras| - 1], extras[|extras| - 1];
      OnTop(init, usage, multiplier)
      + if IsSubset(e) then 0.0 else DimensionCost(Tokens(usage, e.name), e.costPer1k, multiplier)
  }

  lemma DimensionCostAdds(a: int, b: int, rate: real, multiplier: real)
    requires a >= 0 && b >= 0
    ensures DimensionCost(a + b, rate, multiplier) == DimensionCost(a, rate, multiplier) + DimensionCost(b, rate, multiplier)
  {
    var x, y := a as real / 1000.0, b as real / 1000.0;
    assert (a + b) as real / 1000.0 == x + y;
    assert (x + y) * rate * multiplier == x * rate * multiplier + y * rate * multiplier by {
      assert (x + y) * rate == x * rate + y * rate;
    }
  }

  lemma DimensionCostOfDifference(a: int, rate: real, less: real, multiplier: real)
    ensures DimensionCost(a, rate, multiplier) ==
            DimensionCost(a, less, multiplier) + DimensionCost(a, rate - less, multiplier)
  {
    var x := a as real / 1000.0;
    assert x * rate == x * less + x * (rate - less);
    assert (x * less + x * (rate - less)) * multiplier == x * less * multiplier + x * (rate - less) * multiplier;
  }

  lemma {:induction false} ExtrasAgainstParents(extras: seq<ExtraDimension>, usage: Usage, config: PricingConfig, multiplier: real)
    requires CountsNotNegative(extras, usage)
    ensures Deduction(extras, usage, Input) >= 0 && Deduction(extras, usage, Output) >= 0
    ensures ExtrasCost(extras, usage, multiplier) + Savings(extras, usage, config, multiplier) ==
            DimensionCost(Deduction(extras, usage, Input), config.inputPer1k, multiplier)
            + DimensionCost(Deduction(extras, usage, Output), config.outputPer1k, multiplier)
            + OnTop(extras, usage, multiplier)
  {
    if extras != [] {
      var init, e := extras[..|extras| - 1], extras[|extras| - 1];
      ExtrasAgainstParents(init, usage, config, multiplier);
      assert e in extras;
      if IsSubset(e) {
        var parent := ResolveParentDimension(e.name);
        DimensionCostOfDifference(Tokens(usage, e.name), ParentRate(e, config), e.costPer1k, multiplier);
        DimensionCostAdds(Deduction(init, usage, parent), Tokens(usage, e.name), ParentRate(e, config), multiplier);
      }
    }
  }

  lemma CoreAndSubsets(tokens: int, deduction: int, rate: real, multiplier: real)
    requires tokens >= 0 && deduction >= 0
    ensures Amount(CoreCost(tokens, deduction, rate, multiplier)) + DimensionCost(deduction, rate, multiplier) ==
            DimensionCost(tokens, rate, multiplier) + DimensionCost(Max0(deduction - tokens), rate, multiplier)
  {
    if deduction <= tokens {
      DimensionCostAdds(tokens - deduction, deduction, rate, multiplier);
    } else {
      DimensionCostAdds(deduction - tokens, tokens, rate, multiplier);
    }
  }

  /**
   * The total is the core counts at core rates, less what their subsets save, plus what is billed on
   * top, plus the subset tokens that exceed the count they are part of. So each token is priced once
   * exactly if none do.
   */
  lemma TotalIdentity(c: Cost, usage: Usage, config: PricingConfig)
    requires IsUnroundedCost(c, usage, config) && CountsNotNegative(config.extras, usage)
    requires Tokens(usage, "input_tokens") >= 0 && Tokens(usage, "output_tokens") >= 0
    ensures var m, input, output := c.multiplier, Tokens(usage, "input_tokens"), Tokens(usage, "output_tokens");
      c.total ==
      DimensionCost(input, config.inputPer1k, m) + DimensionCost(output, config.outputPer1k, m)
      - Savings(config.extras, usage, config, m) + OnTop(config.extras, usage, m)
      + DimensionCost(Max0(Deduction(config.extras, usage, Input) - input), config.inputPer1k, m)
      + DimensionCost(Max0(Deduction(config.extras, usage, Output) - output), config.outputPer1k, m)
  {
    var m := c.multiplier;
    ExtrasAgainstParents(config.extras, usage, config, m);
    CoreAndSubsets(Tokens(usage, "input_tokens"), Deduction(config.extras, usage, Input), config.inputPer1k, m);
    CoreAndSubsets(Tokens(usage, "output_tokens"), Deduction(config.extras, usage, Output), config.outputPer1k, m);
  }

  lemma {:induction false} SavingsNotNegative(extras: seq<ExtraDimension>, usage: Usage, config: PricingConfig, multiplier: real)
    requires multiplier >= 0.0 && forall e | e in extras && IsSubset(e) :: e.costPer1k <= ParentRate(e, config)
    ensures Savings(extras, usage, config, multiplier) >= 0.0
  {
    if extras != [] {
      var init, e := extras[..|extras| - 1], extras[|extras| - 1];
      SavingsNotNegative(init, usage, config, multiplier);
      assert e in extras;
      if IsSubset(e) {
        CostNotNegative(Tokens(usage, e.name), ParentRate(e, config) - e.costPer1k, multiplier);
      }
    }
  }

  lemma CostNotNegative(tokens: int, rate: real, multiplier: real)
    requires rate >= 0.0 && multiplier >= 0.0
    ensures DimensionCost(tokens, rate, multiplier) >= 0.0
  {
    if tokens > 0 {
      var x := tokens as real / 1000.0;
      assert x * rate >= 0.0;
      assert x * rate * multiplier >= 0.0;
    }
  }

  /** Rates and multipliers are not negative, as the configuration schema demands. */
  ghost predicate RatesNotNegative(config: PricingConfig) {
    && config.inputPer1k >= 0.0 && config.outputPer1k >= 0.0
    && (forall e | e in config.extras :: e.costPer1k >= 0.0)
    && forall t | t in config.tiers :: t.multiplier >= 0.0
  }

  lemma AmountsNotNegative(c: Cost, usage: Usage, config: PricingConfig)
    requires IsUnroundedCost(c, usage, config) && RatesNotNegative(config)
    ensures c.multiplier >= 0.0
    ensures Amount(c.input) >= 0.0 && Amount(c.output) >= 0.0 && c.extras >= 0.0
  {
    var input, output := Tokens(usage, "input_tokens"), Tokens(usage, "output_tokens");
    CostNotNegative(Max0(input - Deduction(config.extras, usage, Input)), config.inputPer1k, c.multiplier);
    CostNotNegative(Max0(output - Deduction(config.extras, usage, Output)), config.outputPer1k, c.multiplier);
    ExtrasNotNegative(config.extras, usage, c.multiplier);
  }

  lemma {:induction false} ExtrasNotNegative(extras: seq<ExtraDimension>, usage: Usage, multiplier: real)
    requires multiplier >= 0.0 && forall e | e in extras :: e.costPer1k >= 0.0
    ensures ExtrasCost(extras, usage, multiplier) >= 0.0
  {
    if extras != [] {
      var init, e := extras[..|extras| - 1], extras[|extras| - 1];
      ExtrasNotNegative(init, usage, multiplier);
      assert e in extras;
      CostNotNegative(Tokens(usage, e.name), e.costPer1k, multiplier);
    }
  }

  /** All core tokens at core rates, and what is billed on top. */
  function AtCoreRates(usage: Usage, config: PricingConfig, multiplier: real): real {
    DimensionCost(Tokens(usage, "input_tokens"), config.inputPer1k, multiplier)
    + DimensionCost(Tokens(usage, "output_tokens"), config.outputPer1k, multiplier)
    + OnTop(config.extras, usage, multiplier)
  }

  lemma RoundKeepsOrder(x: real, y: real, d: nat)
    requires x <= y
    ensures Round(x, d) <= Round(y, d)
  {
    ScaledKeepsOrder(x, y, d);
    InUnitsMonotone(Units(x, d), Units(y, d), d);
  }

  lemma ScaledKeepsOrder(x: real, y: real, d: nat)
    requires x <= y
    ensures Units(x, d) <= Units(y, d)
  {
    ScaledSum(x, y - x, d);
    ScaledNotNegative(y - x, d);
    assert x + (y - x) == y;
    HalfUpKeepsOrder(Scaled(x, d), Scaled(y, d));
  }

  lemma HalfUpKeepsOrder(x: real, y: real)
    requires x <= y
    ensures HalfUp(x) <= HalfUp(y)
  {
  }

  /**
   * Discounted subsets never make a call dearer than its core counts at core rates and what is billed
   * on top, before and after rounding to any number of decimals.
   */
  lemma NeverAboveCoreRates(c: Cost, usage: Usage, config: PricingConfig, d: nat)
    requires IsUnroundedCost(c, usage, config) && CountsNotNegative(config.extras, usage) && RatesNotNegative(config)
    requires forall e | e in config.extras && IsSubset(e) :: e.costPer1k <= ParentRate(e, config)
    requires 0 <= Deduction(config.extras, usage, Input) <= Tokens(usage, "input_tokens")
    requires 0 <= Deduction(config.extras, usage, Output) <= Tokens(usage, "output_tokens")
    ensures c.total <= AtCoreRates(usage, config, c.multiplier)
    ensures Rounded(c, d).total <= Round(AtCoreRates(usage, config, c.multiplier), d)
  {
    AmountsNotNegative(c, usage, config);
    TotalIdentity(c, usage, config);
    SavingsNotNegative(config.extras, usage, config, c.multiplier);
    RoundKeepsOrder(c.total, AtCoreRates(usage, config, c.multiplier), d);
  }

  // ---------- Rounding a sum ----------

  function Sum(xs: seq<real>): real {
    if xs == [] then 0.0 else Sum(xs[..|xs| - 1]) + xs[|xs| - 1]
  }

  predicate NonNegative(xs: seq<real>) {
    forall i | 0 <= i < |xs| :: xs[i] >= 0.0
  }

  function SumOfUnits(xs: seq<real>, d: nat): int {
    if xs == [] then 0 else SumOfUnits(xs[..|xs| - 1], d) + Units(xs[|xs| - 1], d)
  }

  /** Half-up rounding is within half a unit, and a tie goes up. */
  lemma HalfUpIsNearest(y: real)
    requires y >= 0.0
    ensures -0.5 < HalfUp(y) as real - y <= 0.5
  {
  }

  /** `stored` is a whole number of units in the `d`-th decimal, none nearer to `exact`; a tie goes away from zero. */
  ghost predicate IsNearest(stored: real, exact: real, d: nat) {
    var unit := Pow10(d) as real;
    exists n: int :: stored == InUnits(n, d)
      && if exact >= 0.0 then -0.5 < n as real - exact * unit <= 0.5 else -0.5 <= n as real - exact * unit < 0.5
  }

  lemma RoundIsNearest(x: real, d: nat)
    ensures IsNearest(Round(x, d), x, d)
  {
    var unit, y := Pow10(d) as real, Scaled(x, d);
    SignScaled(x, unit);
    assert Round(x, d) == InUnits(HalfUp(y), d);
    assert if x >= 0.0 then -0.5 < HalfUp(y) as real - y <= 0.5 else -0.5 <= HalfUp(y) as real - y < 0.5;
  }

  lemma SignScaled(x: real, unit: real)
    requires unit > 0.0
    ensures x * unit >= 0.0 <==> x >= 0.0
  {
  }

  /** Each amount is rounded on its own, and no extra's is left out or put in. */
  lemma EveryAmountIsNearest(c: Cost, exact: Cost, d: nat)
    requires c == Rounded(exact, d)
    ensures IsNearest(c.total, exact.total, d) && IsNearest(c.extras, exact.extras, d)
    ensures c.input.Some? == exact.input.Some? && (c.input.Some? ==> IsNearest(c.input.value, exact.input.value, d))
    ensures c.output.Some? == exact.output.Some? && (c.output.Some? ==> IsNearest(c.output.value, exact.output.value, d))
    ensures c.extraCosts.Keys == exact.extraCosts.Keys
    ensures forall name | name in exact.extraCosts :: IsNearest(c.extraCosts[name], exact.extraCosts[name], d)
    ensures c.estimated == exact.estimated && c.multiplier == exact.multiplier
  {
    forall x ensures IsNearest(Round(x, d), x, d) {
      RoundIsNearest(x, d);
    }
    hide IsNearest, Round;
  }

  lemma ScaledSum(a: real, b: real, d: nat)
    ensures Scaled(a + b, d) == Scaled(a, d) + Scaled(b, d)
  {
  }

  lemma ScaledNotNegative(x: real, d: nat)
    requires x >= 0.0
    ensures Scaled(x, d) >= 0.0
  {
  }

  lemma {:induction false} SumOfUnitsError(xs: seq<real>, d: nat)
    requires NonNegative(xs)
    ensures Sum(xs) >= 0.0
    ensures var error := SumOfUnits(xs, d) as real - Scaled(Sum(xs), d);
      error <= |xs| as real / 2.0 && (if xs == [] then error == 0.0 else error > -(|xs| as real) / 2.0)
  {
    if xs != [] {
      var init, last := xs[..|xs| - 1], xs[|xs| - 1];
      SumOfUnitsError(init, d);
      ScaledSum(Sum(init), last, d);
      ScaledNotNegative(last, d);
      HalfUpIsNearest(Scaled(last, d));
      hide Scaled, HalfUp;
    }
  }

  /** Rounding the sum of `n` amounts and adding up the `n` rounded ones differ by at most `n/2` units. */
  lemma RoundingASum(xs: seq<real>, d: nat)
    requires NonNegative(xs)
    ensures -(|xs| / 2) <= Units(Sum(xs), d) - SumOfUnits(xs, d) <= |xs| / 2
  {
    SumOfUnitsError(xs, d);
    ScaledNotNegative(Sum(xs), d);
    hide Scaled, HalfUp, Sum, SumOfUnits, NonNegative;
    ErrorsCombine(Scaled(Sum(xs), d), SumOfUnits(xs, d), |xs|);
  }

  /** A rounded value against an integer within `n` half units of the exact one. */
  lemma ErrorsCombine(exact: real, parts: int, n: nat)
    requires exact >= 0.0
    requires parts as real - exact <= n as real / 2.0
    requires if n == 0 then parts as real == exact else parts as real - exact > -(n as real) / 2.0
    ensures -(n / 2) <= HalfUp(exact) - parts <= n / 2
  {
    HalfUpIsNearest(exact);
    var diff := HalfUp(exact) - parts;
    assert 2.0 * diff as real < n as real + 1.0;
    assert 2.0 * diff as real > -(n as real) - 1.0;
    assert -1 - n < 2 * diff < n + 1;
  }

  /** `n` units of the last stored decimal, as an amount. */
  function InUnits(n: int, d: nat): real {
    n as real / Pow10(d) as real
  }

  lemma InUnitsAdds(m: int, n: int, d: nat)
    ensures InUnits(m + n, d) == InUnits(m, d) + InUnits(n, d)
  {
  }

  lemma InUnitsDifference(m: int, n: int, bound: int, d: nat)
    requires -bound <= m - n <= bound
    ensures -InUnits(bound, d) <= InUnits(m, d) - InUnits(n, d) <= InUnits(bound, d)
  {
    InUnitsMonotone(m, n + bound, d);
    InUnitsMonotone(n, m + bound, d);
    InUnitsAdds(n, bound, d);
    InUnitsAdds(m, bound, d);
  }

  lemma InUnitsMonotone(m: int, n: int, d: nat)
    requires m <= n
    ensures InUnits(m, d) <= InUnits(n, d)
  {
    var p := Pow10(d) as real;
    var gap := (n - m) as real / p;
    assert gap >= 0.0;
    assert n as real / p == m as real / p + gap;
  }

  lemma StoredNothing(d: nat)
    ensures Units(0.0, d) == 0 && InUnits(0, d) == 0.0
  {
    assert Scaled(0.0, d) == 0.0;
  }

  lemma ThreeUnits(a: real, b: real, c: real, d: nat)
    requires a >= 0.0 && b >= 0.0 && c >= 0.0
    ensures -1 <= Units(a + b + c, d) - (Units(a, d) + Units(b, d) + Units(c, d)) <= 1
  {
    var xs := [a, b, c];
    RoundingASum(xs, d);
    assert xs[..2] == [a, b] && [a, b][..1] == [a] && [a][..0] == [];
    assert Sum([a]) == Sum([]) + a && Sum([a, b]) == Sum([a]) + b && Sum(xs) == Sum([a, b]) + c;
    assert SumOfUnits([a], d) == Units(a, d) && SumOfUnits([a, b], d) == SumOfUnits([a], d) + Units(b, d);
  }

  /** So the stored total is within one unit of the stored input, output and extras together. */
  lemma StoredTotalWithinOneUnit(c: Cost, exact: Cost, usage: Usage, config: PricingConfig, d: nat)
    requires IsUnroundedCost(exact, usage, config) && RatesNotNegative(config)
    requires c == Rounded(exact, d)
    ensures -InUnits(1, d) <= c.total - (Amount(c.input) + Amount(c.output) + c.extras) <= InUnits(1, d)
  {
    AmountsNotNegative(exact, usage, config);
    StoredAmounts(c, exact, d);
    var a, b, e := Amount(exact.input), Amount(exact.output), exact.extras;
    assert exact.total == a + b + e;
    hide *;
    ThreeUnits(a, b, e, d);
    InUnitsDifference(Units(exact.total, d), Units(a, d) + Units(b, d) + Units(e, d), 1, d);
    InUnitsAdds(Units(a, d) + Units(b, d), Units(e, d), d);
    InUnitsAdds(Units(a, d), Units(b, d), d);
  }

  lemma StoredAmounts(c: Cost, exact: Cost, d: nat)
    requires c == Rounded(exact, d)
    ensures c.total == InUnits(Units(exact.total, d), d) && c.extras == InUnits(Units(exact.extras, d), d)
    ensures Amount(c.input) == InUnits(Units(Amount(exact.input), d), d)
    ensures Amount(c.output) == InUnits(Units(Amount(exact.output), d), d)
  {
    StoredNothing(d);
    hide Units, InUnits;
  }

  /** The recorded costs of extras, in listing order. */
  function CostList(extras: seq<ExtraDimension>, costs: map<string, real>): seq<real> {
    if extras == [] then []
    else
      var init, e := extras[..|extras| - 1], extras[|extras| - 1];
      if e.name in costs then CostList(init, costs) + [costs[e.name]] else CostList(init, costs)
  }

  /** The extra's cost is recorded if it was used at all. */
  predicate IsRecorded(e: ExtraDimension, costs: map<string, real>, usage: Usage, multiplier: real) {
    if e.name in costs then costs[e.name] == DimensionCost(Tokens(usage, e.name), e.costPer1k, multiplier)
    else Tokens(usage, e.name) == 0
  }

  lemma SumSnoc(xs: seq<real>, x: real)
    ensures Sum(xs + [x]) == Sum(xs) + x
  {
    assert (xs + [x])[..|xs|] == xs;
  }

  lemma {:induction false} ExtrasAreTheirSum(extras: seq<ExtraDimension>, costs: map<string, real>, usage: Usage, multiplier: real)
    requires multiplier >= 0.0 && forall e | e in extras :: e.costPer1k >= 0.0
    requires forall e | e in extras :: IsRecorded(e, costs, usage, multiplier)
    ensures var list := CostList(extras, costs);
      Sum(list) == ExtrasCost(extras, usage, multiplier) && NonNegative(list)
  {
    if extras != [] {
      var init, e := extras[..|extras| - 1], extras[|extras| - 1];
      assert IsRecorded(e, costs, usage, multiplier);
      ExtrasAreTheirSum(init, costs, usage, multiplier);
      CostNotNegative(Tokens(usage, e.name), e.costPer1k, multiplier);
      if e.name in costs {
        SumSnoc(CostList(init, costs), costs[e.name]);
      }
    }
  }

  /** `stored` are the amounts `exact`, each in units. */
  ghost predicate AreStored(stored: seq<real>, exact: seq<real>, d: nat) {
    |stored| == |exact| && forall i | 0 <= i < |exact| :: stored[i] == InUnits(Units(exact[i], d), d)
  }

  lemma {:induction false} StoredCostList(extras: seq<ExtraDimension>, exact: map<string, real>, stored: map<string, real>, d: nat)
    requires stored.Keys == exact.Keys && forall name | name in exact :: stored[name] == InUnits(Units(exact[name], d), d)
    ensures AreStored(CostList(extras, stored), CostList(extras, exact), d)
  {
    hide InUnits, Units;
    if extras != [] {
      StoredCostList(extras[..|extras| - 1], exact, stored, d);
      assert forall name :: name in exact <==> name in stored;
    }
  }

  lemma StoredLength(stored: seq<real>, exact: seq<real>, d: nat)
    requires AreStored(stored, exact, d)
    ensures |stored| == |exact|
  {
  }

  lemma {:induction false} SumOfStored(stored: seq<real>, exact: seq<real>, d: nat)
    requires AreStored(stored, exact, d)
    ensures Sum(stored) == InUnits(SumOfUnits(exact, d), d)
  {
    if exact == [] {
      StoredNothing(d);
    } else {
      var n := |exact| - 1;
      SumOfStored(stored[..n], exact[..n], d);
      InUnitsAdds(SumOfUnits(exact[..n], d), Units(exact[n], d), d);
      hide InUnits, Units;
    }
  }

  /** And the stored extras are within half a unit per recorded extra of their stored costs. */
  lemma StoredExtrasWithinHalfAUnitEach(c: Cost, exact: Cost, usage: Usage, config: PricingConfig, d: nat)
    requires IsUnroundedCost(exact, usage, config) && RatesNotNegative(config)
    requires c == Rounded(exact, d)
    ensures var list := CostList(config.extras, c.extraCosts);
      -InUnits(|list| / 2, d) <= c.extras - Sum(list) <= InUnits(|list| / 2, d)
  {
    AmountsNotNegative(exact, usage, config);
    StoredAmounts(c, exact, d);
    var list := CostList(config.extras, exact.extraCosts);
    ExtrasAreTheirSum(config.extras, exact.extraCosts, usage, exact.multiplier);
    assert exact.extras == Sum(list);
    assert c.extraCosts.Keys == exact.extraCosts.Keys;
    hide *;
    RoundingASum(list, d);
    StoredCostList(config.extras, exact.extraCosts, c.extraCosts, d);
    SumOfStored(CostList(config.extras, c.extraCosts), list, d);
    StoredLength(CostList(config.extras, c.extraCosts), list, d);
    InUnitsDifference(Units(exact.extras, d), SumOfUnits(list, d), |list| / 2, d);
  }

  /** Half up at written-out amounts: to cents, and to no decimals. */
  lemma RoundingWrittenOut()
    ensures Round(0.125, 2) == 0.13 && Round(0.124, 2) == 0.12 && Round(2.5, 0) == 3.0
  {
    assert Pow10(2) == 10 * Pow10(1) == 100 && Pow10(0) == 1;
  }

  /** The bound is reached for every `n`: by `n` amounts of half a unit. */
  lemma {:induction false} RoundingBoundIsReached(n: nat)
    ensures var xs := seq(n, _ => 0.5); SumOfUnits(xs, 0) - Units(Sum(xs), 0) == n / 2
  {
    HalvesAddUp(n);
    var x := n as real / 2.0;
    assert Pow10(0) == 1;
    HalfUpIsNearest(x);
  }

  lemma {:induction false} HalvesAddUp(n: nat)
    ensures var xs := seq(n, _ => 0.5); Sum(xs) == n as real / 2.0 && SumOfUnits(xs, 0) == n
  {
    if n > 0 {
      HalvesAddUp(n - 1);
      var xs := seq(n, _ => 0.5);
      assert xs[..n - 1] == seq(n - 1, _ => 0.5);
      assert Pow10(0) == 1 && Units(0.5, 0) == 1;
    }
  }
}
