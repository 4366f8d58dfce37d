/**
 Turning token usage and configured pricing into a cost with an honest provenance label.
 Decimal arithmetic is exact rational arithmetic here; results are rounded half to even at
 ten decimal places, which is where the total and its components can drift apart.
 */
module CostEngine {
  import opened Wrappers

  datatype Provenance = Actual | Estimated | Unavailable

  function Rank(p: Provenance): nat {
    match p
    case Actual => 2
    case Estimated => 1
    case Unavailable => 0
  }

  function Meet(a: Provenance, b: Provenance): Provenance {
    if Rank(b) < Rank(a) then b else a
  }

  /** `min` by rank; no values at all count as unavailable. */
  function Weakest(values: seq<Provenance>): Provenance {
    if values == [] then Unavailable
    else if |values| == 1 then values[0]
    else Meet(values[0], Weakest(values[1..]))
  }

  /** The label comes from one of the components and vouches for no more than any of them. */
  lemma {:induction false} WeakestIsLeast(values: seq<Provenance>)
    requires values != []
    ensures Weakest(values) in values
    ensures forall p :: p in values ==> Rank(Weakest(values)) <= Rank(p)
  {
    if |values| > 1 {
      WeakestIsLeast(values[1..]);
      assert forall p :: p in values <==> p == values[0] || p in values[1..];
    }
  }

  /** Order and repetition of the components do not matter: `Weakest` is associative, commutative and idempotent. */
  lemma WeakestDependsOnMembersOnly(a: seq<Provenance>, b: seq<Provenance>)
    requires forall p :: p in a <==> p in b
    ensures Weakest(a) == Weakest(b)
  {
    assert |a| > 0 ==> a[0] in a;
    assert |b| > 0 ==> b[0] in b;
    if a != [] {
      WeakestIsLeast(a);
      WeakestIsLeast(b);
    }
  }

  lemma {:induction false} WeakestConcat(a: seq<Provenance>, b: seq<Provenance>)
    requires a != [] && b != []
    ensures Weakest(a + b) == Meet(Weakest(a), Weakest(b))
  {
    if |a| == 1 {
      assert (a + b)[1..] == b;
    } else {
      WeakestConcat(a[1..], b);
      assert (a + b)[1..] == a[1..] + b;
    }
  }

  /** Labels combine piecewise exactly when neither part is empty, or the other part is unavailable anyway. */
  lemma CombiningExactlyWhen(a: seq<Provenance>, b: seq<Provenance>)
    ensures Weakest(a + b) == Meet(Weakest(a), Weakest(b))
       <==> (a == [] ==> Weakest(b) == Unavailable) && (b == [] ==> Weakest(a) == Unavailable)
  {
    if a == [] {
      assert a + b == b;
    } else if b == [] {
      assert a + b == a;
    } else {
      WeakestConcat(a, b);
    }
  }

  // ---- inputs

  datatype UsageSource = ProviderReported | LocallyEstimated

  datatype CostUnit = PerToken | Per1kTokens | Per1mTokens

  /** How many price units a number of tokens makes up. */
  function Units(tokens: int, unit: CostUnit): real {
    match unit
    case PerToken => tokens as real
    case Per1kTokens => tokens as real / 1000.0
    case Per1mTokens => tokens as real / 1000000.0
  }

  datatype TokenUsage = TokenUsage(inputTokens: Option<int>, outputTokens: Option<int>, source: UsageSource)

  /** `unit` is the unit recognised in the free-text column, if any. */
  datatype ModelPricing = ModelPricing(inputCost: Option<real>, outputCost: Option<real>, unit: Option<CostUnit>) {
    predicate IsUsable() {
      inputCost.Some? && outputCost.Some? && unit.Some?
    }
  }

  datatype ToolUsage = ToolUsage(calls: int, estimatedCostPerCall: Option<real>)

  datatype Reason = PricingNotConfigured | CostUnitUnrecognised | IncompleteTokenUsage

  datatype Computation = Computation(
    inputCost: Option<real>,
    outputCost: Option<real>,
    toolCost: Option<real>,
    infrastructureCost: Option<real>,
    totalCost: Option<real>,
    provenance: Provenance,
    unavailableReason: Option<Reason>
  ) {
    function ActualCost(): Option<real> {
      if provenance == Actual then totalCost else None
    }

    function EstimatedCost(): Option<real> {
      if provenance == Estimated then totalCost else None
    }
  }

  // ---- rounding

  const QUANTA_PER_UNIT := 10000000000.0

  /** Nearest integer, halves to even. */
  function RoundHalfEven(x: real): int {
    var low := x.Floor;
    var fraction := x - low as real;
    if fraction < 0.5 || (fraction == 0.5 && low % 2 == 0) then low else low + 1
  }

  lemma RoundingError(x: real)
    ensures -0.5 <= RoundHalfEven(x) as real - x <= 0.5
  {
  }

  /** The nearest integer, and of two equally near ones the even one. */
  lemma RoundedExactlyWhen(x: real, r: int)
    ensures RoundHalfEven(x) == r <==> -0.5 < r as real - x < 0.5 || ((r as real - x == 0.5 || r as real - x == -0.5) && r % 2 == 0)
  {
  }

  lemma RoundMonotone(a: real, b: real)
    requires a <= b
    ensures RoundHalfEven(a) <= RoundHalfEven(b)
  {
    if a.Floor < b.Floor {
      assert RoundHalfEven(a) <= a.Floor + 1 <= b.Floor <= RoundHalfEven(b);
    } else {
      assert a.Floor as real <= a <= b;
      assert a.Floor == b.Floor;
    }
  }

  function Quanta(x: real): int {
    RoundHalfEven(x * QUANTA_PER_UNIT)
  }

  function Quantize(x: real): real {
    Quanta(x) as real / QUANTA_PER_UNIT
  }

  function QuantizeOptional(x: Option<real>): Option<real> {
    if x.Some? then Some(Quantize(x.value)) else None
  }

  // ---- the computation

  function TokenCost(tokens: Option<int>, rate: Option<real>, unit: CostUnit): Option<real> {
    if tokens.None? || rate.None? then None
    else Some(Units(tokens.value, unit) * rate.value)
  }

  function ToolCost(tools: ToolUsage): Option<real> {
    if tools.calls > 0 && tools.estimatedCostPerCall.Some? then Some(tools.calls as real * tools.estimatedCostPerCall.value)
    else None
  }

  function Amount(x: Option<real>): real {
    if x.Some? then x.value else 0.0
  }

  function ResolveProvenance(source: UsageSource, hasToolCost: bool, hasInfrastructure: bool): Provenance {
    Weakest([if source == ProviderReported then Actual else Estimated]
            + (if hasToolCost then [Estimated] else [])
            + (if hasInfrastructure then [Estimated] else []))
  }

  function ComputeCost(usage: TokenUsage, pricing: ModelPricing, tools: ToolUsage, infrastructure: Option<real>): Computation {
    var tool := ToolCost(tools);
    if !pricing.IsUsable() then
      Computation(None, None, QuantizeOptional(tool), QuantizeOptional(infrastructure), None, Unavailable,
                  Some(if pricing.inputCost.None? || pricing.outputCost.None? then PricingNotConfigured else CostUnitUnrecognised))
    else
      var input := TokenCost(usage.inputTokens, pricing.inputCost, pricing.unit.value);
      var output := TokenCost(usage.outputTokens, pricing.outputCost, pricing.unit.value);
      if input.None? || output.None? then
        Computation(QuantizeOptional(input), QuantizeOptional(output), QuantizeOptional(tool), QuantizeOptional(infrastructure),
                    None, Unavailable, Some(IncompleteTokenUsage))
      else
        var total := input.value + output.value + Amount(tool) + Amount(infrastructure);
        Computation(QuantizeOptional(input), QuantizeOptional(output), QuantizeOptional(tool), QuantizeOptional(infrastructure),
                    Some(Quantize(total)), ResolveProvenance(usage.source, tool.Some?, infrastructure.Some?), None)
  }

  lemma ProvenanceOfComponents(source: UsageSource, hasToolCost: bool, hasInfrastructure: bool)
    ensures ResolveProvenance(source, hasToolCost, hasInfrastructure)
         == if source == ProviderReported && !hasToolCost && !hasInfrastructure then Actual else Estimated
  {
    var values := [if source == ProviderReported then Actual else Estimated]
                  + (if hasToolCost then [Estimated] else [])
                  + (if hasInfrastructure then [Estimated] else []);
    WeakestIsLeast(values);
    if hasToolCost || hasInfrastructure {
      assert Estimated in values;
    } else {
      assert values == [values[0]];
    }
  }

  /**
   A cost is never fabricated: there is a total exactly when it is labelled other than
   UNAVAILABLE, exactly when pricing is usable and both token counts are known; it is ACTUAL
   exactly when, besides, the provider reported the tokens and nothing estimated is included.
   */
  lemma ProvenanceIsHonest(usage: TokenUsage, pricing: ModelPricing, tools: ToolUsage, infrastructure: Option<real>)
    ensures var c := ComputeCost(usage, pricing, tools, infrastructure);
            var priced := pricing.inputCost.Some? && pricing.outputCost.Some? && pricing.unit.Some?;
            var computable := priced && usage.inputTokens.Some? && usage.outputTokens.Some?;
            && (c.totalCost.Some? <==> c.provenance != Unavailable)
            && (c.totalCost.Some? <==> computable)
            && (c.provenance == Unavailable <==> c.unavailableReason.Some?)
            && (c.provenance == Actual <==>
                  && computable && usage.source == ProviderReported && infrastructure.None?
                  && (tools.calls <= 0 || tools.estimatedCostPerCall.None?))
            && (c.totalCost.Some? <==> (c.ActualCost().Some? || c.EstimatedCost().Some?))
            && !(c.ActualCost().Some? && c.EstimatedCost().Some?)
  {
    ProvenanceOfComponents(usage.source, ToolCost(tools).Some?, infrastructure.Some?);
  }

  lemma NonNegativeProduct(a: real, b: real)
    requires a >= 0.0 && b >= 0.0
    ensures a * b >= 0.0
    ensures a == 0.0 ==> a * b == 0.0
  {
  }

  lemma MoreTokensCostMore(tokens: int, more: int, rate: real, unit: CostUnit)
    requires tokens <= more && rate >= 0.0
    ensures TokenCost(Some(tokens), Some(rate), unit).value <= TokenCost(Some(more), Some(rate), unit).value
  {
    var a, b := Units(tokens, unit), Units(more, unit);
    NonNegativeProduct(b - a, rate);
    assert (b - a) * rate == b * rate - a * rate;
  }

  /** At nonnegative rates, more tokens never make a stored total smaller. */
  lemma MoreUsageNeverCheaper(usage: TokenUsage, more: TokenUsage, pricing: ModelPricing, tools: ToolUsage, infrastructure: Option<real>)
    requires ComputeCost(usage, pricing, tools, infrastructure).totalCost.Some?
    requires more.inputTokens.Some? && more.outputTokens.Some?
    requires usage.inputTokens.value <= more.inputTokens.value && usage.outputTokens.value <= more.outputTokens.value
    requires pricing.inputCost.value >= 0.0 && pricing.outputCost.value >= 0.0
    ensures ComputeCost(more, pricing, tools, infrastructure).totalCost.Some?
    ensures ComputeCost(usage, pricing, tools, infrastructure).totalCost.value
         <= ComputeCost(more, pricing, tools, infrastructure).totalCost.value
  {
    var unit := pricing.unit.value;
    MoreTokensCostMore(usage.inputTokens.value, more.inputTokens.value, pricing.inputCost.value, unit);
    MoreTokensCostMore(usage.outputTokens.value, more.outputTokens.value, pricing.outputCost.value, unit);
    QuantizeMonotone(
      TokenCost(usage.inputTokens, pricing.inputCost, unit).value + TokenCost(usage.outputTokens, pricing.outputCost, unit).value
        + Amount(ToolCost(tools)) + Amount(infrastructure),
      TokenCost(more.inputTokens, pricing.inputCost, unit).value + TokenCost(more.outputTokens, pricing.outputCost, unit).value
        + Amount(ToolCost(tools)) + Amount(infrastructure));
  }

  lemma QuantizeMonotone(a: real, b: real)
    requires a <= b
    ensures Quantize(a) <= Quantize(b)
  {
    RoundMonotone(a * QUANTA_PER_UNIT, b * QUANTA_PER_UNIT);
  }

  /** The unit a price is quoted in does not matter: a per-token rate restated per thousand or per million costs the same. */
  lemma UnitsAgree(tokens: int, rate: real)
    ensures Amount(TokenCost(Some(tokens), Some(rate), PerToken)) == tokens as real * rate
    ensures Amount(TokenCost(Some(tokens), Some(rate * 1000.0), Per1kTokens)) == tokens as real * rate
    ensures Amount(TokenCost(Some(tokens), Some(rate * 1000000.0), Per1mTokens)) == tokens as real * rate
  {
    SameAmount(tokens as real, 1000.0, rate);
    SameAmount(tokens as real, 1000000.0, rate);
  }

  lemma SameAmount(tokens: real, perUnit: real, rate: real)
    requires perUnit > 0.0
    ensures tokens / perUnit * (rate * perUnit) == tokens * rate
  {
    var units := tokens / perUnit;
    assert units * perUnit == tokens;
    assert units * (rate * perUnit) == units * perUnit * rate;
  }

  /**
   The stored total differs from the sum of the stored components by at most two quanta, and
   by at most one when only tokens are priced.
   */
  lemma TotalNearComponents(usage: TokenUsage, pricing: ModelPricing, tools: ToolUsage, infrastructure: Option<real>)
    requires ComputeCost(usage, pricing, tools, infrastructure).totalCost.Some?
    ensures var c := ComputeCost(usage, pricing, tools, infrastructure);
            var drift := c.totalCost.value - (Amount(c.inputCost) + Amount(c.outputCost) + Amount(c.toolCost) + Amount(c.infrastructureCost));
            var quanta := if c.toolCost.None? && c.infrastructureCost.None? then 1.0 else 2.0;
            -quanta / QUANTA_PER_UNIT <= drift <= quanta / QUANTA_PER_UNIT
  {
    DriftIsSmall(TokenCost(usage.inputTokens, pricing.inputCost, pricing.unit.value),
                 TokenCost(usage.outputTokens, pricing.outputCost, pricing.unit.value), ToolCost(tools), infrastructure);
  }

  lemma DriftIsSmall(i: Option<real>, o: Option<real>, t: Option<real>, f: Option<real>)
    requires i.Some? && o.Some?
    ensures var stored := Amount(QuantizeOptional(i)) + Amount(QuantizeOptional(o)) + Amount(QuantizeOptional(t)) + Amount(QuantizeOptional(f));
            var drift := Quantize(i.value + o.value + Amount(t) + Amount(f)) - stored;
            var quanta := if t.None? && f.None? then 1.0 else 2.0;
            -quanta / QUANTA_PER_UNIT <= drift <= quanta / QUANTA_PER_UNIT
  {
    QuantaDrift(i.value, o.value, t, f);
    StoredAmount(i);
    StoredAmount(o);
    StoredAmount(t);
    StoredAmount(f);
    QuantaApart(Quanta(i.value + o.value + Amount(t) + Amount(f)), QuantaOf(i), QuantaOf(o), QuantaOf(t), QuantaOf(f),
                if t.None? && f.None? then 1 else 2);
  }

  lemma QuantaApart(total: int, i: int, o: int, t: int, f: int, bound: int)
    requires -bound <= total - (i + o + t + f) <= bound
    ensures var drift := total as real / QUANTA_PER_UNIT
                         - (i as real / QUANTA_PER_UNIT + o as real / QUANTA_PER_UNIT + t as real / QUANTA_PER_UNIT + f as real / QUANTA_PER_UNIT);
            -bound as real / QUANTA_PER_UNIT <= drift <= bound as real / QUANTA_PER_UNIT
  {
  }

  lemma StoredAmount(x: Option<real>)
    ensures Amount(QuantizeOptional(x)) == QuantaOf(x) as real / QUANTA_PER_UNIT
  {
  }

  function QuantaOf(x: Option<real>): int {
    if x.Some? then Quanta(x.value) else 0
  }

  lemma QuantaError(x: Option<real>)
    ensures var e := QuantaOf(x) as real - Amount(x) * QUANTA_PER_UNIT;
            if x.None? then e == 0.0 else -0.5 <= e <= 0.5
  {
    RoundingError(Amount(x) * QUANTA_PER_UNIT);
  }

  /** Rounding a sum and summing the roundings: five roundings, each off by at most half a quantum, and a whole number of quanta apart. */
  lemma QuantaDrift(i: real, o: real, t: Option<real>, f: Option<real>)
    ensures var drift := Quanta(i + o + Amount(t) + Amount(f)) - (Quanta(i) + Quanta(o) + QuantaOf(t) + QuantaOf(f));
            var bound := if t.None? && f.None? then 1 else 2;
            -bound <= drift <= bound
  {
    QuantaError(Some(i));
    QuantaError(Some(o));
    QuantaError(t);
    QuantaError(f);
    QuantaError(Some(i + o + Amount(t) + Amount(f)));
  }

  /** An empty part drags a label down although combining it adds nothing. */
  lemma EmptyPartIsUnavailable()
    ensures Weakest([] + [Actual]) == Actual && Meet(Weakest([]), Weakest([Actual])) == Unavailable
  {
    assert [] + [Actual] == [Actual];
  }

  // ---- what is charged

  /** What tokens cost at a price per token, per thousand or per million; an unknown count costs nothing yet. */
  function Charge(tokens: Option<int>, price: real, unit: CostUnit): real {
    if tokens.None? then 0.0
    else match unit
      case PerToken => tokens.value as real * price
      case Per1kTokens => tokens.value as real * price / 1000.0
      case Per1mTokens => tokens.value as real * price / 1000000.0
  }

  /** The same price, whatever unit it is quoted in: so much for each token. */
  lemma ChargedPerToken(tokens: int, rate: real)
    ensures Charge(Some(tokens), rate, PerToken) == tokens as real * rate
    ensures Charge(Some(tokens), rate * 1000.0, Per1kTokens) == tokens as real * rate
    ensures Charge(Some(tokens), rate * 1000000.0, Per1mTokens) == tokens as real * rate
  {
    assert tokens as real * (rate * 1000.0) == tokens as real * rate * 1000.0;
    assert tokens as real * (rate * 1000000.0) == tokens as real * rate * 1000000.0;
  }

  /** Within half of the tenth decimal place. */
  predicate Stored(stored: real, exact: real) {
    -0.00000000005 <= stored - exact <= 0.00000000005
  }

  lemma StoredIsNear(x: real)
    ensures Stored(Quantize(x), x)
  {
    RoundingError(x * QUANTA_PER_UNIT);
  }

  /** What the tool calls and the infrastructure allocation come to, priced or not. */
  lemma SurchargesAreMetered(usage: TokenUsage, pricing: ModelPricing, tools: ToolUsage, infrastructure: Option<real>)
    ensures var c := ComputeCost(usage, pricing, tools, infrastructure);
            && (c.toolCost.Some? <==> tools.calls > 0 && tools.estimatedCostPerCall.Some?)
            && (c.toolCost.Some? ==> Stored(c.toolCost.value, tools.calls as real * tools.estimatedCostPerCall.value))
            && (c.infrastructureCost.Some? <==> infrastructure.Some?)
            && (c.infrastructureCost.Some? ==> Stored(c.infrastructureCost.value, infrastructure.value))
  {
    StoredOptional(ToolCost(tools));
    StoredOptional(infrastructure);
  }

  lemma StoredOptional(x: Option<real>)
    ensures QuantizeOptional(x).Some? <==> x.Some?
    ensures x.Some? ==> Stored(QuantizeOptional(x).value, x.value)
  {
    if x.Some? {
      StoredIsNear(x.value);
    }
  }

  lemma PriceTimes(units: real, price: real, tokens: real, perUnit: real)
    requires perUnit > 0.0 && units == tokens / perUnit
    ensures units * price == tokens * price / perUnit
  {
    assert units * perUnit == tokens;
    assert units * price * perUnit == tokens * price;
  }

  lemma TokenCostIsCharge(tokens: Option<int>, price: real, unit: CostUnit)
    ensures TokenCost(tokens, Some(price), unit).Some? <==> tokens.Some?
    ensures tokens.Some? ==> TokenCost(tokens, Some(price), unit).value == Charge(tokens, price, unit)
  {
    if tokens.Some? {
      var t, units := tokens.value as real, Units(tokens.value, unit);
      match unit {
        case PerToken =>
        case Per1kTokens => PriceTimes(units, price, t, 1000.0);
        case Per1mTokens => PriceTimes(units, price, t, 1000000.0);
      }
      assert units * price == Charge(tokens, price, unit);
    }
  }

  /** Tool calls at their price and the infrastructure allocation, where there are any. */
  function Surcharge(tools: ToolUsage, infrastructure: Option<real>): real {
    (if tools.calls > 0 && tools.estimatedCostPerCall.Some? then tools.calls as real * tools.estimatedCostPerCall.value else 0.0)
    + (if infrastructure.Some? then infrastructure.value else 0.0)
  }

  lemma SurchargeIs(tools: ToolUsage, infrastructure: Option<real>)
    ensures Surcharge(tools, infrastructure) == Amount(ToolCost(tools)) + Amount(infrastructure)
  {
  }

  /** Each component is stored within half a quantum of its own charge, and the total within half a quantum of all of them. */
  ghost predicate Metered(c: Computation, usage: TokenUsage, input: real, output: real, surcharge: real) {
    && (c.inputCost.Some? <==> usage.inputTokens.Some?)
    && (c.inputCost.Some? ==> Stored(c.inputCost.value, input))
    && (c.outputCost.Some? <==> usage.outputTokens.Some?)
    && (c.outputCost.Some? ==> Stored(c.outputCost.value, output))
    && (c.totalCost.Some? <==> usage.inputTokens.Some? && usage.outputTokens.Some?)
    && (c.totalCost.Some? ==> Stored(c.totalCost.value, input + output + surcharge))
  }

  lemma StoredComputation(c: Computation, usage: TokenUsage, i: Option<real>, o: Option<real>, input: real, output: real, surcharge: real)
    requires (i.Some? <==> usage.inputTokens.Some?) && (i.Some? ==> i.value == input)
    requires (o.Some? <==> usage.outputTokens.Some?) && (o.Some? ==> o.value == output)
    requires c.inputCost == QuantizeOptional(i) && c.outputCost == QuantizeOptional(o)
    requires c.totalCost == if i.Some? && o.Some? then Some(Quantize(i.value + o.value + surcharge)) else None
    ensures Metered(c, usage, input, output, surcharge)
  {
    StoredIsNear(input);
    StoredIsNear(output);
    StoredIsNear(input + output + surcharge);
  }

  lemma ComputedFrom(usage: TokenUsage, pricing: ModelPricing, tools: ToolUsage, infrastructure: Option<real>)
    requires pricing.IsUsable()
    ensures var c := ComputeCost(usage, pricing, tools, infrastructure);
            var i, o := TokenCost(usage.inputTokens, pricing.inputCost, pricing.unit.value), TokenCost(usage.outputTokens, pricing.outputCost, pricing.unit.value);
            && c.inputCost == QuantizeOptional(i) && c.outputCost == QuantizeOptional(o)
            && c.totalCost == (if i.Some? && o.Some? then Some(Quantize(i.value + o.value + Surcharge(tools, infrastructure))) else None)
  {
    var i, o := TokenCost(usage.inputTokens, pricing.inputCost, pricing.unit.value), TokenCost(usage.outputTokens, pricing.outputCost, pricing.unit.value);
    SurchargeIs(tools, infrastructure);
    if i.Some? && o.Some? {
      assert i.value + o.value + (Amount(ToolCost(tools)) + Amount(infrastructure)) == i.value + o.value + Amount(ToolCost(tools)) + Amount(infrastructure);
    }
  }

  /** Usable pricing charges the input tokens the input price, the output tokens the output price, the surcharges, and nothing else. */
  lemma CostsAreMetered(usage: TokenUsage, pricing: ModelPricing, tools: ToolUsage, infrastructure: Option<real>)
    requires pricing.inputCost.Some? && pricing.outputCost.Some? && pricing.unit.Some?
    ensures Metered(ComputeCost(usage, pricing, tools, infrastructure), usage,
                    Charge(usage.inputTokens, pricing.inputCost.value, pricing.unit.value),
                    Charge(usage.outputTokens, pricing.outputCost.value, pricing.unit.value), Surcharge(tools, infrastructure))
  {
    var unit := pricing.unit.value;
    TokenCostIsCharge(usage.inputTokens, pricing.inputCost.value, unit);
    TokenCostIsCharge(usage.outputTokens, pricing.outputCost.value, unit);
    ComputedFrom(usage, pricing, tools, infrastructure);
    StoredComputation(ComputeCost(usage, pricing, tools, infrastructure), usage,
                      TokenCost(usage.inputTokens, pricing.inputCost, unit), TokenCost(usage.outputTokens, pricing.outputCost, unit),
                      Charge(usage.inputTokens, pricing.inputCost.value, unit), Charge(usage.outputTokens, pricing.outputCost.value, unit),
                      Surcharge(tools, infrastructure));
  }

  /** Why there is no total: the first thing missing of prices, unit and token counts. */
  lemma ReasonExactlyWhen(usage: TokenUsage, pricing: ModelPricing, tools: ToolUsage, infrastructure: Option<real>)
    ensures var reason := ComputeCost(usage, pricing, tools, infrastructure).unavailableReason;
            var unpriced := pricing.inputCost.None? || pricing.outputCost.None?;
            && (reason == Some(PricingNotConfigured) <==> unpriced)
            && (reason == Some(CostUnitUnrecognised) <==> !unpriced && pricing.unit.None?)
            && (reason == Some(IncompleteTokenUsage) <==>
                  !unpriced && pricing.unit.Some? && (usage.inputTokens.None? || usage.outputTokens.None?))
  {
  }
}
