/** What one execution may spend of steps, tool calls, tokens and time, and how spending is refused. */
module ExecutionBudget {
  import opened Wrappers

  datatype Limits = Limits(
    maxIterations: int, maxToolCalls: int, maxTotalTokens: Option<int>, maxDurationSeconds: real, startedAt: real)

  /** What `__post_init__` accepts. */
  predicate ValidLimits(l: Limits) {
    l.maxIterations >= 1 && l.maxToolCalls >= 0 && (l.maxTotalTokens.Some? ==> l.maxTotalTokens.value >= 1)
  }

  datatype Usage = Usage(iterations: int, toolCalls: int, tokens: int)

  datatype SpendError = DurationExceeded | IterationLimit | ToolCallLimit | TokenLimit | NegativeCount

  datatype Call = Iteration(now: real) | ToolCalls(count: int) | Tokens(count: int)

  datatype Outcome = Outcome(usage: Usage, error: Option<SpendError>)

  /** Refused tokens are still recorded; refused steps and tool calls are not. */
  function Spend(l: Limits, u: Usage, call: Call): Outcome {
    match call
    case Iteration(now) =>
      if now - l.startedAt >= l.maxDurationSeconds then Outcome(u, Some(DurationExceeded))
      else if u.iterations >= l.maxIterations then Outcome(u, Some(IterationLimit))
      else Outcome(u.(iterations := u.iterations + 1), None)
    case ToolCalls(count) =>
      if count < 0 then Outcome(u, Some(NegativeCount))
      else if u.toolCalls + count > l.maxToolCalls then Outcome(u, Some(ToolCallLimit))
      else Outcome(u.(toolCalls := u.toolCalls + count), None)
    case Tokens(count) =>
      if count < 0 then Outcome(u, Some(NegativeCount))
      else
        var spent := u.(tokens := u.tokens + count);
        Outcome(spent, if l.maxTotalTokens.Some? && spent.tokens > l.maxTotalTokens.value then Some(TokenLimit) else None)
  }

  class Budget {
    const limits: Limits
    var iterationsUsed: int
    var toolCallsUsed: int
    var tokensUsed: int

    constructor (limits: Limits)
      requires ValidLimits(limits)
      ensures this.limits == limits && Used() == Usage(0, 0, 0)
    {
      this.limits := limits;
      iterationsUsed, toolCallsUsed, tokensUsed := 0, 0, 0;
    }

    function Used(): Usage
      reads this
    {
      Usage(iterationsUsed, toolCallsUsed, tokensUsed)
    }

    method ConsumeIteration(now: real) returns (error: Option<SpendError>)
      modifies this`iterationsUsed
      ensures Outcome(Used(), error) == Spend(limits, old(Used()), Iteration(now))
    {
      if now - limits.startedAt >= limits.maxDurationSeconds {
        return Some(DurationExceeded);
      }
      if iterationsUsed >= limits.maxIterations {
        return Some(IterationLimit);
      }
      iterationsUsed := iterationsUsed + 1;
      error := None;
    }

    method ConsumeToolCall(count: int) returns (error: Option<SpendError>)
      modifies this`toolCallsUsed
      ensures Outcome(Used(), error) == Spend(limits, old(Used()), ToolCalls(count))
    {
      if count < 0 {
        return Some(NegativeCount);
      }
      if toolCallsUsed + count > limits.maxToolCalls {
        return Some(ToolCallLimit);
      }
      toolCallsUsed := toolCallsUsed + count;
      error := None;
    }

    method ConsumeTokens(count: int) returns (error: Option<SpendError>)
      modifies this`tokensUsed
      ensures Outcome(Used(), error) == Spend(limits, old(Used()), Tokens(count))
    {
      if count < 0 {
        return Some(NegativeCount);
      }
      tokensUsed := tokensUsed + count;
      if limits.maxTotalTokens.Some? && tokensUsed > limits.maxTotalTokens.value {
        return Some(TokenLimit);
      }
      error := None;
    }
  }

  // ---- whole executions

  /** The usage after a sequence of calls on a new budget. */
  function After(l: Limits, calls: seq<Call>): Usage {
    if calls == [] then Usage(0, 0, 0)
    else
      var last := |calls| - 1;
      Spend(l, After(l, calls[..last]), calls[last]).usage
  }

  function ErrorAt(l: Limits, calls: seq<Call>, i: nat): Option<SpendError>
    requires i < |calls|
  {
    Spend(l, After(l, calls[..i]), calls[i]).error
  }

  /** How many steps of the execution were allowed. */
  function StepsAllowed(l: Limits, calls: seq<Call>): nat {
    if calls == [] then 0
    else
      var last := |calls| - 1;
      StepsAllowed(l, calls[..last]) + if calls[last].Iteration? && ErrorAt(l, calls, last).None? then 1 else 0
  }

  function ToolCallsAllowed(l: Limits, calls: seq<Call>): int {
    if calls == [] then 0
    else
      var last := |calls| - 1;
      ToolCallsAllowed(l, calls[..last]) + if calls[last].ToolCalls? && ErrorAt(l, calls, last).None? then calls[last].count else 0
  }

  /** Tokens reported by any call with a nonnegative count, refused or not. */
  function TokensReported(calls: seq<Call>): int {
    if calls == [] then 0
    else
      var last := |calls| - 1;
      TokensReported(calls[..last]) + if calls[last].Tokens? && calls[last].count >= 0 then calls[last].count else 0
  }

  /** The counters account exactly for what was allowed, and no call sequence takes steps or tool calls past their limits. */
  lemma {:induction false} CountersAccountForCalls(l: Limits, calls: seq<Call>)
    requires ValidLimits(l)
    ensures After(l, calls) == Usage(StepsAllowed(l, calls), ToolCallsAllowed(l, calls), TokensReported(calls))
    ensures StepsAllowed(l, calls) <= l.maxIterations
    ensures 0 <= ToolCallsAllowed(l, calls) <= l.maxToolCalls
  {
    if calls != [] {
      CountersAccountForCalls(l, calls[..|calls| - 1]);
    }
  }

  /** A workflow that consumes a step on every pass is stopped: past `maxIterations` steps one of them was refused. */
  lemma {:induction false} LoopIsStopped(l: Limits, calls: seq<Call>) returns (i: nat)
    requires ValidLimits(l)
    requires forall c :: c in calls ==> c.Iteration?
    requires |calls| > l.maxIterations
    ensures i <= l.maxIterations && ErrorAt(l, calls, i).Some?
  {
    var head := calls[..l.maxIterations + 1];
    CountersAccountForCalls(l, head);
    i := FirstRefusal(l, head);
    assert head[..i] == calls[..i];
  }

  lemma {:induction false} FirstRefusal(l: Limits, calls: seq<Call>) returns (i: nat)
    requires forall c :: c in calls ==> c.Iteration?
    requires StepsAllowed(l, calls) < |calls|
    ensures i < |calls| && ErrorAt(l, calls, i).Some?
  {
    var last := |calls| - 1;
    if ErrorAt(l, calls, last).Some? {
      i := last;
    } else {
      var front := calls[..last];
      i := FirstRefusal(l, front);
      assert front[..i] == calls[..i];
    }
  }

  /** Tokens only accumulate. */
  lemma {:induction false} TokensGrow(l: Limits, calls: seq<Call>, i: nat)
    requires i <= |calls|
    ensures After(l, calls[..i]).tokens <= After(l, calls).tokens
    decreases |calls| - i
  {
    if i < |calls| {
      TokensGrow(l, calls, i + 1);
      assert calls[..i + 1][..i] == calls[..i];
    } else {
      assert calls[..i] == calls;
    }
  }

  /** Once the token ceiling has refused a spend, every later spend of tokens is refused too. */
  lemma OverrunStaysRefused(l: Limits, calls: seq<Call>, i: nat, j: nat)
    requires i < j < |calls|
    requires calls[i].Tokens? && ErrorAt(l, calls, i) == Some(TokenLimit)
    requires calls[j].Tokens?
    ensures ErrorAt(l, calls, j).Some?
  {
    TokensGrow(l, calls[..j], i + 1);
    assert calls[..j][..i + 1] == calls[..i + 1] && calls[..i + 1][..i] == calls[..i];
  }

  // ---- when a call is refused, told from the calls alone

  /** Steps asked for before the deadline. */
  function StepsInTime(l: Limits, calls: seq<Call>): nat {
    if calls == [] then 0
    else
      var last := |calls| - 1;
      StepsInTime(l, calls[..last]) + if calls[last].Iteration? && calls[last].now - l.startedAt < l.maxDurationSeconds then 1 else 0
  }

  /** Tool calls taken one after the other, skipping each batch that no longer fits. */
  function ToolCallsTaken(l: Limits, calls: seq<Call>): int {
    if calls == [] then 0
    else
      var last := |calls| - 1;
      var taken := ToolCallsTaken(l, calls[..last]);
      if calls[last].ToolCalls? && calls[last].count >= 0 && taken + calls[last].count <= l.maxToolCalls then taken + calls[last].count
      else taken
  }

  /** Tool calls asked for, whether or not they fit. */
  function ToolCallsRequested(calls: seq<Call>): int {
    if calls == [] then 0
    else
      var last := |calls| - 1;
      ToolCallsRequested(calls[..last]) + if calls[last].ToolCalls? && calls[last].count >= 0 then calls[last].count else 0
  }

  lemma {:induction false} UsedExactly(l: Limits, calls: seq<Call>)
    requires ValidLimits(l)
    ensures After(l, calls).iterations == if StepsInTime(l, calls) <= l.maxIterations then StepsInTime(l, calls) else l.maxIterations
    ensures After(l, calls).toolCalls == ToolCallsTaken(l, calls)
    ensures After(l, calls).tokens == TokensReported(calls)
  {
    if calls != [] {
      UsedExactly(l, calls[..|calls| - 1]);
    }
  }

  /**
   Every refusal, and no other: a step at or past the deadline, a step beyond as many as are allowed
   before it, a batch of tool calls that does not fit beside those taken, tokens that with all
   reported so far, its own included, exceed the ceiling, and a negative count.
   */
  lemma RefusedExactlyWhen(l: Limits, calls: seq<Call>, i: nat)
    requires ValidLimits(l) && i < |calls|
    ensures ErrorAt(l, calls, i) == Some(DurationExceeded) <==>
      calls[i].Iteration? && calls[i].now - l.startedAt >= l.maxDurationSeconds
    ensures ErrorAt(l, calls, i) == Some(IterationLimit) <==>
      calls[i].Iteration? && calls[i].now - l.startedAt < l.maxDurationSeconds && StepsInTime(l, calls[..i]) >= l.maxIterations
    ensures ErrorAt(l, calls, i) == Some(ToolCallLimit) <==>
      calls[i].ToolCalls? && calls[i].count >= 0 && ToolCallsTaken(l, calls[..i]) + calls[i].count > l.maxToolCalls
    ensures ErrorAt(l, calls, i) == Some(TokenLimit) <==>
      calls[i].Tokens? && calls[i].count >= 0 && l.maxTotalTokens.Some? && TokensReported(calls[..i + 1]) > l.maxTotalTokens.value
    ensures ErrorAt(l, calls, i) == Some(NegativeCount) <==> (calls[i].ToolCalls? || calls[i].Tokens?) && calls[i].count < 0
  {
    UsedExactly(l, calls[..i]);
    assert calls[..i + 1][..i] == calls[..i];
  }

  ghost predicate EverRefused(l: Limits, calls: seq<Call>, error: SpendError) {
    exists i: nat :: i < |calls| && ErrorAt(l, calls, i) == Some(error)
  }

  lemma EverRefusedStep(l: Limits, calls: seq<Call>, error: SpendError)
    requires calls != []
    ensures EverRefused(l, calls, error) <==>
      EverRefused(l, calls[..|calls| - 1], error) || ErrorAt(l, calls, |calls| - 1) == Some(error)
  {
    var front := calls[..|calls| - 1];
    if i: nat :| i < |calls| && ErrorAt(l, calls, i) == Some(error) {
      if i < |front| {
        assert front[..i] == calls[..i];
        assert ErrorAt(l, front, i) == Some(error);
      }
    }
    if i: nat :| i < |front| && ErrorAt(l, front, i) == Some(error) {
      assert front[..i] == calls[..i];
      assert ErrorAt(l, calls, i) == Some(error);
    }
  }

  /** Over a whole execution a limit refuses something exactly when more is asked for than it allows. */
  lemma {:induction false} LimitsBiteExactlyWhen(l: Limits, calls: seq<Call>)
    requires ValidLimits(l)
    ensures EverRefused(l, calls, IterationLimit) <==> StepsInTime(l, calls) > l.maxIterations
    ensures EverRefused(l, calls, ToolCallLimit) <==> ToolCallsRequested(calls) > l.maxToolCalls
    ensures !EverRefused(l, calls, ToolCallLimit) ==> ToolCallsTaken(l, calls) == ToolCallsRequested(calls)
    ensures EverRefused(l, calls, TokenLimit) <==> l.maxTotalTokens.Some? && TokensReported(calls) > l.maxTotalTokens.value
  {
    if calls != [] {
      var last := |calls| - 1;
      LimitsBiteExactlyWhen(l, calls[..last]);
      RefusedExactlyWhen(l, calls, last);
      EverRefusedStep(l, calls, IterationLimit);
      EverRefusedStep(l, calls, ToolCallLimit);
      EverRefusedStep(l, calls, TokenLimit);
      assert calls[..last + 1] == calls;
    }
  }
}
