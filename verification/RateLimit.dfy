/**
 The sliding-window rate limiter. The limiter keeps only the recent admissions of a key; the
 module shows that it decides as the complete admission history would. Assumed: one policy
 per key, and a clock that never runs backwards.
 */
module RateLimit {
  import opened Wrappers
  import opened Ordering

  datatype RawPolicy = RawPolicy(maxRequests: int, windowSeconds: real)

  type RateLimitPolicy = p: RawPolicy | p.maxRequests >= 1 && p.windowSeconds > 0.0 witness RawPolicy(1, 1.0)

  datatype Decision = Decision(allowed: bool, remaining: int, retryAfterSeconds: Option<real>)

  /** The admissions in the half-open interval (lo, hi]. */
  function Within(log: seq<real>, lo: real, hi: real): seq<real> {
    Filter((t: real) => lo < t <= hi, log)
  }

  /** How many admissions count against the limit at time `now`, judged from the complete history. */
  function Load(log: seq<real>, policy: RateLimitPolicy, now: real): nat {
    |Within(log, now - policy.windowSeconds, now)|
  }

  ghost predicate Chronological(log: seq<real>) {
    forall i, j :: 0 <= i < j < |log| ==> log[i] <= log[j]
  }

  /** Any admission is a whole window later than the one `maxRequests` places before it. */
  ghost predicate Spaced(log: seq<real>, policy: RateLimitPolicy) {
    forall i :: policy.maxRequests <= i < |log| ==> log[i - policy.maxRequests] <= log[i] - policy.windowSeconds
  }

  /** The deque is the history with a prefix dropped, and everything dropped has left the window for good. */
  ghost predicate PrunedFrom(hits: seq<real>, log: seq<real>, policy: RateLimitPolicy, clock: real) {
    && Chronological(log)
    && Spaced(log, policy)
    && |hits| <= |log|
    && |hits| <= policy.maxRequests
    && hits == log[|log| - |hits|..]
    && (forall i :: 0 <= i < |log| - |hits| ==> log[i] <= clock - policy.windowSeconds)
    && (forall i :: 0 <= i < |log| ==> log[i] <= clock)
  }

  lemma {:induction false} WithinNone(log: seq<real>, lo: real, hi: real)
    requires forall i :: 0 <= i < |log| ==> log[i] <= lo || hi < log[i]
    ensures Within(log, lo, hi) == []
  {
    if log != [] {
      WithinNone(log[1..], lo, hi);
    }
  }

  lemma {:induction false} WithinAll(log: seq<real>, lo: real, hi: real)
    requires forall i :: 0 <= i < |log| ==> lo < log[i] <= hi
    ensures Within(log, lo, hi) == log
  {
    if log != [] {
      WithinAll(log[1..], lo, hi);
    }
  }

  /** Splitting the history at the window's lower edge, the load is the length of the later part. */
  lemma LoadIsSuffix(log: seq<real>, policy: RateLimitPolicy, now: real, n: nat)
    requires n <= |log|
    requires forall i :: 0 <= i < n ==> log[i] <= now - policy.windowSeconds
    requires forall i :: n <= i < |log| ==> now - policy.windowSeconds < log[i] <= now
    ensures Within(log, now - policy.windowSeconds, now) == log[n..]
    ensures Load(log, policy, now) == |log| - n
  {
    var lo := now - policy.windowSeconds;
    WithinNone(log[..n], lo, now);
    WithinAll(log[n..], lo, now);
    FilterConcat((t: real) => lo < t <= now, log[..n], log[n..]);
    assert log == log[..n] + log[n..];
  }

  lemma {:induction false} WithinIsPrefix(log: seq<real>, lo: real, hi: real) returns (b: nat)
    requires Chronological(log)
    requires log != [] ==> lo < log[0]
    ensures b <= |log| && Within(log, lo, hi) == log[..b]
    ensures b > 0 ==> log[b - 1] <= hi
  {
    if log == [] || hi < log[0] {
      WithinNone(log, lo, hi);
      b := 0;
    } else {
      var c := WithinIsPrefix(log[1..], lo, hi);
      b := c + 1;
      assert log[..b] == [log[0]] + log[1..][..c];
    }
  }

  lemma {:induction false} WithinIsSlice(log: seq<real>, lo: real, hi: real) returns (a: nat, b: nat)
    requires Chronological(log)
    ensures a <= b <= |log| && Within(log, lo, hi) == log[a..b]
    ensures a < b ==> lo < log[a] && log[b - 1] <= hi
  {
    if log != [] && log[0] <= lo {
      var c, d := WithinIsSlice(log[1..], lo, hi);
      a, b := c + 1, d + 1;
      assert log[a..b] == log[1..][c..d];
    } else {
      a := 0;
      b := WithinIsPrefix(log, lo, hi);
      assert log[0..b] == log[..b];
    }
  }

  ghost function Admitted(log: seq<real>, policy: RateLimitPolicy, now: real): set<nat> {
    set i: nat | i < |log| && now - policy.windowSeconds < log[i] <= now
  }

  /** The load is the number of admissions after the start of the window, up to and including now. */
  lemma {:induction false} LoadExactly(log: seq<real>, policy: RateLimitPolicy, now: real)
    ensures Load(log, policy, now) == |Admitted(log, policy, now)|
  {
    if log != [] {
      var n, lo := |log| - 1, now - policy.windowSeconds;
      var keep := (t: real) => lo < t <= now;
      LoadExactly(log[..n], policy, now);
      FilterConcat(keep, log[..n], log[n..]);
      assert log == log[..n] + log[n..];
      assert Filter(keep, log[n..]) == if keep(log[n]) then [log[n]] else [];
      assert Admitted(log, policy, now) == Admitted(log[..n], policy, now) + if keep(log[n]) then {n} else {};
    } else {
      assert Admitted(log, policy, now) == {};
    }
  }

  /** However the admissions fell, no interval one window long holds more than `maxRequests` of them. */
  lemma NoIntervalOverfull(log: seq<real>, policy: RateLimitPolicy, x: real)
    requires Chronological(log) && Spaced(log, policy)
    ensures Load(log, policy, x) <= policy.maxRequests
  {
    var a, b := WithinIsSlice(log, x - policy.windowSeconds, x);
    assert policy.maxRequests < b ==> log[b - 1 - policy.maxRequests] <= log[b - 1] - policy.windowSeconds;
  }

  /**
   After a refusal at `now` with oldest counted admission `log[n]`: every time before
   `log[n]` plus the window would be refused as well, and that very time is admitted.
   */
  lemma RetryTimeIsExact(log: seq<real>, policy: RateLimitPolicy, now: real, n: nat)
    requires Chronological(log)
    requires n + policy.maxRequests == |log|
    requires forall i :: 0 <= i < n ==> log[i] <= now - policy.windowSeconds
    requires forall i :: n <= i < |log| ==> now - policy.windowSeconds < log[i] <= now
    ensures forall t :: now <= t < log[n] + policy.windowSeconds ==> Load(log, policy, t) >= policy.maxRequests
    ensures Load(log, policy, log[n] + policy.windowSeconds) < policy.maxRequests
  {
    forall t | now <= t < log[n] + policy.windowSeconds ensures Load(log, policy, t) >= policy.maxRequests {
      assert forall i :: n <= i < |log| ==> log[n] <= log[i];
      LoadIsSuffix(log, policy, t, n);
    }
    var t := log[n] + policy.windowSeconds;
    var lo := log[n];
    var a, b := WithinIsSlice(log, lo, t);
    assert t - policy.windowSeconds == lo;
  }

  /** The decision that the complete history `log` calls for at `now`; `after` is the history it leaves. */
  ghost predicate DecidesAs(log: seq<real>, policy: RateLimitPolicy, now: real, r: Decision, after: seq<real>) {
    && (r.allowed <==> Load(log, policy, now) < policy.maxRequests)
    && after == (if r.allowed then log + [now] else log)
    && (r.allowed ==> r.remaining == policy.maxRequests - Load(after, policy, now) && r.retryAfterSeconds.None?)
    && (!r.allowed ==> r.remaining == 0 && r.retryAfterSeconds.Some? && RetryExact(log, policy, now, r.retryAfterSeconds.value))
  }

  /** Any earlier retry would be refused as well, and a retry at that very moment is admitted. */
  ghost predicate RetryExact(log: seq<real>, policy: RateLimitPolicy, now: real, wait: real) {
    && wait > 0.0
    && (forall t :: now <= t < now + wait ==> Load(log, policy, t) >= policy.maxRequests)
    && Load(log, policy, now + wait) < policy.maxRequests
  }

  lemma PruningKeepsHistory(hits: seq<real>, kept: seq<real>, log: seq<real>, policy: RateLimitPolicy, clock: real, now: real)
    requires PrunedFrom(hits, log, policy, clock) && clock <= now
    requires |kept| <= |hits| && kept == hits[|hits| - |kept|..]
    requires forall i :: 0 <= i < |hits| - |kept| ==> hits[i] <= now - policy.windowSeconds
    requires kept != [] ==> now - policy.windowSeconds < kept[0]
    ensures PrunedFrom(kept, log, policy, now)
    ensures forall i :: |log| - |kept| <= i < |log| ==> now - policy.windowSeconds < log[i] <= now
    ensures Load(log, policy, now) == |kept|
  {
    var n := |log| - |kept|;
    assert kept == log[n..];
    forall i | n <= i < |log| ensures now - policy.windowSeconds < log[i] <= now {
      assert log[n] <= log[i];
    }
    LoadIsSuffix(log, policy, now, n);
  }

  lemma RefusalDecidesAs(kept: seq<real>, log: seq<real>, policy: RateLimitPolicy, now: real, r: Decision)
    requires PrunedFrom(kept, log, policy, now) && |kept| == policy.maxRequests
    requires forall i :: |log| - |kept| <= i < |log| ==> now - policy.windowSeconds < log[i] <= now
    requires r == Decision(false, 0, Some(kept[0] + policy.windowSeconds - now))
    ensures DecidesAs(log, policy, now, r, log)
  {
    var n := |log| - |kept|;
    LoadIsSuffix(log, policy, now, n);
    RetryTimeIsExact(log, policy, now, n);
  }

  lemma AdmissionDecidesAs(kept: seq<real>, log: seq<real>, policy: RateLimitPolicy, now: real, r: Decision)
    requires PrunedFrom(kept, log, policy, now) && |kept| < policy.maxRequests
    requires forall i :: |log| - |kept| <= i < |log| ==> now - policy.windowSeconds < log[i] <= now
    requires r == Decision(true, policy.maxRequests - |kept| - 1, None)
    ensures DecidesAs(log, policy, now, r, log + [now])
    ensures PrunedFrom(kept + [now], log + [now], policy, now)
  {
    var n, log' := |log| - |kept|, log + [now];
    LoadIsSuffix(log, policy, now, n);
    LoadIsSuffix(log', policy, now, n);
    assert kept + [now] == log'[n..];
  }

  ghost predicate AllPruned(
    hits: map<string, seq<real>>, admitted: map<string, seq<real>>, policyOf: string -> RateLimitPolicy, clock: real
  ) {
    && hits.Keys == admitted.Keys
    && forall key :: key in hits ==> PrunedFrom(hits[key], admitted[key], policyOf(key), clock)
  }

  /** One key moves on to `now`; the others only see time pass. */
  lemma OneKeyMoves(
    hits: map<string, seq<real>>, admitted: map<string, seq<real>>, policyOf: string -> RateLimitPolicy, clock: real,
    key: string, kept: seq<real>, log: seq<real>, now: real
  )
    requires AllPruned(hits, admitted, policyOf, clock) && clock <= now
    requires PrunedFrom(kept, log, policyOf(key), now)
    ensures AllPruned(hits[key := kept], admitted[key := log], policyOf, now)
  {
    forall other | other in hits ensures PrunedFrom(hits[other], admitted[other], policyOf(other), now) {
      assert PrunedFrom(hits[other], admitted[other], policyOf(other), clock);
    }
  }

  class InMemoryRateLimiter {
    const policyOf: string -> RateLimitPolicy
    var hits: map<string, seq<real>>
    /** Every admission since the key was last reset. */
    ghost var admitted: map<string, seq<real>>
    ghost var clock: real

    ghost predicate Valid()
      reads this
    {
      AllPruned(hits, admitted, policyOf, clock)
    }

    ghost function History(key: string): seq<real>
      reads this
    {
      if key in admitted then admitted[key] else []
    }

    constructor (policyOf: string -> RateLimitPolicy)
      ensures Valid()
      ensures this.policyOf == policyOf
      ensures forall key :: History(key) == []
    {
      this.policyOf := policyOf;
      hits, admitted, clock := map[], map[], 0.0;
    }

    /** Expired timestamps leave from the front; what is left was admitted after the cutoff. */
    method Prune(queue: seq<real>, cutoff: real) returns (kept: seq<real>)
      ensures |kept| <= |queue| && kept == queue[|queue| - |kept|..]
      ensures forall i :: 0 <= i < |queue| - |kept| ==> queue[i] <= cutoff
      ensures kept != [] ==> cutoff < kept[0]
    {
      kept := queue;
      while kept != [] && kept[0] <= cutoff
        invariant |kept| <= |queue| && kept == queue[|queue| - |kept|..]
        invariant forall i :: 0 <= i < |queue| - |kept| ==> queue[i] <= cutoff
      {
        kept := kept[1..];
      }
    }

    /** The decision on one key's deque, with the deque it leaves behind. */
    method Admit(queue: seq<real>, policy: RateLimitPolicy, now: real, ghost log: seq<real>, ghost clock: real)
      returns (kept: seq<real>, r: Decision, ghost after: seq<real>)
      requires PrunedFrom(queue, log, policy, clock) && clock <= now
      ensures PrunedFrom(kept, after, policy, now)
      ensures DecidesAs(log, policy, now, r, after)
    {
      kept := Prune(queue, now - policy.windowSeconds);
      PruningKeepsHistory(queue, kept, log, policy, clock, now);
      if |kept| >= policy.maxRequests {
        var wait := kept[0] + policy.windowSeconds - now;
        r := Decision(false, 0, Some(if wait < 0.0 then 0.0 else wait));
        assert kept[0] == log[|log| - |kept|];
        RefusalDecidesAs(kept, log, policy, now, r);
        after := log;
      } else {
        AdmissionDecidesAs(kept, log, policy, now, Decision(true, policy.maxRequests - |kept| - 1, None));
        kept, after := kept + [now], log + [now];
        r := Decision(true, policy.maxRequests - |kept|, None);
      }
    }

    /** Decides as the complete history of admissions would, and records the admission. */
    method Check(key: string, policy: RateLimitPolicy, now: real) returns (r: Decision)
      requires Valid()
      requires policy == policyOf(key)
      requires clock <= now
      modifies this`hits, this`admitted, this`clock
      ensures Valid() && clock == now
      ensures DecidesAs(old(History(key)), policy, now, r, History(key))
      ensures admitted == old(admitted)[key := History(key)]
    {
      var kept;
      ghost var after;
      ghost var log := History(key);
      kept := if key in hits then hits[key] else [];
      kept, r, after := Admit(kept, policy, now, log, clock);
      OneKeyMoves(hits, admitted, policyOf, clock, key, kept, after, now);
      hits, admitted, clock := hits[key := kept], admitted[key := after], now;
      assert History(key) == after;
    }

    /** No window-long interval ever holds more admissions of a key than its policy allows. */
    lemma NeverOverfull(key: string, x: real)
      requires Valid()
      ensures Load(History(key), policyOf(key), x) <= policyOf(key).maxRequests
    {
      assert key in hits ==> PrunedFrom(hits[key], admitted[key], policyOf(key), clock);
      NoIntervalOverfull(History(key), policyOf(key), x);
    }

    /** Clears one key, or all of them. */
    method Reset(key: Option<string>)
      requires Valid()
      modifies this`hits, this`admitted
      ensures Valid()
      ensures forall k :: History(k) == if key == None || key == Some(k) then [] else old(History(k))
    {
      match key {
        case None => hits, admitted := map[], map[];
        case Some(k) => hits, admitted := hits - {k}, admitted - {k};
      }
    }
  }
}
