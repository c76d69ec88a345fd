/** The retries of an AI node: which failures are worth another attempt, how long to wait before it,
    and what is reported in the end. */
module Retry {
  import opened Schema
  import opened Text
  import opened NodeRun

  datatype OnError = OnAll | OnTransient

  datatype ErrorClass = Fatal | Transient | Unknown

  datatype RetryConfig = RetryConfig(maxRetries: nat, delayMs: nat, onError: OnError)

  const DEFAULT_NODE_MAX_RETRIES: nat := 2
  const DEFAULT_NODE_RETRY_DELAY_MS: nat := 3000

  /** The retry settings a node declares. */
  datatype OwnRetry = OwnRetry(maxAttempts: nat, delayMs: Option<nat>, onError: Option<OnError>)

  /** A node's own retry settings, as far as they are given, or the defaults. */
  function EffectiveRetry(own: Option<OwnRetry>): RetryConfig {
    if own.None? then RetryConfig(DEFAULT_NODE_MAX_RETRIES, DEFAULT_NODE_RETRY_DELAY_MS, OnTransient)
    else RetryConfig(own.value.maxAttempts, own.value.delayMs.GetOr(DEFAULT_NODE_RETRY_DELAY_MS),
                     own.value.onError.GetOr(OnTransient))
  }

  predicate MatchesPattern(message: string, patterns: seq<string>) {
    exists p, i :: p in patterns && 0 <= i <= |message| && OccursAt(p, message, i)
  }

  /** Fatal patterns take precedence over transient ones. */
  function ClassifyError(lower: string, fatal: seq<string>, transient: seq<string>): ErrorClass {
    if MatchesPattern(lower, fatal) then Fatal
    else if MatchesPattern(lower, transient) then Transient
    else Unknown
  }

  predicate ShouldRetry(cfg: RetryConfig, classify: Failure -> ErrorClass, r: NodeResult) {
    r.failure.Some? &&
    var class_ := classify(r.failure.value);
    class_ != Fatal && (cfg.onError.OnAll? || class_ == Transient)
  }

  const TWO_TO_THE_64 := 0x1_0000_0000_0000_0000

  function Pow2(n: nat): (p: nat)
    ensures p >= 1
  {
    if n == 0 then 1 else 2 * Pow2(n - 1)
  }

  /** What saturating 64-bit arithmetic makes of a product. */
  function Capped(product: nat): nat {
    if product < TWO_TO_THE_64 then product else TWO_TO_THE_64 - 1
  }

  /** The delay before the retry that follows the given attempt, in 64-bit arithmetic: the product
      saturates, the power wraps around. */
  function Delay(cfg: RetryConfig, attempt: nat): nat {
    Capped(cfg.delayMs * (Pow2(attempt) % TWO_TO_THE_64))
  }

  function Delays(cfg: RetryConfig, n: nat): seq<nat> {
    seq(n, k requires 0 <= k < n => Delay(cfg, k))
  }

  /** How a node with retries ends: the first attempt that is not worth repeating, or the last one
      there is, decides, and nothing of the earlier ones is kept. */
  ghost predicate Retried(cfg: RetryConfig, classify: Failure -> ErrorClass, outcome: nat -> NodeResult,
                          attempts: nat, delays: seq<nat>, r: NodeResult)
  {
    && 1 <= attempts <= cfg.maxRetries + 1
    && r == outcome(attempts - 1)
    && (forall k :: 0 <= k < attempts - 1 ==> ShouldRetry(cfg, classify, outcome(k)))
    && (attempts == cfg.maxRetries + 1 || !ShouldRetry(cfg, classify, r))
    && delays == Delays(cfg, attempts - 1)
  }

  function Outcomes(c: Config, providers: nat -> Provider, prompt: string, resume: Option<string>): nat -> NodeResult {
    (attempt: nat) => NodeOutcome(c, providers(attempt), prompt, resume)
  }

  method RunWithRetries(own: Option<OwnRetry>, classify: Failure -> ErrorClass, c: Config, providers: nat -> Provider,
                        prompt: string, resume: Option<string>)
    returns (r: NodeResult, attempts: nat, delays: seq<nat>)
    ensures Retried(EffectiveRetry(own), classify, Outcomes(c, providers, prompt, resume), attempts, delays, r)
  {
    hide NodeOutcome;
    var cfg := EffectiveRetry(own);
    attempts, delays := 0, [];
    ghost var outcome := Outcomes(c, providers, prompt, resume);
    while true
      invariant attempts <= cfg.maxRetries
      invariant forall k :: 0 <= k < attempts ==> ShouldRetry(cfg, classify, outcome(k))
      invariant delays == Delays(cfg, attempts)
      decreases cfg.maxRetries - attempts
    {
      r := ExecuteNode(c, providers(attempts), prompt, resume);
      assert r == outcome(attempts);
      attempts := attempts + 1;
      if r.failure.None? {
        return;
      }
      var isFatal := classify(r.failure.value) == Fatal;
      var isTransient := classify(r.failure.value) == Transient;
      var shouldRetry := !isFatal && (cfg.onError == OnAll || (cfg.onError == OnTransient && isTransient));
      if !shouldRetry || attempts - 1 >= cfg.maxRetries {
        return;
      }
      delays := delays + [Delay(cfg, attempts - 1)];
    }
  }

  function Sum(delays: seq<nat>): nat {
    if |delays| == 0 then 0 else Sum(delays[..|delays| - 1]) + delays[|delays| - 1]
  }

  lemma {:induction false} Pow2Fits(n: nat)
    requires n < 64
    ensures Pow2(n) < TWO_TO_THE_64
  {
    var top := 63;
    Pow2Grows(n, top);
    Pow2At63(top);
    hide Pow2;
  }

  lemma {:induction false} Pow2Grows(m: nat, n: nat)
    requires m <= n
    ensures Pow2(m) <= Pow2(n)
  {
    if m < n {
      Pow2Grows(m, n - 1);
    }
  }

  lemma {:induction false} Pow2Adds(m: nat, n: nat)
    ensures Pow2(m + n) == Pow2(m) * Pow2(n)
  {
    if n > 0 {
      Pow2Adds(m, n - 1);
    }
  }

  lemma Pow2By7(n: nat)
    ensures Pow2(n + 7) == 128 * Pow2(n)
  {
    assert Pow2(n + 7) == 2 * Pow2(n + 6) == 4 * Pow2(n + 5) == 8 * Pow2(n + 4);
    assert Pow2(n + 4) == 2 * Pow2(n + 3) == 4 * Pow2(n + 2) == 8 * Pow2(n + 1) == 16 * Pow2(n);
  }

  lemma Pow2By21(n: nat)
    ensures Pow2(n + 21) == 0x20_0000 * Pow2(n)
  {
    Pow2By7(n);
    Pow2By7(n + 7);
    Pow2By7(n + 14);
    hide Pow2;
  }

  lemma Pow2At63(n: nat)
    requires n == 63
    ensures Pow2(n) == TWO_TO_THE_64 / 2
  {
    var m: nat := n - 63;
    assert Pow2(m) == 1;
    hide Pow2;
    Pow2By21(m);
    Pow2By21(m + 21);
    Pow2By21(m + 42);
  }

  lemma DelayAt(cfg: RetryConfig, k: nat)
    requires k < 64
    ensures Delay(cfg, k) <= cfg.delayMs * Pow2(k)
    ensures Delay(cfg, k) == Capped(cfg.delayMs * Pow2(k))
  {
    Pow2Fits(k);
    hide Pow2;
    NoWrap(Pow2(k));
  }

  lemma NoWrap(p: nat)
    requires p < TWO_TO_THE_64
    ensures p % TWO_TO_THE_64 == p
  {
  }

  /** From the 65th retry on the power has wrapped around to zero, and there is no waiting at all. */
  lemma BackoffWrapsAround(cfg: RetryConfig, attempt: nat)
    requires attempt >= 64
    ensures Delay(cfg, attempt) == 0
  {
    var top: nat := 63;
    var wrapped: nat := top + 1;
    Pow2Adds(wrapped, attempt - wrapped);
    Pow2At63(top);
    assert Pow2(wrapped) == 2 * Pow2(top);
    hide Pow2;
    Multiple(Pow2(attempt - wrapped));
  }

  lemma Multiple(k: nat)
    ensures (TWO_TO_THE_64 * k) % TWO_TO_THE_64 == 0
  {
  }

  lemma OneMoreDelay(cfg: RetryConfig, n: nat)
    ensures Sum(Delays(cfg, n + 1)) == Sum(Delays(cfg, n)) + Delay(cfg, n)
  {
    hide Delay;
    assert Delays(cfg, n + 1)[..n] == Delays(cfg, n);
  }

  /** The whole time a node spends waiting is at most `delay_ms` * (2^n - 1), and exactly that as long
      as the last delay fits into 64 bits. */
  lemma {:induction false} BackoffIsBounded(cfg: RetryConfig, n: nat)
    ensures Sum(Delays(cfg, n)) <= cfg.delayMs * (Pow2(n) - 1)
    ensures n == 0 || cfg.delayMs * Pow2(n - 1) < TWO_TO_THE_64 ==>
              Sum(Delays(cfg, n)) == cfg.delayMs * (Pow2(n) - 1)
  {
    hide Delay;
    if n > 0 {
      hide Delays;
      DelayIsBounded(cfg, n - 1);
      OneMoreDelay(cfg, n - 1);
      BackoffIsBounded(cfg, n - 1);
      DoubleDelay(cfg.delayMs, Pow2(n - 1));
      if n > 1 {
        DoubleDelay(cfg.delayMs, Pow2(n - 2));
      }
    }
  }

  lemma DelayIsBounded(cfg: RetryConfig, k: nat)
    ensures Delay(cfg, k) <= cfg.delayMs * Pow2(k)
    ensures cfg.delayMs * Pow2(k) < TWO_TO_THE_64 ==> Delay(cfg, k) == cfg.delayMs * Pow2(k)
  {
    if k < 64 {
      DelayAt(cfg, k);
    } else {
      BackoffWrapsAround(cfg, k);
      Pow2Overflows(k);
      hide Delay, Pow2;
      BigProduct(cfg.delayMs, Pow2(k));
    }
  }

  lemma Pow2Overflows(k: nat)
    requires k >= 64
    ensures Pow2(k) >= TWO_TO_THE_64
  {
    var top: nat := 63;
    Pow2At63(top);
    assert Pow2(top + 1) == 2 * Pow2(top);
    hide Pow2;
    Pow2Grows(top + 1, k);
  }

  lemma BigProduct(d: nat, p: nat)
    requires p >= TWO_TO_THE_64
    ensures d == 0 ==> d * p == 0
    ensures d > 0 ==> d * p >= TWO_TO_THE_64
  {
    if d > 0 {
      Monotone(1, d, p);
    }
  }

  /** The delay before the retry that follows attempt `k`: the first delay, doubled `k` times, or what fits
      into 64 bits; and nothing from the 65th retry on. */
  ghost function Saturated(first: nat, k: nat): nat {
    if k >= 64 then 0
    else if first * Pow2(k) > 0xFFFF_FFFF_FFFF_FFFF then 0xFFFF_FFFF_FFFF_FFFF
    else first * Pow2(k)
  }

  /** The delay is the intended one, doubled with every retry and capped, exactly up to the 64th retry, and
      behind it only if there is no delay at all. */
  lemma WhenDelayDoubles(cfg: RetryConfig, k: nat)
    ensures Delay(cfg, k) == Saturated(cfg.delayMs, k)
    ensures Delay(cfg, k) == Capped(cfg.delayMs * Pow2(k)) <==> k < 64 || cfg.delayMs == 0
  {
    if k < 64 {
      DelayAt(cfg, k);
    } else {
      BackoffWrapsAround(cfg, k);
      Pow2Overflows(k);
      hide Delay, Pow2;
      BigProduct(cfg.delayMs, Pow2(k));
    }
  }

  lemma DoubleDelay(d: nat, p: nat)
    ensures d * (2 * p - 1) == d * (p - 1) + d * p
    ensures d * p <= d * (2 * p)
  {
    Distribute(d, p, p);
  }

  lemma Distribute(d: nat, a: int, b: int)
    ensures d * (a + b) == d * a + d * b
  {
  }

  lemma Monotone(a: nat, b: nat, d: nat)
    requires a <= b
    ensures a * d <= b * d && d * a <= d * b
  {
  }

  function PassTotal(c: Config, providers: nat -> Provider, prompt: string, resume: Option<string>,
                     attempts: nat): nat
  {
    if attempts == 0 then 0
    else PassTotal(c, providers, prompt, resume, attempts - 1) + |Passes(c, providers(attempts - 1), prompt, resume)|
  }

  lemma OneMore(k: nat, m: nat)
    ensures (k + 1) * m == k * m + m
  {
  }

  lemma {:induction false} PassTotalIsBounded(c: Config, providers: nat -> Provider, prompt: string,
                                              resume: Option<string>, attempts: nat)
    ensures PassTotal(c, providers, prompt, resume, attempts) <=
            attempts * if c.bestEffort && c.outputFormat.Some? then 4 else 1
  {
    hide Passes;
    if attempts > 0 {
      PassTotalIsBounded(c, providers, prompt, resume, attempts - 1);
      PassesAreBounded(c, providers(attempts - 1), prompt, resume);
      OneMore(attempts - 1, if c.bestEffort && c.outputFormat.Some? then 4 else 1);
    }
  }

  /** However the provider behaves, a node with retries calls it at most `max_retries` + 1 times, times four if
      it may be asked for corrections, waits no longer than the bound, and makes no attempt after one that
      failed with a fatal error. */
  lemma RetriesAreBounded(cfg: RetryConfig, classify: Failure -> ErrorClass, c: Config, providers: nat -> Provider,
                          prompt: string, resume: Option<string>, attempts: nat, delays: seq<nat>, r: NodeResult)
    requires Retried(cfg, classify, Outcomes(c, providers, prompt, resume), attempts, delays, r)
    ensures PassTotal(c, providers, prompt, resume, attempts) <=
            (cfg.maxRetries + 1) * if c.bestEffort && c.outputFormat.Some? then 4 else 1
    ensures Sum(delays) <= cfg.delayMs * (Pow2(cfg.maxRetries) - 1)
    ensures forall k: nat :: k < attempts && IsFatal(classify, Outcomes(c, providers, prompt, resume)(k)) ==>
              k == attempts - 1
  {
    hide NodeOutcome, Delay, Pow2, Passes;
    PassTotalIsBounded(c, providers, prompt, resume, attempts);
    Monotone(attempts, cfg.maxRetries + 1, if c.bestEffort && c.outputFormat.Some? then 4 else 1);
    BackoffIsBounded(cfg, attempts - 1);
    Pow2Grows(attempts - 1, cfg.maxRetries);
    Monotone(Pow2(attempts - 1) - 1, Pow2(cfg.maxRetries) - 1, cfg.delayMs);
  }

  /** Whether a node's own settings, or the defaults, are for repeating an attempt that ended this way. */
  ghost predicate Repeats(own: Option<OwnRetry>, classify: Failure -> ErrorClass, r: NodeResult) {
    && r.failure.Some? && classify(r.failure.value) != Fatal
    && ((own.Some? && own.value.onError == Some(OnAll)) || classify(r.failure.value) == Transient)
  }

  /** The retries of a node by what it declares: without settings of its own two retries, after 3 and 6
      seconds; with them as many as they say, the delay doubling from the given one or from 3 seconds; and
      only after transient errors unless the node wants all errors but fatal ones retried. */
  lemma RetriesAreAsDeclared(own: Option<OwnRetry>, classify: Failure -> ErrorClass, outcome: nat -> NodeResult,
                             attempts: nat, delays: seq<nat>, r: NodeResult)
    requires Retried(EffectiveRetry(own), classify, outcome, attempts, delays, r)
    ensures 1 <= attempts <= 1 + (if own.Some? then own.value.maxAttempts else 2)
    ensures r == outcome(attempts - 1)
    ensures forall k: nat :: k < attempts - 1 ==> Repeats(own, classify, outcome(k))
    ensures attempts == 1 + (if own.Some? then own.value.maxAttempts else 2) || !Repeats(own, classify, r)
    ensures own.None? ==> delays <= [3000, 6000]
    ensures |delays| == attempts - 1
    ensures forall k: nat :: k < |delays| ==>
              var first := if own.Some? && own.value.delayMs.Some? then own.value.delayMs.value else 3000;
              delays[k] == Saturated(first, k)
  {
    var cfg := EffectiveRetry(own);
    hide Delay, Pow2;
    forall k: nat | k < |delays|
      ensures delays[k] == Saturated(cfg.delayMs, k)
    {
      WhenDelayDoubles(cfg, k);
    }
    if own.None? {
      FirstPowers();
    }
  }

  lemma FirstPowers()
    ensures Pow2(0) == 1 && Pow2(1) == 2
  {
  }

  predicate IsFatal(classify: Failure -> ErrorClass, r: NodeResult) {
    r.failure.Some? && classify(r.failure.value) == Fatal
  }

  /** The message shows one of the patterns somewhere. */
  ghost predicate Shows(message: string, patterns: seq<string>) {
    exists p, before, after :: p in patterns && message == before + p + after
  }

  lemma MatchesWhatItShows(message: string, patterns: seq<string>)
    ensures MatchesPattern(message, patterns) <==> Shows(message, patterns)
  {
    if MatchesPattern(message, patterns) {
      var p, i :| p in patterns && 0 <= i <= |message| && OccursAt(p, message, i);
      assert message == message[..i] + p + message[i..][|p|..];
    }
    if Shows(message, patterns) {
      var p, before, after :| p in patterns && message == before + p + after;
      assert message[|before|..] == p + after;
      assert OccursAt(p, message, |before|);
    }
  }

  /** An error that shows both a fatal and a transient pattern is not retried, even if all errors are
      to be. */
  lemma FatalTakesPrecedence(own: Option<OwnRetry>, r: NodeResult, message: Failure -> string, fatal: seq<string>,
                             transient: seq<string>)
    requires r.failure.Some?
    ensures ShouldRetry(EffectiveRetry(own), f => ClassifyError(message(f), fatal, transient), r) <==>
              && !Shows(message(r.failure.value), fatal)
              && ((own.Some? && own.value.onError == Some(OnAll)) || Shows(message(r.failure.value), transient))
  {
    MatchesWhatItShows(message(r.failure.value), fatal);
    MatchesWhatItShows(message(r.failure.value), transient);
    hide MatchesPattern, Shows;
  }

  /** What all passes of the first attempts cost together. */
  function Grand(c: Config, providers: nat -> Provider, prompt: string, resume: Option<string>, attempts: nat): real {
    if attempts == 0 then 0.0
    else Grand(c, providers, prompt, resume, attempts - 1) + Total(Passes(c, providers(attempts - 1), prompt, resume))
  }

  /** What the passes cost that a result does not account for. */
  function Unreported(es: seq<Exchange>): real
    requires |es| > 0
  {
    if es[|es| - 1].pass.ending.Broken? then Total(es[..|es| - 1]) else 0.0
  }

  /** A retried node reports the cost of its last attempt: that is the whole cost exactly if the earlier
      attempts, and the passes that a stream error in the last one lost, came to nothing. */
  lemma RetriedCost(cfg: RetryConfig, classify: Failure -> ErrorClass, c: Config, providers: nat -> Provider,
                    prompt: string, resume: Option<string>, attempts: nat, delays: seq<nat>, r: NodeResult)
    requires Retried(cfg, classify, Outcomes(c, providers, prompt, resume), attempts, delays, r)
    ensures var es := Passes(c, providers(attempts - 1), prompt, resume);
            && r.cost.GetOr(0.0) == Total(es) - Unreported(es)
            && (r.cost.GetOr(0.0) == Grand(c, providers, prompt, resume, attempts) <==>
                  Grand(c, providers, prompt, resume, attempts - 1) + Unreported(es) == 0.0)
  {
    ReportedCost(c, providers(attempts - 1), prompt, resume);
    hide NodeOutcome, Passes, Total;
  }

  lemma ReportedCost(c: Config, provider: Provider, prompt: string, resume: Option<string>)
    ensures var es := Passes(c, provider, prompt, resume);
            NodeOutcome(c, provider, prompt, resume).cost.GetOr(0.0) == Total(es) - Unreported(es)
  {
    hide PassOf, Exchanges, Decide;
    CostsAreTotal(Passes(c, provider, prompt, resume));
  }

  /** A node without `output_format` makes one pass. */
  lemma OnePlainPass(c: Config, provider: Provider, prompt: string)
    requires c.outputFormat.None?
    ensures var call := FirstCall(prompt, None);
            Passes(c, provider, prompt, None) == [Exchange(call, PassOf(provider(call)))]
  {
    hide PassOf;
  }

  lemma SingleCost(e: Exchange)
    ensures Costs([e]) == e.pass.cost && Total([e]) == e.pass.cost.GetOr(0.0)
  {
    assert [e][..0] == [];
  }

  const RATE_LIMITED := SdkError("unknown", ["rate limit"])

  lemma BrokenAttempt(c: Config, prompt: string, broken: Provider)
    requires c.outputFormat.None? && forall call :: broken(call) == Only(Some(1.0), true, ["rate limit"])
    ensures NodeOutcome(c, broken, prompt, None).failure == Some(RATE_LIMITED)
    ensures Total(Passes(c, broken, prompt, None)) == 1.0
  {
    OnlyIsRead(Some(1.0), true, ["rate limit"]);
    hide PassOf;
    OnePlainPass(c, broken, prompt);
    SingleCost(Passes(c, broken, prompt, None)[0]);
  }

  lemma QuietAttempt(c: Config, prompt: string, quiet: Provider)
    requires c.outputFormat.None? && forall call :: quiet(call) == Only(None, false, [])
    ensures NodeOutcome(c, quiet, prompt, None).cost == None
    ensures Total(Passes(c, quiet, prompt, None)) == 0.0
  {
    OnlyIsRead(None, false, []);
    hide PassOf;
    OnePlainPass(c, quiet, prompt);
    SingleCost(Passes(c, quiet, prompt, None)[0]);
  }

  lemma TwoAttempts(classify: Failure -> ErrorClass, outcome: nat -> NodeResult, f: Failure)
    requires outcome(0).failure == Some(f) && classify(f) == Transient
    ensures Retried(RetryConfig(1, 3000, OnTransient), classify, outcome, 2,
                    Delays(RetryConfig(1, 3000, OnTransient), 1), outcome(1))
  {
    hide Delay;
  }

  lemma GrandOfTwo(c: Config, providers: nat -> Provider, prompt: string)
    ensures Grand(c, providers, prompt, None, 2) ==
            Total(Passes(c, providers(0), prompt, None)) + Total(Passes(c, providers(1), prompt, None))
  {
    hide Passes, Total;
    assert Grand(c, providers, prompt, None, 1) == 0.0 + Total(Passes(c, providers(0), prompt, None));
  }

  /** The earlier attempts' cost does get lost: a first attempt that costs 1 and breaks off because of a
      rate limit, and a second that reports no cost and is the last. */
  lemma RetryLosesCost(c: Config, prompt: string, classify: Failure -> ErrorClass)
    returns (providers: nat -> Provider, r: NodeResult)
    requires c.outputFormat.None? && classify(RATE_LIMITED) == Transient
    ensures Retried(RetryConfig(1, 3000, OnTransient), classify, Outcomes(c, providers, prompt, None), 2,
                    Delays(RetryConfig(1, 3000, OnTransient), 1), r)
    ensures r.cost == None && Grand(c, providers, prompt, None, 2) == 1.0
  {
    var broken: Provider, quiet: Provider := _ => Only(Some(1.0), true, ["rate limit"]), _ => Only(None, false, []);
    providers := attempt => if attempt == 0 then broken else quiet;
    BrokenAttempt(c, prompt, broken);
    QuietAttempt(c, prompt, quiet);
    hide NodeOutcome, Passes, Delays, Only, Total, Grand, Retried;
    TwoAttempts(classify, Outcomes(c, providers, prompt, None), RATE_LIMITED);
    GrandOfTwo(c, providers, prompt);
    r := NodeOutcome(c, quiet, prompt, None);
  }
}
