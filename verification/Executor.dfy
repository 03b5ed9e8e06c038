/**
 The retry loop of src/request_executor.cpp with the retry policy of
 include/kalshi/backoff.hpp. What the signer, the transport and the server do on each
 attempt is a script the loop cannot see ahead of.
 */
module Executor {

  import opened Bucket

  datatype Mutation = Read | CreateOrder | CancelOrder | AmendOrder | OrderGroup | Quote

  predicate NonIdempotent(m: Mutation) { m == CreateOrder || m == AmendOrder || m == OrderGroup || m == Quote }

  // One attempt: signing failed, the transport failed with a libcurl code, or the server
  // answered.
  datatype Outcome = SignFailed | Transport(code: int) | Answer(status: int)

  // libcurl's codes for resolve, connect, partial file, timeout, empty reply, send and
  // receive errors.
  predicate TransientCode(code: int) { code in {6, 7, 18, 28, 52, 55, 56} }

  predicate GatewayError(status: int) { status == 502 || status == 503 || status == 504 }

  datatype Decision = Decision(retry: bool, reconcile: bool, drift: bool)

  function DecideRetry(m: Mutation, status: int, transportError: bool, attempt: int, maxAttempts: int): Decision {
    var more := attempt + 1 < maxAttempts;
    if status == 429 then Decision(more, false, true)
    else if transportError || GatewayError(status) then
      if NonIdempotent(m) then Decision(false, true, false) else Decision(more, false, false)
    else Decision(false, false, false)
  }

  /** Only a refusal for rate says that the local bucket and the server's have drifted. */
  lemma DriftExact(m: Mutation, status: int, transportError: bool, attempt: int, maxAttempts: int)
    ensures DecideRetry(m, status, transportError, attempt, maxAttempts).drift <==> status == 429
  {
  }

  datatype Reply =
    | Response(status: int)
    | RateLimited
    | SigningFailed
    | Reconcile
    | TransportError(code: int)
    | HttpError(status: int)
    | NoAttempt

  // ---------------------------------------------------------------- what the loop should do

  // May the request be sent again after this outcome? A request the server may have
  // processed may not, unless repeating it is harmless.
  predicate Retryable(m: Mutation, o: Outcome) {
    match o
    case SignFailed => false
    case Transport(code) => !NonIdempotent(m) && TransientCode(code)
    case Answer(status) => status == 429 || (!NonIdempotent(m) && GatewayError(status))
  }

  // What the caller is told when this outcome ends the loop.
  function Verdict(m: Mutation, o: Outcome): Reply {
    match o
    case SignFailed => SigningFailed
    case Transport(code) => if NonIdempotent(m) then Reconcile else TransportError(code)
    case Answer(status) =>
      if status == 429 then HttpError(429)
      else if GatewayError(status) then if NonIdempotent(m) then Reconcile else HttpError(status)
      else Response(status)
  }

  // n attempts were made: all but the last could be repeated, and the last could not or
  // used up the allowance.
  predicate Stops(m: Mutation, script: nat -> Outcome, max: int, n: nat) {
    if max <= 0 then n == 0
    else 0 < n <= max && (forall i | 0 <= i < n - 1 :: Retryable(m, script(i))) && (n == max || !Retryable(m, script(n - 1)))
  }

  lemma StopsUnique(m: Mutation, script: nat -> Outcome, max: int, a: nat, b: nat)
    requires Stops(m, script, max, a) && Stops(m, script, max, b)
    ensures a == b
  {
  }

  // The writes whose repetition could take effect twice, as the policy lists them.
  const ONCE: set<Mutation> := {CreateOrder, AmendOrder, OrderGroup, Quote}

  // The request may have been processed although no answer says so.
  predicate Ambiguous(o: Outcome) { o.Transport? || (o.Answer? && o.status in {502, 503, 504}) }

  /** A create, amend, order-group or quote request, under every behaviour of signer,
      transport and server: each attempt but the last was answered 429, that is, refused;
      so of any set of attempts the server may have processed there is at most one, the
      last. */
  lemma AtMostOnce(m: Mutation, script: nat -> Outcome, max: int, n: nat, processed: set<nat>)
    requires m in ONCE && Stops(m, script, max, n)
    requires forall i | i in processed :: i < n && script(i) != Answer(429) && script(i) != SignFailed
    ensures forall i | 0 <= i < n - 1 :: script(i) == Answer(429)
    ensures |processed| <= 1 && (forall i | i in processed :: i == n - 1)
  {
    forall i | 0 <= i < n - 1 ensures script(i) == Answer(429) { assert Retryable(m, script(i)); }
    if processed != {} {
      assert processed == {n - 1};
    }
  }

  /** The caller of such a write is told to reconcile exactly when the last attempt may
      have been processed without an answer saying so; the caller of any other request
      never is. */
  lemma ReconcileExact(m: Mutation, script: nat -> Outcome, max: int, n: nat)
    requires Stops(m, script, max, n) && n > 0
    ensures Verdict(m, script(n - 1)) == Reconcile <==> m in ONCE && Ambiguous(script(n - 1))
    ensures m in ONCE && (exists i :: 0 <= i < n && Ambiguous(script(i))) ==> Verdict(m, script(n - 1)) == Reconcile
  {
    forall i | 0 <= i < n - 1 ensures m in ONCE ==> !Ambiguous(script(i)) { assert Retryable(m, script(i)); }
  }

  /** Reads and cancels are repeated after every failure that repeating may cure, as long
      as attempts are left: a refusal, a gateway error, or one of the transport failures
      that pass. Nothing else is repeated, and of no other request anything but a refusal. */
  lemma RetriedExactly(m: Mutation, script: nat -> Outcome, max: int, n: nat, i: nat)
    requires Stops(m, script, max, n) && i < n && i + 1 < max
    ensures var o := script(i);
      i + 1 < n <==> || o == Answer(429)
                     || ((m == Read || m == CancelOrder)
                         && (|| (o.Answer? && o.status in {502, 503, 504})
                             || (o.Transport? && o.code in {6, 7, 18, 28, 52, 55, 56})))
  {
    if i < n - 1 { assert Retryable(m, script(i)); }
  }

  /** What the caller is told otherwise: the answer itself unless it asks to come back
      later, else the failure. */
  lemma VerdictExact(m: Mutation, o: Outcome)
    requires Verdict(m, o) != Reconcile
    ensures match o
      case SignFailed => Verdict(m, o) == SigningFailed
      case Transport(code) => Verdict(m, o) == TransportError(code)
      case Answer(status) => Verdict(m, o) == if status in {429, 502, 503, 504} then HttpError(status) else Response(status)
  {
  }

  // ---------------------------------------------------------------- backoff

  function Pow2(n: nat): int { if n == 0 then 1 else 2 * Pow2(n - 1) }

  // The capped exponential for a 0-based attempt.
  function Exp(base: int, cap: int, attempt: int): int {
    if 0 <= attempt < 31 && base * Pow2(attempt) < cap then base * Pow2(attempt) else cap
  }

  /** The exponential starts at the base and doubles from one attempt to the next until it
      meets the cap. */
  lemma ExpDoubles(base: int, cap: int, attempt: int)
    requires base >= 0
    ensures Exp(base, cap, 0) == if base < cap then base else cap
    ensures 0 <= attempt < 30 ==>
      var exp := Exp(base, cap, attempt); Exp(base, cap, attempt + 1) == if exp < cap && 2 * exp < cap then 2 * exp else cap
    ensures attempt < 0 || attempt > 30 ==> Exp(base, cap, attempt) == cap
  {
    if 0 <= attempt < 30 {
      assert base * Pow2(attempt + 1) == 2 * (base * Pow2(attempt));
      Grows(base, attempt);
    }
  }

  lemma {:induction false} Grows(base: int, attempt: nat)
    requires base >= 0
    ensures base * Pow2(attempt) >= 0
  {
    if attempt > 0 {
      Grows(base, attempt - 1);
      assert base * Pow2(attempt) == 2 * (base * Pow2(attempt - 1));
    }
  }

  // draw is the generator's next 64-bit value.
  function Delay(base: int, cap: int, attempt: int, draw: nat): int {
    var exp := Exp(base, cap, attempt);
    if exp <= 0 then 0 else exp / 2 + draw % (exp - exp / 2 + 1)
  }

  lemma Jitter(exp: int, draw: nat)
    requires exp > 0
    ensures exp / 2 <= exp / 2 + draw % (exp - exp / 2 + 1) <= exp
    ensures draw <= exp - exp / 2 ==> draw % (exp - exp / 2 + 1) == draw
  {
  }

  /** The jittered delay lies between half the exponential and the exponential, and the
      draw can put it anywhere in between. */
  lemma DelayBounds(base: int, cap: int, attempt: int, draw: nat)
    ensures var exp, d := Exp(base, cap, attempt), Delay(base, cap, attempt, draw);
      && exp <= cap && (exp <= 0 ==> d == 0) && (exp > 0 ==> exp / 2 <= d <= exp)
      && (exp > 0 && draw <= exp - exp / 2 ==> d == exp / 2 + draw)
  {
    if Exp(base, cap, attempt) > 0 { Jitter(Exp(base, cap, attempt), draw); }
  }

  /** The documented "always positive" holds for every draw if and only if the capped
      exponential is at least 2 milliseconds. */
  lemma DelayPositive(base: int, cap: int, attempt: int)
    ensures (forall draw: nat :: Delay(base, cap, attempt, draw) > 0) <==> Exp(base, cap, attempt) >= 2
  {
    DelayBounds(base, cap, attempt, 0);
    forall draw: nat ensures Exp(base, cap, attempt) >= 2 ==> Delay(base, cap, attempt, draw) > 0 {
      DelayBounds(base, cap, attempt, draw);
    }
  }

  // ---------------------------------------------------------------- the loop

  class RequestExecutor {
    const readBucket: TokenBucketI64
    const writeBucket: TokenBucketI64
    const maxAttempts: int
    const budgetNs: int

    constructor (readBucket: TokenBucketI64, writeBucket: TokenBucketI64, maxAttempts: int, budgetMs: int)
      ensures this.readBucket == readBucket && this.writeBucket == writeBucket
      ensures this.maxAttempts == maxAttempts && budgetNs == budgetMs * 1_000_000
    {
      this.readBucket, this.writeBucket := readBucket, writeBucket;
      this.maxAttempts, budgetNs := maxAttempts, budgetMs * 1_000_000;
    }

    // deadline < 0 means the default budget; costOverride < 0 means the endpoint's cost.
    // made: attempts, counting one whose signing failed.
    method Send(m: Mutation, write: bool, endpointCost: int, costOverride: int, deadline: int, now: int, script: nat -> Outcome)
      returns (reply: Reply, made: nat, r: Reservation)
      requires (if write then writeBucket else readBucket).View().Valid()
      modifies if write then writeBucket else readBucket
      ensures var bucket := if write then writeBucket else readBucket;
        (bucket.View(), r) == ReserveOrWait(old(bucket.View()),
          if costOverride >= 0 then costOverride else endpointCost, now, if deadline >= 0 then deadline else now + budgetNs)
      ensures !r.granted ==> reply == RateLimited && made == 0
      ensures r.granted ==> Stops(m, script, maxAttempts, made)
      ensures r.granted ==> reply == if made == 0 then NoAttempt else Verdict(m, script(made - 1))
    {
      var bucket := if write then writeBucket else readBucket;
      var cost := if costOverride >= 0 then costOverride else endpointCost;
      r := bucket.ReserveOrElseWait(cost, now, if deadline >= 0 then deadline else now + budgetNs);
      made := 0;
      if !r.granted {
        reply := RateLimited;
        return;
      }
      reply := NoAttempt;
      var attempt := 0;
      while attempt < maxAttempts
        invariant 0 <= attempt && made == attempt && (maxAttempts > 0 ==> attempt < maxAttempts)
        invariant maxAttempts <= 0 ==> attempt == 0
        invariant forall i | 0 <= i < attempt :: Retryable(m, script(i))
        invariant attempt == 0 ==> reply == NoAttempt
        decreases maxAttempts - attempt
      {
        made := attempt + 1;
        var o := script(attempt);
        if o.SignFailed? {
          reply := SigningFailed;
          break;
        }
        if o.Transport? {
          reply := TransportError(o.code);
          var d := DecideRetry(m, 0, true, attempt, maxAttempts);
          if d.reconcile {
            reply := Reconcile;
            break;
          }
          if d.retry && TransientCode(o.code) {
            attempt := attempt + 1;
            continue;
          }
          break;
        }
        if o.status == 429 || GatewayError(o.status) {
          reply := HttpError(o.status);
          var d := DecideRetry(m, o.status, false, attempt, maxAttempts);
          if d.reconcile {
            reply := Reconcile;
            break;
          }
          if d.retry {
            attempt := attempt + 1;
            continue;
          }
          break;
        }
        reply := Response(o.status);
        break;
      }
    }
  }
}
