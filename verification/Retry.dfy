/** The shared retry loop of the provider transport (`request_with_retries`) and its
    backoff delays.

    The network is an arbitrary function from the number of the send to its outcome; a
    successful response carries what its handler will do with it.
 */
module Retry {
  import opened Machine
  import opened Wrappers

  datatype RetryPolicy = RetryPolicy(maxRetries: nat, baseDelayMs: nat, maxDelayMs: nat, maxTransportRetries: nat) {
    predicate ShouldRetryTransport(attempt: nat) {
      attempt <= maxTransportRetries
    }
  }

  // ---------------------------------------------------------------- delays

  function Pow2(n: nat): nat {
    if n == 0 then 1 else 2 * Pow2(n - 1)
  }

  function Exponential(p: RetryPolicy, attempt: nat): nat {
    p.baseDelayMs * Pow2(if attempt == 0 then 0 else attempt - 1)
  }

  function CappedBase(p: RetryPolicy, attempt: nat): nat {
    if Exponential(p, attempt) < p.maxDelayMs then Exponential(p, attempt) else p.maxDelayMs
  }

  function JitterSpan(p: RetryPolicy, attempt: nat): nat {
    CappedBase(p, attempt) / 4 * 2
  }

  /** `delay`, with the draw of `random_jitter` as an argument. */
  function Delay(p: RetryPolicy, attempt: nat, offset: nat): nat
    requires Exponential(p, attempt) <= U64_MAX
    requires offset <= JitterSpan(p, attempt)
  {
    CappedBase(p, attempt) - CappedBase(p, attempt) / 4 + offset
  }

  /** Whatever the draw, the delay stays within a quarter of the capped exponential. */
  lemma DelayWithinQuarter(p: RetryPolicy, attempt: nat, offset: nat)
    requires Exponential(p, attempt) <= U64_MAX
    requires offset <= JitterSpan(p, attempt)
    ensures 3 * CappedBase(p, attempt) <= 4 * Delay(p, attempt, offset) <= 5 * CappedBase(p, attempt)
    ensures 4 * Delay(p, attempt, offset) <= 5 * p.maxDelayMs
  {
  }

  /** Whatever the draws, each delay exceeds the one before it until the cap is reached. */
  lemma DelaysGrow(p: RetryPolicy, attempt: nat, offset: nat, next: nat)
    requires attempt >= 1 && p.baseDelayMs >= 1
    requires Exponential(p, attempt + 1) <= U64_MAX && Exponential(p, attempt + 1) <= p.maxDelayMs
    requires Exponential(p, attempt) <= U64_MAX
    requires offset <= JitterSpan(p, attempt) && next <= JitterSpan(p, attempt + 1)
    ensures Delay(p, attempt, offset) < Delay(p, attempt + 1, next)
  {
    assert Exponential(p, attempt + 1) == 2 * Exponential(p, attempt) by {
      assert Pow2(attempt) == 2 * Pow2(attempt - 1);
      DoubleProduct(p.baseDelayMs, Pow2(attempt - 1));
    }
    Pow2Positive(attempt - 1);
    ProductPositive(p.baseDelayMs, Pow2(attempt - 1));
  }

  /** The exponential starts at the base delay and doubles with every attempt; the cap is the
      maximum; and the draws reach from a quarter below to a quarter above. */
  lemma DelayExactly(p: RetryPolicy, attempt: nat, offset: nat)
    requires attempt >= 1
    ensures Exponential(p, 0) == Exponential(p, 1) == p.baseDelayMs
    ensures Exponential(p, attempt + 1) == 2 * Exponential(p, attempt)
    ensures CappedBase(p, attempt) <= p.maxDelayMs && CappedBase(p, attempt) <= Exponential(p, attempt)
    ensures CappedBase(p, attempt) in {p.maxDelayMs, Exponential(p, attempt)}
    ensures Exponential(p, attempt) <= U64_MAX && offset <= JitterSpan(p, attempt) ==>
              var base := CappedBase(p, attempt);
              && Delay(p, attempt, offset) == Delay(p, attempt, 0) + offset
              && Delay(p, attempt, 0) == base - base / 4
              && Delay(p, attempt, JitterSpan(p, attempt)) == base + base / 4
  {
    assert Pow2(attempt) == 2 * Pow2(attempt - 1);
    DoubleProduct(p.baseDelayMs, Pow2(attempt - 1));
  }

  lemma DoubleProduct(a: nat, b: nat)
    ensures a * (2 * b) == 2 * (a * b)
  {
  }

  lemma ProductPositive(a: nat, b: nat)
    requires a >= 1 && b >= 1
    ensures a * b >= 1
  {
  }

  lemma Pow2Positive(n: nat)
    ensures Pow2(n) >= 1
  {
  }

  // ---------------------------------------------------------------- classification

  /** The pre-classification of a status code, and which of its classes are retryable. */
  datatype ErrorClass = RateLimited | ServerError | ClientError

  function RetryClassification(status: nat): ErrorClass {
    if status == 429 then RateLimited
    else if 500 <= status < 600 || status == 408 then ServerError
    else ClientError
  }

  predicate IsRetryable(class_: ErrorClass, status: nat) {
    match class_
    case RateLimited => true
    case ServerError => status in {408, 500, 502, 503, 504}
    case ClientError => false
  }

  predicate Retryable(status: nat) {
    IsRetryable(RetryClassification(status), status)
  }

  /** The statuses that are retried, and no others. */
  lemma RetryableStatuses(status: nat)
    ensures Retryable(status) <==> status in {408, 429, 500, 502, 503, 504}
    ensures IsSuccess(status) <==> status / 100 == 2
  {
  }

  // ---------------------------------------------------------------- the loop

  datatype HandlerResult = HandlerOk | HandlerTransportError | HandlerError

  /** What the handler does with a response: the events it emits, whether it consumed any
      line, whether a tool call made a replay unsafe, and how it ends. */
  datatype Handling = Handling(output: seq<string>, consumed: bool, unsafe: bool, result: HandlerResult)

  datatype Send = SendFailed | Responded(status: nat, handling: Handling)

  predicate IsSuccess(status: nat) { 200 <= status < 300 }

  /** A response after which the request must not be sent again. */
  predicate Unrepeatable(h: Handling) { h.consumed && h.unsafe }

  datatype Event =
    | Retrying(status: Option<nat>, attempt: nat, maxRetries: nat)
    | RetryRecovered
    | Output(text: string)

  datatype Final = Succeeded | TransportFailed | HandlerFailed | HttpFailed(status: nat)

  function Outputs(texts: seq<string>): seq<Event> {
    seq(|texts|, i requires 0 <= i < |texts| => Output(texts[i]))
  }

  /** Retries announced so far, of HTTP errors or of transport errors. */
  function Announced(trace: seq<Event>, http: bool): nat {
    if trace == [] then 0
    else
      var e := trace[|trace| - 1];
      Announced(trace[..|trace| - 1], http) + if e.Retrying? && e.status.Some? == http then 1 else 0
  }

  /** What a consumer holds that forgets all output at every `Retrying`. */
  function Held(trace: seq<Event>): seq<string> {
    if trace == [] then []
    else
      var before := Held(trace[..|trace| - 1]);
      match trace[|trace| - 1]
      case Retrying(_, _, _) => []
      case RetryRecovered => before
      case Output(text) => before + [text]
  }

  /** `e`, coming after `before`, carries the next attempt number of its kind, within the
      limit of its kind. */
  predicate Numbered(e: Event, before: seq<Event>, p: RetryPolicy) {
    e.Retrying? ==>
      && e.attempt == Announced(before, e.status.Some?) + 1
      && e.maxRetries == (if e.status.Some? then p.maxRetries else p.maxTransportRetries)
      && e.attempt <= e.maxRetries
  }

  /** Recovery is announced right after a retry, and only there. */
  predicate Recovers(e: Event, before: seq<Event>) {
    e.RetryRecovered? ==> before != [] && before[|before| - 1].Retrying?
  }

  /** Attempt numbers of each kind run 1, 2, 3, ... and recoveries directly follow retries. */
  ghost predicate GoodTrace(trace: seq<Event>, p: RetryPolicy) {
    forall i | 0 <= i < |trace| :: Numbered(trace[i], trace[..i], p) && Recovers(trace[i], trace[..i])
  }

  lemma AppendOne(trace: seq<Event>, p: RetryPolicy, e: Event)
    requires GoodTrace(trace, p) && Numbered(e, trace, p) && Recovers(e, trace)
    ensures GoodTrace(trace + [e], p)
    ensures (trace + [e])[..|trace|] == trace
  {
    hide Announced, Numbered, Recovers;
    var t := trace + [e];
    assert t[..|trace|] == trace;
    forall i | 0 <= i < |t|
      ensures Numbered(t[i], t[..i], p) && Recovers(t[i], t[..i])
    {
      if i < |trace| { assert t[..i] == trace[..i] && t[i] == trace[i]; }
    }
  }

  lemma AnnounceRetry(trace: seq<Event>, p: RetryPolicy, e: Event)
    requires GoodTrace(trace, p) && e.Retrying? && Numbered(e, trace, p)
    ensures GoodTrace(trace + [e], p) && Held(trace + [e]) == []
    ensures Announced(trace + [e], e.status.Some?) == e.attempt
    ensures Announced(trace + [e], !e.status.Some?) == Announced(trace, !e.status.Some?)
  {
    AppendOne(trace, p, e);
  }

  lemma AnnounceRecovery(trace: seq<Event>, p: RetryPolicy)
    requires GoodTrace(trace, p) && trace != [] && trace[|trace| - 1].Retrying?
    ensures GoodTrace(trace + [RetryRecovered], p) && Held(trace + [RetryRecovered]) == Held(trace)
    ensures forall http :: Announced(trace + [RetryRecovered], http) == Announced(trace, http)
  {
    AppendOne(trace, p, RetryRecovered);
  }

  lemma AnnounceText(trace: seq<Event>, p: RetryPolicy, text: string)
    requires GoodTrace(trace, p)
    ensures GoodTrace(trace + [Output(text)], p) && Held(trace + [Output(text)]) == Held(trace) + [text]
    ensures forall http :: Announced(trace + [Output(text)], http) == Announced(trace, http)
  {
    AppendOne(trace, p, Output(text));
  }

  lemma {:induction false} AnnounceOutput(trace: seq<Event>, p: RetryPolicy, texts: seq<string>)
    requires GoodTrace(trace, p)
    ensures GoodTrace(trace + Outputs(texts), p) && Held(trace + Outputs(texts)) == Held(trace) + texts
    ensures forall http :: Announced(trace + Outputs(texts), http) == Announced(trace, http)
    decreases |texts|
  {
    hide GoodTrace, Held, Announced;
    if texts == [] {
      assert trace + Outputs(texts) == trace;
    } else {
      var n := |texts| - 1;
      var init, last := texts[..n], texts[n];
      AnnounceOutput(trace, p, init);
      AnnounceText(trace + Outputs(init), p, last);
      assert Outputs(texts) == Outputs(init) + [Output(last)];
      Assoc(trace, Outputs(init), [Output(last)]);
      Assoc(Held(trace), init, [last]);
      assert init + [last] == texts;
    }
  }

  /** A send that may be followed by another: it failed, or its status is retryable, or its
      stream broke off before it could have run a tool. */
  predicate MayRetry(sent: Send, streaming: bool) {
    match sent
    case SendFailed => true
    case Responded(status, h) =>
      if IsSuccess(status) then streaming && h.result.HandlerTransportError? && !Unrepeatable(h)
      else Retryable(status)
  }

  function Conclusion(sent: Send): Final {
    match sent
    case SendFailed => TransportFailed
    case Responded(status, h) =>
      if !IsSuccess(status) then HttpFailed(status)
      else
        match h.result
        case HandlerOk => Succeeded
        case HandlerTransportError => TransportFailed
        case HandlerError => HandlerFailed
  }

  /** Which sends may be followed by another, and what the last one amounts to, in full. */
  lemma SendsExactly(sent: Send, streaming: bool)
    ensures MayRetry(sent, streaming) <==>
              || sent.SendFailed?
              || sent.status in {408, 429, 500, 502, 503, 504}
              || (&& streaming && 200 <= sent.status < 300 && sent.handling.result.HandlerTransportError?
                  && !(sent.handling.consumed && sent.handling.unsafe))
    ensures Conclusion(sent).Succeeded? <==>
              sent.Responded? && 200 <= sent.status < 300 && sent.handling.result.HandlerOk?
    ensures Conclusion(sent).HttpFailed? <==> sent.Responded? && !(200 <= sent.status < 300)
    ensures Conclusion(sent).HttpFailed? ==> Conclusion(sent).status == sent.status
    ensures Conclusion(sent).HandlerFailed? <==>
              sent.Responded? && 200 <= sent.status < 300 && sent.handling.result.HandlerError?
  {
  }

  /** The events of a send's response. */
  function OutputOf(sent: Send): seq<string> {
    if sent.Responded? && IsSuccess(sent.status) then sent.handling.output else []
  }

  /** Whether the retries of the kind that `sent` would need are used up. */
  ghost predicate UsedUp(sent: Send, trace: seq<Event>, p: RetryPolicy) {
    if sent.Responded? && !IsSuccess(sent.status) then Announced(trace, true) == p.maxRetries
    else Announced(trace, false) == p.maxTransportRetries
  }

  /** Whether a failed send counts against the retries of statuses, or those of transport. */
  predicate CountsAsHttp(sent: Send) {
    sent.Responded? && !IsSuccess(sent.status)
  }

  /** How many of the first `n` sends count against the retries of one kind. */
  function Counted(net: nat -> Send, n: nat, http: bool): nat {
    if n == 0 then 0
    else Counted(net, n - 1, http) + (if CountsAsHttp(net(n - 1)) == http then 1 else 0)
  }

  /** What is announced on the channel for one send: a recovery if one is due, then the
      output of the response. */
  method Deliver(p: RetryPolicy, before: seq<Event>, recovered: bool, h: Handling) returns (trace: seq<Event>)
    requires GoodTrace(before, p) && Held(before) == []
    requires recovered ==> before != [] && before[|before| - 1].Retrying?
    ensures GoodTrace(trace, p) && Held(trace) == h.output
    ensures forall http :: Announced(trace, http) == Announced(before, http)
  {
    hide Announced, Held, GoodTrace;
    trace := before;
    if recovered {
      AnnounceRecovery(trace, p);
      trace := trace + [RetryRecovered];
    }
    AnnounceOutput(trace, p, h.output);
    trace := trace + Outputs(h.output);
    assert [] + h.output == h.output;
  }

  method RequestWithRetries(p: RetryPolicy, streaming: bool, net: nat -> Send)
    returns (final: Final, trace: seq<Event>, sends: nat)
    // However the network behaves, the request is sent a bounded number of times.
    ensures 1 <= sends <= 1 + p.maxRetries + p.maxTransportRetries
    // Attempts are numbered without gaps, and recovery directly follows a retry.
    ensures GoodTrace(trace, p)
    ensures !streaming ==> trace == []
    // Only what may be retried is retried; in particular no response that may have run a
    // tool is ever asked for again.
    ensures forall n | 0 <= n < sends - 1 :: MayRetry(net(n), streaming)
    // The outcome is that of the last send, and giving up on something that may be
    // retried means that its retries are used up.
    ensures final == Conclusion(net(sends - 1))
    ensures !final.Succeeded? && MayRetry(net(sends - 1), streaming) ==>
              var http := CountsAsHttp(net(sends - 1));
              Counted(net, sends, http) == 1 + (if http then p.maxRetries else p.maxTransportRetries)
    ensures streaming && !final.Succeeded? && MayRetry(net(sends - 1), true) ==> UsedUp(net(sends - 1), trace, p)
    // A consumer that resets at every retry holds the last response's events alone.
    ensures streaming ==> Held(trace) == OutputOf(net(sends - 1))
  {
    hide Announced, Held, GoodTrace, Retryable;
    var httpRetryAttempt, transportRetryAttempt := 0, 0;
    var retryReported := false;
    var started, replaySafe := false, true;
    trace := [];
    sends := 0;
    EmptyTrace(p);
    while true
      invariant httpRetryAttempt <= p.maxRetries && transportRetryAttempt <= p.maxTransportRetries
      invariant sends == httpRetryAttempt + transportRetryAttempt
      invariant Counted(net, sends, true) == httpRetryAttempt && Counted(net, sends, false) == transportRetryAttempt
      invariant retryReported <==> sends > 0
      invariant !started && replaySafe
      invariant GoodTrace(trace, p) && Held(trace) == []
      invariant !streaming ==> trace == []
      invariant streaming ==>
                  && Announced(trace, true) == httpRetryAttempt && Announced(trace, false) == transportRetryAttempt
                  && (sends > 0 ==> trace != [] && trace[|trace| - 1].Retrying?)
      invariant forall n | 0 <= n < sends :: MayRetry(net(n), streaming)
      decreases p.maxRetries - httpRetryAttempt + p.maxTransportRetries - transportRetryAttempt
    {
      var sent := net(sends);
      sends := sends + 1;
      if sent.SendFailed? {
        transportRetryAttempt := transportRetryAttempt + 1;
        if p.ShouldRetryTransport(transportRetryAttempt) {
          if streaming {
            var e := Retrying(None, transportRetryAttempt, p.maxTransportRetries);
            AnnounceRetry(trace, p, e);
            trace := trace + [e];
          }
          retryReported := true;
          continue;
        }
        return TransportFailed, trace, sends;
      }
      var status, h := sent.status, sent.handling;
      if IsSuccess(status) {
        if streaming {
          trace := Deliver(p, trace, retryReported, h);
        }
        started := started || h.consumed;
        replaySafe := replaySafe && !h.unsafe;
        if h.result.HandlerOk? {
          return Succeeded, trace, sends;
        }
        if h.result.HandlerTransportError? && streaming && (!started || replaySafe) {
          transportRetryAttempt := transportRetryAttempt + 1;
          if !p.ShouldRetryTransport(transportRetryAttempt) {
            return TransportFailed, trace, sends;
          }
          var e := Retrying(None, transportRetryAttempt, p.maxTransportRetries);
          AnnounceRetry(trace, p, e);
          trace := trace + [e];
          retryReported := true;
          started := false;
          replaySafe := true;
          continue;
        }
        return if h.result.HandlerTransportError? then TransportFailed else HandlerFailed, trace, sends;
      }
      httpRetryAttempt := httpRetryAttempt + 1;
      if httpRetryAttempt <= p.maxRetries && Retryable(status) {
        if streaming {
          var e := Retrying(Some(status), httpRetryAttempt, p.maxRetries);
          AnnounceRetry(trace, p, e);
          trace := trace + [e];
        }
        retryReported := true;
        continue;
      }
      return HttpFailed(status), trace, sends;
    }
  }

  lemma EmptyTrace(p: RetryPolicy)
    ensures GoodTrace([], p) && Held([]) == [] && forall http :: Announced([], http) == 0
  {
  }
}
