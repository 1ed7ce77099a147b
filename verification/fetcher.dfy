/** The retry policy of `QuoteScraper.fetch_html` and the `get_soup` wrapper around it.
    The network is replaced by an oracle giving the outcome of each numbered attempt, and the
    sleeps become events of a trace that records their argument only. */
module Fetcher {
  import opened Wrappers

  /** `fetch_html`'s default number of attempts. */
  const DefaultMaxRetries: int := 3

  /** What one attempt observes: a transport failure (a client error or a timeout, including one
      while reading the body), or a response with its status and body text. */
  datatype AttemptOutcome = TransportError | Response(status: int, body: string)

  /** Observable steps of a fetch: the rate-limit sleep before each attempt, the attempt itself
      (numbered from 1), and the backoff sleep after a failed attempt. */
  datatype Event = RateLimitSleep(delay: real) | Attempt(number: nat) | BackoffSleep(seconds: nat)

  /** The body returned (None for failure) together with the trace of events. */
  datatype FetchRun = FetchRun(body: Option<string>, trace: seq<Event>)

  /** `fetch_html(url, max_retries=maxRetries)` where `outcome(k)` is what attempt k observes. */
  function FetchHtml(outcome: nat -> AttemptOutcome, maxRetries: int, delay: real): (run: FetchRun)
    ensures forall i :: 0 <= i < |run.trace| && run.trace[i].Attempt? ==> 1 <= run.trace[i].number <= maxRetries
    ensures forall i :: 0 <= i < |run.trace| && run.trace[i].Attempt? ==> 0 < i && run.trace[i - 1] == RateLimitSleep(delay)
    ensures run.body.Some? ==> exists k :: 1 <= k <= maxRetries && outcome(k) == Response(200, run.body.value)
  {
    FetchFrom(outcome, maxRetries, delay, 1)
  }

  /** The loop of `fetch_html` from iteration `attempt` on. */
  function FetchFrom(outcome: nat -> AttemptOutcome, maxRetries: int, delay: real, attempt: nat): (run: FetchRun)
    requires 1 <= attempt
    ensures forall i :: 0 <= i < |run.trace| && run.trace[i].Attempt? ==> attempt <= run.trace[i].number <= maxRetries
    ensures forall i :: 0 <= i < |run.trace| && run.trace[i].Attempt? ==> 0 < i && run.trace[i - 1] == RateLimitSleep(delay)
    ensures run.body.Some? ==> exists k :: attempt <= k <= maxRetries && outcome(k) == Response(200, run.body.value)
    decreases if maxRetries < attempt then 0 else maxRetries - attempt + 1
  {
    if attempt > maxRetries then FetchRun(None, [])
    else
      var round := [RateLimitSleep(delay), Attempt(attempt)];
      match outcome(attempt)
      case Response(status, body) =>
        FetchRun(if status == 200 then Some(body) else None, round)
      case TransportError =>
        if attempt == maxRetries then FetchRun(None, round)
        else
          var rest := FetchFrom(outcome, maxRetries, delay, attempt + 1);
          FetchRun(rest.body, round + [BackoffSleep(attempt)] + rest.trace)
  }

  /** The i-th event of a run of consecutive rounds whose first attempt is numbered `first`. */
  function RoundEvent(first: nat, delay: real, i: nat): Event {
    if i % 3 == 0 then RateLimitSleep(delay)
    else if i % 3 == 1 then Attempt(first + i / 3)
    else BackoffSleep(first + i / 3)
  }

  /** Reference trace of attempts `first..last`: each preceded by the rate-limit sleep and each
      but the last followed by a backoff of its own number. */
  function Rounds(first: nat, last: nat, delay: real): seq<Event>
    requires first <= last
  {
    seq(3 * (last - first) + 2, i requires 0 <= i => RoundEvent(first, delay, i))
  }

  /** Reference trace of a fetch that made `n` attempts. */
  function StandardTrace(n: nat, delay: real): seq<Event> {
    if n == 0 then [] else Rounds(1, n, delay)
  }

  /** The shape of the reference trace, stated event by event. */
  lemma StandardTraceShape(n: nat, delay: real)
    requires 1 <= n
    ensures |StandardTrace(n, delay)| == 3 * n - 1
    ensures StandardTrace(n, delay)[0] == RateLimitSleep(delay)
    ensures StandardTrace(n, delay)[|StandardTrace(n, delay)| - 1] == Attempt(n)
    ensures forall i :: 0 <= i < |StandardTrace(n, delay)| && StandardTrace(n, delay)[i].Attempt? ==>
      1 <= StandardTrace(n, delay)[i].number <= n && 0 < i && StandardTrace(n, delay)[i - 1] == RateLimitSleep(delay)
    ensures forall i :: 0 <= i < |StandardTrace(n, delay)| && StandardTrace(n, delay)[i].BackoffSleep? ==>
      0 < i && i + 1 < |StandardTrace(n, delay)|
      && StandardTrace(n, delay)[i - 1] == Attempt(StandardTrace(n, delay)[i].seconds)
      && StandardTrace(n, delay)[i + 1] == RateLimitSleep(delay)
      && StandardTrace(n, delay)[i].seconds < n
  {
    var t := StandardTrace(n, delay);
    forall i | 0 <= i < |t| && t[i].BackoffSleep?
      ensures 0 < i && i + 1 < |t| && t[i - 1] == Attempt(t[i].seconds) && t[i + 1] == RateLimitSleep(delay)
      ensures t[i].seconds < n
    {
      assert i % 3 == 2;
      assert (i - 1) % 3 == 1 && (i - 1) / 3 == i / 3;
      assert (i + 1) % 3 == 0;
    }
    forall i | 0 <= i < |t| && t[i].Attempt?
      ensures 1 <= t[i].number <= n && 0 < i && t[i - 1] == RateLimitSleep(delay)
    {
      assert i % 3 == 1;
      assert (i - 1) % 3 == 0;
    }
  }

  lemma RoundsSingle(k: nat, delay: real)
    ensures Rounds(k, k, delay) == [RateLimitSleep(delay), Attempt(k)]
  {
  }

  lemma RoundsStep(first: nat, last: nat, delay: real)
    requires first < last
    ensures Rounds(first, last, delay)
         == [RateLimitSleep(delay), Attempt(first), BackoffSleep(first)] + Rounds(first + 1, last, delay)
  {
    var lhs := Rounds(first, last, delay);
    var rhs := [RateLimitSleep(delay), Attempt(first), BackoffSleep(first)] + Rounds(first + 1, last, delay);
    assert |lhs| == |rhs|;
    forall i | 3 <= i < |lhs|
      ensures lhs[i] == rhs[i]
    {
      assert (i - 3) % 3 == i % 3 && (i - 3) / 3 == i / 3 - 1;
    }
  }

  /** Iterations `attempt..k-1` fail at transport level and iteration `k` decides: it gets a
      response, or it is the last attempt allowed. */
  lemma {:induction false} FetchFromDecidedAt(outcome: nat -> AttemptOutcome, maxRetries: int, delay: real, attempt: nat, k: nat)
    requires 1 <= attempt <= k <= maxRetries
    requires forall j :: attempt <= j < k ==> outcome(j).TransportError?
    requires outcome(k).Response? || k == maxRetries
    ensures FetchFrom(outcome, maxRetries, delay, attempt).trace == Rounds(attempt, k, delay)
    ensures FetchFrom(outcome, maxRetries, delay, attempt).body
         == (if outcome(k).Response? && outcome(k).status == 200 then Some(outcome(k).body) else None)
    decreases k - attempt
  {
    if attempt == k {
      RoundsSingle(k, delay);
    } else {
      FetchFromDecidedAt(outcome, maxRetries, delay, attempt + 1, k);
      RoundsStep(attempt, k, delay);
    }
  }

  /** A 200 on attempt k, after k-1 transport failures, returns exactly that body; later
      outcomes are never consulted, and the trace holds k attempts. */
  lemma FetchReturnsFirstSuccess(outcome: nat -> AttemptOutcome, maxRetries: int, delay: real, k: nat, body: string)
    requires 1 <= k <= maxRetries
    requires forall j :: 1 <= j < k ==> outcome(j).TransportError?
    requires outcome(k) == Response(200, body)
    ensures FetchHtml(outcome, maxRetries, delay) == FetchRun(Some(body), StandardTrace(k, delay))
  {
    FetchFromDecidedAt(outcome, maxRetries, delay, 1, k);
  }

  /** A non-200 status ends the fetch at once with failure: no further attempt, no backoff. */
  lemma FetchStopsOnBadStatus(outcome: nat -> AttemptOutcome, maxRetries: int, delay: real, k: nat)
    requires 1 <= k <= maxRetries
    requires forall j :: 1 <= j < k ==> outcome(j).TransportError?
    requires outcome(k).Response? && outcome(k).status != 200
    ensures FetchHtml(outcome, maxRetries, delay) == FetchRun(None, StandardTrace(k, delay))
  {
    FetchFromDecidedAt(outcome, maxRetries, delay, 1, k);
  }

  /** When every allowed attempt fails at transport level, the fetch makes exactly `maxRetries`
      attempts, sleeps no backoff after the last, and fails; with no attempt allowed it does nothing. */
  lemma FetchGivesUp(outcome: nat -> AttemptOutcome, maxRetries: int, delay: real)
    requires forall j :: 1 <= j <= maxRetries ==> outcome(j).TransportError?
    ensures FetchHtml(outcome, maxRetries, delay)
         == FetchRun(None, if maxRetries < 1 then [] else StandardTrace(maxRetries, delay))
  {
    if 1 <= maxRetries {
      FetchFromDecidedAt(outcome, maxRetries, delay, 1, maxRetries);
    }
  }

  /** Attempt `k` is the first of the default allowance to get an answer, and that answer is a 200:
      every earlier attempt failed in transport. */
  predicate FirstSuccessAt(outcome: nat -> AttemptOutcome, k: nat) {
    && 1 <= k <= DefaultMaxRetries
    && (forall j :: 1 <= j < k ==> outcome(j).TransportError?)
    && outcome(k).Response? && outcome(k).status == 200
  }

  /** At most one attempt is the first success. */
  lemma FirstSuccessUnique(outcome: nat -> AttemptOutcome, k: nat, k': nat)
    requires FirstSuccessAt(outcome, k) && FirstSuccessAt(outcome, k')
    ensures k == k'
  {
  }

  /** When attempt `k` answers with another status, or is the last allowed and fails in transport,
      after transport failures only, no attempt is a first success. */
  lemma NoFirstSuccess(outcome: nat -> AttemptOutcome, k: nat)
    requires 1 <= k <= DefaultMaxRetries
    requires forall j :: 1 <= j < k ==> outcome(j).TransportError?
    requires (outcome(k).Response? && outcome(k).status != 200) || (outcome(k).TransportError? && k == DefaultMaxRetries)
    ensures forall k' :: !FirstSuccessAt(outcome, k')
  {
  }

  /** With the default retry count, the fetch returns a body exactly when some attempt is the first
      success, and the body is that attempt's. */
  lemma {:induction false} DefaultFetchDecided(outcome: nat -> AttemptOutcome, delay: real)
    ensures FetchHtml(outcome, DefaultMaxRetries, delay).body.Some? <==> exists k :: FirstSuccessAt(outcome, k)
    ensures forall k :: FirstSuccessAt(outcome, k) ==>
      FetchHtml(outcome, DefaultMaxRetries, delay).body == Some(outcome(k).body)
  {
    var k: nat := if outcome(1).Response? then 1 else if outcome(2).Response? then 2 else 3;
    assert forall j :: 1 <= j < k ==> outcome(j).TransportError?;
    if outcome(k).Response? && outcome(k).status == 200 {
      FetchReturnsFirstSuccess(outcome, DefaultMaxRetries, delay, k, outcome(k).body);
      assert FirstSuccessAt(outcome, k);
      forall k': nat | FirstSuccessAt(outcome, k')
        ensures FetchHtml(outcome, DefaultMaxRetries, delay).body == Some(outcome(k').body)
      {
        FirstSuccessUnique(outcome, k, k');
      }
    } else if outcome(k).Response? {
      FetchStopsOnBadStatus(outcome, DefaultMaxRetries, delay, k);
      NoFirstSuccess(outcome, k);
    } else {
      FetchGivesUp(outcome, DefaultMaxRetries, delay);
      NoFirstSuccess(outcome, k);
    }
  }

  /** `get_soup`: the page is parsed exactly when some attempt of the default allowance is the first
      success, and what is parsed is that attempt's body. */
  function GetSoup<P>(outcome: nat -> AttemptOutcome, delay: real, parse: string -> P): (r: Option<P>)
    ensures r.Some? <==> exists k :: FirstSuccessAt(outcome, k)
    ensures forall k :: FirstSuccessAt(outcome, k) ==> r == Some(parse(outcome(k).body))
    ensures r.None? <==> FetchHtml(outcome, DefaultMaxRetries, delay).body.None?
  {
    DefaultFetchDecided(outcome, delay);
    match FetchHtml(outcome, DefaultMaxRetries, delay).body
    case None => None
    case Some(html) => Some(parse(html))
  }

  /** The scenario of three attempts where the first two fail in transport and the third succeeds. */
  lemma RetryThenSucceed(outcome: nat -> AttemptOutcome, delay: real, body: string)
    requires outcome(1).TransportError? && outcome(2).TransportError?
    requires outcome(3) == Response(200, body)
    ensures FetchHtml(outcome, DefaultMaxRetries, delay).body == Some(body)
    ensures FetchHtml(outcome, DefaultMaxRetries, delay).trace
         == [RateLimitSleep(delay), Attempt(1), BackoffSleep(1),
             RateLimitSleep(delay), Attempt(2), BackoffSleep(2),
             RateLimitSleep(delay), Attempt(3)]
  {
    FetchReturnsFirstSuccess(outcome, DefaultMaxRetries, delay, 3, body);
  }
}
