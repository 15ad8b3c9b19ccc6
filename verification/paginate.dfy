/**
 * The hub page walks (src/lib/paginate.ts, src/lib/links-utils.ts): message pages requested
 * with the maximum page size until a short page, on-chain event pages followed through their
 * page tokens, and the retry combinator around each on-chain call.
 *
 * The hub is a pure oracle. The walks have no bound in the code; the model gives each a page
 * budget and reports `PageLimit` when a walk would go past it.
 */
module Paginate {
  import opened Wrappers
  import opened Protocol
  import opened Seqs
  import opened Utils
  import Numerals

  datatype MessageKind = CastMessages | ReactionMessages | LinkMessages

  /** The hub RPCs the message walks call: the add-only one and the "all messages" one per kind. */
  datatype MessageRpc =
    | GetCastsByFid | GetAllCastMessagesByFid
    | GetReactionsByFid | GetAllReactionMessagesByFid
    | GetLinksByFid | GetAllLinkMessagesByFid

  /** `ExtraHubOptions`; an absent option is falsy. */
  datatype HubOptions = HubOptions(includeRemoveMessages: Option<bool>)

  function KindOf(rpc: MessageRpc): MessageKind {
    match rpc
    case GetCastsByFid | GetAllCastMessagesByFid => CastMessages
    case GetReactionsByFid | GetAllReactionMessagesByFid => ReactionMessages
    case GetLinksByFid | GetAllLinkMessagesByFid => LinkMessages
  }

  predicate ReturnsRemoves(rpc: MessageRpc) {
    rpc.GetAllCastMessagesByFid? || rpc.GetAllReactionMessagesByFid? || rpc.GetAllLinkMessagesByFid?
  }

  /** The RPC a walk uses: the "all messages" one exactly when `includeRemoveMessages` is truthy. */
  function Rpc(kind: MessageKind, options: HubOptions): (r: MessageRpc)
    ensures KindOf(r) == kind
    ensures ReturnsRemoves(r) <==> options.includeRemoveMessages == Some(true)
  {
    var all := options.includeRemoveMessages == Some(true);
    match kind
    case CastMessages => if all then GetAllCastMessagesByFid else GetCastsByFid
    case ReactionMessages => if all then GetAllReactionMessagesByFid else GetReactionsByFid
    case LinkMessages => if all then GetAllLinkMessagesByFid else GetLinksByFid
  }

  datatype MessagePage = MessagePage(messages: seq<Message>, nextPageToken: Option<Bytes>)

  /** The hub's answer to an RPC for a fid, a page size and a page token. */
  type MessageHub = (MessageRpc, Fid, nat, Option<Bytes>) -> Result<MessagePage, Error>

  /**
   * One request of a walk, with `checkMessages` applied: an error answer reads as an empty
   * page. The token is only read after a full page, which an error never is.
   */
  function Fetch(hub: MessageHub, rpc: MessageRpc, fid: Fid, token: Option<Bytes>): (r: (seq<Message>, Option<Bytes>))
    ensures hub(rpc, fid, MaxPageSize, token).Err? ==> r.0 == []
    ensures hub(rpc, fid, MaxPageSize, token).Ok? ==>
              r == (hub(rpc, fid, MaxPageSize, token).value.messages, hub(rpc, fid, MaxPageSize, token).value.nextPageToken)
  {
    var res := hub(rpc, fid, MaxPageSize, token);
    var msgs := CheckMessages(if res.Ok? then Ok(res.value.messages) else Err(res.error));
    (msgs, if res.Ok? then res.value.nextPageToken else None)
  }

  /** Reference: the token of the i-th request when the walk is not stopped earlier. */
  function TokenBefore(hub: MessageHub, rpc: MessageRpc, fid: Fid, i: nat): Option<Bytes> {
    if i == 0 then None else Fetch(hub, rpc, fid, TokenBefore(hub, rpc, fid, i - 1)).1
  }

  function PageAt(hub: MessageHub, rpc: MessageRpc, fid: Fid, i: nat): seq<Message> {
    Fetch(hub, rpc, fid, TokenBefore(hub, rpc, fid, i)).0
  }

  /** Reference: the first n pages, in request order. */
  function PagesUpTo(hub: MessageHub, rpc: MessageRpc, fid: Fid, n: nat): (r: seq<seq<Message>>)
    ensures |r| == n && forall i :: 0 <= i < n ==> r[i] == PageAt(hub, rpc, fid, i)
  {
    if n == 0 then [] else PagesUpTo(hub, rpc, fid, n - 1) + [PageAt(hub, rpc, fid, n - 1)]
  }

  /** The walk ends after page k: every earlier page is full and page k is short. */
  predicate EndsAt(hub: MessageHub, rpc: MessageRpc, fid: Fid, k: nat) {
    |PageAt(hub, rpc, fid, k)| < MaxPageSize && forall j :: 0 <= j < k ==> |PageAt(hub, rpc, fid, j)| >= MaxPageSize
  }

  /**
   * `getAllCastsByFid`, `getAllReactionsByFid`, `getAllLinksByFid`: the pages up to and
   * including the first short one, concatenated in request order; a hub error ends the walk
   * with what was gathered so far.
   */
  method GetAllByFid(hub: MessageHub, kind: MessageKind, fid: Fid, options: HubOptions, maxPages: nat)
    returns (r: Result<seq<Message>, Error>)
    ensures var rpc := Rpc(kind, options);
            && (r.Ok? ==> exists k :: 0 <= k < maxPages && EndsAt(hub, rpc, fid, k)
                                      && r.value == Flatten(PagesUpTo(hub, rpc, fid, k + 1)))
            && (r.Err? ==> r.error == PageLimit
                           && forall j :: 0 <= j < maxPages ==> |PageAt(hub, rpc, fid, j)| >= MaxPageSize)
  {
    var rpc := Rpc(kind, options);
    var acc: seq<Message> := [];
    var token: Option<Bytes> := None;
    var i: nat := 0;
    assert PagesUpTo(hub, rpc, fid, 0) == [];
    while i < maxPages
      invariant i <= maxPages
      invariant Walked(hub, rpc, fid, i, token, acc)
    {
      var page := Fetch(hub, rpc, fid, token);
      if |page.0| < MaxPageSize {
        WalkEnds(hub, rpc, fid, i, token, acc, maxPages);
        return Ok(acc + page.0);
      }
      WalkStep(hub, rpc, fid, i, token, acc);
      acc := acc + page.0;
      token := page.1;
      i := i + 1;
    }
    assert forall j :: 0 <= j < maxPages ==> |PageAt(hub, rpc, fid, j)| >= MaxPageSize;
    return Err(PageLimit);
  }

  /** A walk's state after i full pages: the next token and the messages gathered so far. */
  ghost predicate Walked(hub: MessageHub, rpc: MessageRpc, fid: Fid, i: nat, token: Option<Bytes>, acc: seq<Message>) {
    token == TokenBefore(hub, rpc, fid, i)
    && acc == Flatten(PagesUpTo(hub, rpc, fid, i))
    && forall j :: 0 <= j < i ==> |PageAt(hub, rpc, fid, j)| >= MaxPageSize
  }

  /** One more request of a walk: its page is the next one and its token the next token. */
  lemma PageStep(hub: MessageHub, rpc: MessageRpc, fid: Fid, i: nat)
    ensures Fetch(hub, rpc, fid, TokenBefore(hub, rpc, fid, i)) == (PageAt(hub, rpc, fid, i), TokenBefore(hub, rpc, fid, i + 1))
    ensures Flatten(PagesUpTo(hub, rpc, fid, i + 1)) == Flatten(PagesUpTo(hub, rpc, fid, i)) + PageAt(hub, rpc, fid, i)
  {
    var pages := PagesUpTo(hub, rpc, fid, i + 1);
    assert pages[..i] == PagesUpTo(hub, rpc, fid, i);
  }

  lemma WalkStep(hub: MessageHub, rpc: MessageRpc, fid: Fid, i: nat, token: Option<Bytes>, acc: seq<Message>)
    requires Walked(hub, rpc, fid, i, token, acc)
    requires |Fetch(hub, rpc, fid, token).0| >= MaxPageSize
    ensures Walked(hub, rpc, fid, i + 1, Fetch(hub, rpc, fid, token).1, acc + Fetch(hub, rpc, fid, token).0)
  {
    PageStep(hub, rpc, fid, i);
  }

  lemma WalkEnds(hub: MessageHub, rpc: MessageRpc, fid: Fid, i: nat, token: Option<Bytes>, acc: seq<Message>, maxPages: nat)
    requires Walked(hub, rpc, fid, i, token, acc) && i < maxPages
    requires |Fetch(hub, rpc, fid, token).0| < MaxPageSize
    ensures exists k :: 0 <= k < maxPages && EndsAt(hub, rpc, fid, k)
                        && acc + Fetch(hub, rpc, fid, token).0 == Flatten(PagesUpTo(hub, rpc, fid, k + 1))
  {
    PageStep(hub, rpc, fid, i);
    assert EndsAt(hub, rpc, fid, i);
  }

  /** Two walks for the same fid and RPC see the same pages: a hub error on page k ends the walk there. */
  lemma {:induction false} HubErrorEndsWalk(hub: MessageHub, rpc: MessageRpc, fid: Fid, k: nat)
    requires forall j :: 0 <= j < k ==> |PageAt(hub, rpc, fid, j)| >= MaxPageSize
    requires hub(rpc, fid, MaxPageSize, TokenBefore(hub, rpc, fid, k)).Err?
    ensures EndsAt(hub, rpc, fid, k)
    ensures Flatten(PagesUpTo(hub, rpc, fid, k + 1)) == Flatten(PagesUpTo(hub, rpc, fid, k))
  {
    assert PageAt(hub, rpc, fid, k) == [];
    assert PagesUpTo(hub, rpc, fid, k + 1) == PagesUpTo(hub, rpc, fid, k) + [[]];
  }

  /**
   * The outcome of a retried call: its result, how many times `fn` ran, and the delays it asked
   * `setTimeout` for. Node clamps a request above 2^31 - 1 ms to 1 ms, so the wait actually
   * taken can differ from the request.
   */
  datatype Retried<T> = Retried(result: Result<T, Error>, calls: nat, delays: seq<nat>)

  /** a + (a+1) + … + (a+n-1). */
  function SumFrom(a: nat, n: nat): nat {
    if n == 0 then 0 else SumFrom(a, n - 1) + a + n - 1
  }

  /**
   * `retryHubCallWithExponentialBackoff` as written: `fn(i)` is the answer of the call made at
   * attempt i; an error answer is treated like a throw. Each delay is `base * 2^attempt` and
   * becomes the base of the next attempt.
   */
  function RetryAsWritten<T>(fn: nat -> Result<T, Error>, attempt: nat, maxAttempts: nat, base: nat): (r: Retried<T>)
    ensures 1 <= r.calls <= (if attempt <= maxAttempts then maxAttempts - attempt + 1 else 1)
    ensures |r.delays| == r.calls - 1
    ensures forall a :: attempt <= a < attempt + r.calls - 1 ==> fn(a).Err?
    ensures r.result == fn(attempt + r.calls - 1)
    ensures r.result.Err? ==> attempt + r.calls - 1 >= maxAttempts
    decreases if attempt < maxAttempts then maxAttempts - attempt else 0
  {
    var res := fn(attempt);
    if res.Ok? || attempt >= maxAttempts then Retried(res, 1, [])
    else
      var delay := base * Numerals.Pow(2, attempt);
      var rest := RetryAsWritten(fn, attempt + 1, maxAttempts, delay);
      Retried(rest.result, rest.calls + 1, [delay] + rest.delays)
  }

  /** The i-th delay is `base * 2^(attempt + … + (attempt+i))`: the exponents add up. */
  lemma {:induction false} RetryAsWrittenDelays<T>(fn: nat -> Result<T, Error>, attempt: nat, maxAttempts: nat, base: nat)
    ensures forall i :: 0 <= i < |RetryAsWritten(fn, attempt, maxAttempts, base).delays| ==>
              RetryAsWritten(fn, attempt, maxAttempts, base).delays[i] == base * Numerals.Pow(2, SumFrom(attempt, i + 1))
    decreases if attempt < maxAttempts then maxAttempts - attempt else 0
  {
    var r := RetryAsWritten(fn, attempt, maxAttempts, base);
    if |r.delays| > 0 {
      var delay := base * Numerals.Pow(2, attempt);
      RetryAsWrittenDelays(fn, attempt + 1, maxAttempts, delay);
      var rest := RetryAsWritten(fn, attempt + 1, maxAttempts, delay);
      assert r.delays == [delay] + rest.delays;
      forall i | 0 <= i < |r.delays| ensures r.delays[i] == base * Numerals.Pow(2, SumFrom(attempt, i + 1)) {
        if i == 0 {
          assert SumFrom(attempt, 1) == attempt;
        } else {
          SumFromShift(attempt, i);
          PowAdd(attempt, SumFrom(attempt + 1, i));
          var p, q := Numerals.Pow(2, attempt), Numerals.Pow(2, SumFrom(attempt + 1, i));
          assert rest.delays[i - 1] == delay * Numerals.Pow(2, SumFrom(attempt + 1, i - 1 + 1));
          calc {
            r.delays[i];
            rest.delays[i - 1];
            (base * p) * q;
            { MulAssoc(base, p, q); }
            base * (p * q);
            base * Numerals.Pow(2, SumFrom(attempt, i + 1));
          }
        }
      }
    }
  }

  /** With a positive base, each delay is larger than the one before. */
  lemma RetryAsWrittenDelaysGrow<T>(fn: nat -> Result<T, Error>, attempt: nat, maxAttempts: nat, base: nat)
    requires base > 0
    ensures forall i :: 1 <= i < |RetryAsWritten(fn, attempt, maxAttempts, base).delays| ==>
              RetryAsWritten(fn, attempt, maxAttempts, base).delays[i - 1] < RetryAsWritten(fn, attempt, maxAttempts, base).delays[i]
  {
    var d := RetryAsWritten(fn, attempt, maxAttempts, base).delays;
    RetryAsWrittenDelays(fn, attempt, maxAttempts, base);
    forall i | 1 <= i < |d| ensures d[i - 1] < d[i] {
      assert d[i - 1] == base * Numerals.Pow(2, SumFrom(attempt, i));
      assert d[i] == base * Numerals.Pow(2, SumFrom(attempt, i + 1));
      SumFromStep(attempt, i);
      DoublingGrows(base, SumFrom(attempt, i), attempt + i);
    }
  }

  /** A positive base times a power of two grows when the exponent does. */
  lemma DoublingGrows(base: nat, s: nat, e: nat)
    requires base > 0 && e > 0
    ensures base * Numerals.Pow(2, s) < base * Numerals.Pow(2, s + e)
  {
    var p, q := Numerals.Pow(2, s), Numerals.Pow(2, e);
    PowAdd(s, e);
    PowGrows(e);
    LessTimes(base * p, q);
    MulAssoc(base, p, q);
  }

  lemma {:induction false} SumFromShift(a: nat, n: nat)
    ensures SumFrom(a, n + 1) == a + SumFrom(a + 1, n)
  {
    if n > 0 { SumFromShift(a, n - 1); }
  }

  lemma SumFromStep(a: nat, n: nat)
    ensures SumFrom(a, n + 1) == SumFrom(a, n) + a + n
  {
  }

  lemma {:induction false} PowAdd(x: nat, y: nat)
    ensures Numerals.Pow(2, x + y) == Numerals.Pow(2, x) * Numerals.Pow(2, y)
  {
    if x > 0 {
      PowAdd(x - 1, y);
      assert Numerals.Pow(2, x + y) == 2 * Numerals.Pow(2, x - 1 + y);
    }
  }

  lemma {:induction false} PowGrows(e: nat)
    requires e > 0
    ensures Numerals.Pow(2, e) >= 2
  {
    if e > 1 { PowGrows(e - 1); }
  }

  lemma MulAssoc(a: nat, b: nat, c: nat)
    ensures (a * b) * c == a * (b * c)
  {
  }

  lemma LessTimes(d: nat, m: nat)
    requires d > 0 && m >= 2
    ensures d < d * m
  {
  }

  /**
   * `retryHubCallWithExponentialBackoff` with the base kept fixed, which the doubling per
   * attempt evidently intends: the i-th delay is `base * 2^(attempt+i)`.
   */
  function Retry<T>(fn: nat -> Result<T, Error>, attempt: nat, maxAttempts: nat, base: nat): (r: Retried<T>)
    ensures 1 <= r.calls <= (if attempt <= maxAttempts then maxAttempts - attempt + 1 else 1)
    ensures |r.delays| == r.calls - 1
    ensures forall a :: attempt <= a < attempt + r.calls - 1 ==> fn(a).Err?
    ensures r.result == fn(attempt + r.calls - 1)
    ensures r.result.Err? ==> attempt + r.calls - 1 >= maxAttempts
    decreases if attempt < maxAttempts then maxAttempts - attempt else 0
  {
    var res := fn(attempt);
    if res.Ok? || attempt >= maxAttempts then Retried(res, 1, [])
    else
      var rest := Retry(fn, attempt + 1, maxAttempts, base);
      Retried(rest.result, rest.calls + 1, [base * Numerals.Pow(2, attempt)] + rest.delays)
  }

  /** The schedule does not change the outcome: both combinators make the same calls and return the same result. */
  lemma RetrySameOutcome<T>(fn: nat -> Result<T, Error>, attempt: nat, maxAttempts: nat, base: nat)
    ensures RetryAsWritten(fn, attempt, maxAttempts, base).calls == Retry(fn, attempt, maxAttempts, base).calls
    ensures RetryAsWritten(fn, attempt, maxAttempts, base).result == Retry(fn, attempt, maxAttempts, base).result
  {
    // Both contracts pin the call count down: every earlier attempt failed, and the last
    // one either succeeded or was the final attempt allowed.
  }

  /** The corrected schedule doubles from one attempt to the next. */
  lemma {:induction false} RetryDelays<T>(fn: nat -> Result<T, Error>, attempt: nat, maxAttempts: nat, base: nat)
    ensures forall i :: 0 <= i < |Retry(fn, attempt, maxAttempts, base).delays| ==>
              Retry(fn, attempt, maxAttempts, base).delays[i] == base * Numerals.Pow(2, attempt + i)
    decreases if attempt < maxAttempts then maxAttempts - attempt else 0
  {
    var r := Retry(fn, attempt, maxAttempts, base);
    if |r.delays| > 0 {
      RetryDelays(fn, attempt + 1, maxAttempts, base);
      var rest := Retry(fn, attempt + 1, maxAttempts, base);
      assert r.delays == [base * Numerals.Pow(2, attempt)] + rest.delays;
      forall i | 0 <= i < |r.delays| ensures r.delays[i] == base * Numerals.Pow(2, attempt + i) {
        if i > 0 {
          assert r.delays[i] == rest.delays[i - 1];
          assert rest.delays[i - 1] == base * Numerals.Pow(2, attempt + 1 + (i - 1));
          assert attempt + 1 + (i - 1) == attempt + i;
        }
      }
    }
  }

  /** Under the defaults (attempt 1, ten attempts, base 100 ms), a call that keeps failing waits 200, 800, 6400 ms first. */
  lemma RetryAsWrittenDefaults<T>(fn: nat -> Result<T, Error>, attempt: nat, maxAttempts: nat, base: nat)
    requires forall a :: fn(a).Err?
    requires attempt == 1 && maxAttempts == 10 && base == 100
    ensures RetryAsWritten(fn, attempt, maxAttempts, base).calls == 10
    ensures RetryAsWritten(fn, attempt, maxAttempts, base).delays[..3] == [200, 800, 6400]
  {
    RetryAsWrittenDelays(fn, attempt, maxAttempts, base);
    var d := RetryAsWritten(fn, attempt, maxAttempts, base).delays;
    assert |d| == 9;
    assert d[0] == 200 by { assert SumFrom(1, 1) == 1; assert Numerals.Pow(2, 1) == 2; }
    assert d[1] == 800 by { assert SumFrom(1, 2) == 3; assert Numerals.Pow(2, 3) == 8; }
    assert d[2] == 6400 by { assert SumFrom(1, 3) == 6; assert Numerals.Pow(2, 6) == 64; }
    assert d[..3] == [d[0], d[1], d[2]];
  }

  /** With the base kept fixed, the same call waits 200, 400, 800 ms first. */
  lemma RetryDefaults<T>(fn: nat -> Result<T, Error>, attempt: nat, maxAttempts: nat, base: nat)
    requires forall a :: fn(a).Err?
    requires attempt == 1 && maxAttempts == 10 && base == 100
    ensures Retry(fn, attempt, maxAttempts, base).calls == 10
    ensures Retry(fn, attempt, maxAttempts, base).delays[..3] == [200, 400, 800]
  {
    RetryDelays(fn, attempt, maxAttempts, base);
    var c := Retry(fn, attempt, maxAttempts, base).delays;
    assert |c| == 9;
    assert c[0] == 200 by { assert Numerals.Pow(2, 1) == 2; }
    assert c[1] == 400 by { assert Numerals.Pow(2, 2) == 4; }
    assert c[2] == 800 by { assert Numerals.Pow(2, 3) == 8; }
    assert c[..3] == [c[0], c[1], c[2]];
  }

  /** The two schedules part at the third wait: 6400 ms as written against 800 ms. */
  lemma RetryAsWrittenCounterexample<T>(fn: nat -> Result<T, Error>)
    requires forall a :: fn(a).Err?
    ensures RetryAsWritten(fn, 1, 10, 100).delays[2] == 6400
    ensures Retry(fn, 1, 10, 100).delays[2] == 800
  {
    RetryAsWrittenDefaults(fn, 1, 10, 100);
    RetryDefaults(fn, 1, 10, 100);
    assert RetryAsWritten(fn, 1, 10, 100).delays[..3][2] == 6400;
    assert Retry(fn, 1, 10, 100).delays[..3][2] == 800;
  }

  /** A request to `getOnChainEvents`. */
  datatype OnChainRequest = OnChainRequest(fid: Fid, pageSize: nat, eventType: OnChainEventType, pageToken: Option<Bytes>)

  datatype EventPage = EventPage(events: seq<OnChainEvent>, nextPageToken: Option<Bytes>)

  /** The hub's answers to a request, by the attempt number of the call. */
  type OnChainHub = OnChainRequest -> nat -> Result<EventPage, Error>

  /** One on-chain call under the default retry policy (attempt 1, ten attempts, base 100 ms); a final error is thrown. */
  function CallWithRetry(hub: OnChainHub, req: OnChainRequest): Result<EventPage, Error> {
    match RetryAsWritten(hub(req), 1, 10, 100).result
    case Ok(page) => Ok(page)
    case Err(_) => Err(HubFailure)
  }

  /** The call fails only when all ten attempts fail, and otherwise returns one attempt's page unchanged. */
  lemma CallWithRetrySpec(hub: OnChainHub, req: OnChainRequest)
    ensures CallWithRetry(hub, req).Ok? ==> exists a :: 1 <= a <= 10 && CallWithRetry(hub, req) == hub(req)(a)
    ensures CallWithRetry(hub, req).Err? <==> forall a :: 1 <= a <= 10 ==> hub(req)(a).Err?
  {
    var res := RetryAsWritten(hub(req), 1, 10, 100);
    if res.result.Ok? {
      assert CallWithRetry(hub, req) == hub(req)(res.calls);
    } else {
      forall a | 1 <= a <= 10 ensures hub(req)(a).Err? {
        if a < res.calls { assert hub(req)(a).Err?; } else { assert a == res.calls; }
      }
    }
  }

  /** Every call of the walk goes through the retry combinator. */
  function RetriedCall(hub: OnChainHub): OnChainCall {
    (req: OnChainRequest) => CallWithRetry(hub, req)
  }

  /** One `getOnChainEvents` call as the walk sees it, after retries. */
  type OnChainCall = OnChainRequest -> Result<EventPage, Error>

  /** `!pageToken?.length`: no token, or an empty one. */
  predicate LastPage(page: EventPage) {
    page.nextPageToken.None? || |page.nextPageToken.value| == 0
  }

  /** Reference: the answer to the i-th request for one event type, following the page tokens. */
  function EventCallAt(call: OnChainCall, fid: Fid, pageSize: nat, t: OnChainEventType, i: nat): Result<EventPage, Error> {
    if i == 0 then call(OnChainRequest(fid, pageSize, t, None))
    else
      var prev := EventCallAt(call, fid, pageSize, t, i - 1);
      call(OnChainRequest(fid, pageSize, t, if prev.Ok? then prev.value.nextPageToken else None))
  }

  /** The walk for one type goes on past request i: it succeeded with a non-empty token. */
  predicate GoesOn(call: OnChainCall, fid: Fid, pageSize: nat, t: OnChainEventType, i: nat) {
    EventCallAt(call, fid, pageSize, t, i).Ok? && !LastPage(EventCallAt(call, fid, pageSize, t, i).value)
  }

  /** Reference: the events of the first n answers, in request order (an error answer counts as no events). */
  function EventsUpTo(call: OnChainCall, fid: Fid, pageSize: nat, t: OnChainEventType, n: nat): (r: seq<seq<OnChainEvent>>)
    ensures |r| == n
    ensures forall j :: 0 <= j < n && EventCallAt(call, fid, pageSize, t, j).Ok? ==>
              r[j] == EventCallAt(call, fid, pageSize, t, j).value.events
  {
    if n == 0 then []
    else
      var c := EventCallAt(call, fid, pageSize, t, n - 1);
      EventsUpTo(call, fid, pageSize, t, n - 1) + [if c.Ok? then c.value.events else []]
  }

  /** Reference: the pages the generator yields for one type, or why it throws. */
  function TypeBatchesRef(call: OnChainCall, fid: Fid, pageSize: nat, t: OnChainEventType, maxPages: nat, k: nat):
    (r: Result<seq<seq<OnChainEvent>>, Error>)
    requires k <= maxPages && forall j :: 0 <= j < k ==> GoesOn(call, fid, pageSize, t, j)
    decreases maxPages - k
  {
    if k == maxPages then Err(PageLimit)
    else if EventCallAt(call, fid, pageSize, t, k).Err? then Err(HubFailure)
    else if LastPage(EventCallAt(call, fid, pageSize, t, k).value) then
      Ok(EventsUpTo(call, fid, pageSize, t, k + 1))
    else TypeBatchesRef(call, fid, pageSize, t, maxPages, k + 1)
  }

  /**
   * The generator of `getOnChainEventsByFidInBatchesOf` for one event type: it yields each
   * page's events and asks for the next page while the page token is non-empty.
   */
  method TypeBatches(call: OnChainCall, fid: Fid, pageSize: nat, t: OnChainEventType, maxPages: nat)
    returns (r: Result<seq<seq<OnChainEvent>>, Error>)
    ensures r == TypeBatchesRef(call, fid, pageSize, t, maxPages, 0)
  {
    var batches: seq<seq<OnChainEvent>> := [];
    var result := call(OnChainRequest(fid, pageSize, t, None));
    var i: nat := 0;
    while i < maxPages
      invariant i <= maxPages
      invariant forall j :: 0 <= j < i ==> GoesOn(call, fid, pageSize, t, j)
      invariant result == EventCallAt(call, fid, pageSize, t, i)
      invariant batches == EventsUpTo(call, fid, pageSize, t, i)
      invariant TypeBatchesRef(call, fid, pageSize, t, maxPages, 0) == TypeBatchesRef(call, fid, pageSize, t, maxPages, i)
      decreases maxPages - i
    {
      if result.Err? {
        return Err(HubFailure);
      }
      batches := batches + [result.value.events];
      if LastPage(result.value) {
        return Ok(batches);
      }
      assert GoesOn(call, fid, pageSize, t, i);
      result := call(OnChainRequest(fid, pageSize, t, result.value.nextPageToken));
      i := i + 1;
    }
    return Err(PageLimit);
  }

  /**
   * The pages of one type are the answers up to the first one without a page token; the walk
   * throws on the first answer that is an error, and past the page budget.
   */
  lemma {:induction false} TypeBatchesRefSpec(call: OnChainCall, fid: Fid, pageSize: nat, t: OnChainEventType, maxPages: nat, k: nat)
    requires k <= maxPages && forall j :: 0 <= j < k ==> GoesOn(call, fid, pageSize, t, j)
    ensures TypeBatchesRef(call, fid, pageSize, t, maxPages, k).Ok? ==>
              exists e :: k <= e < maxPages && (forall j :: 0 <= j < e ==> GoesOn(call, fid, pageSize, t, j))
                          && EventCallAt(call, fid, pageSize, t, e).Ok? && LastPage(EventCallAt(call, fid, pageSize, t, e).value)
                          && TypeBatchesRef(call, fid, pageSize, t, maxPages, k).value == EventsUpTo(call, fid, pageSize, t, e + 1)
    ensures TypeBatchesRef(call, fid, pageSize, t, maxPages, k) == Err(HubFailure) ==>
              exists e :: k <= e < maxPages && (forall j :: 0 <= j < e ==> GoesOn(call, fid, pageSize, t, j))
                          && EventCallAt(call, fid, pageSize, t, e).Err?
    ensures TypeBatchesRef(call, fid, pageSize, t, maxPages, k) == Err(PageLimit) ==>
              forall j :: 0 <= j < maxPages ==> GoesOn(call, fid, pageSize, t, j)
    decreases maxPages - k
  {
    if k < maxPages && EventCallAt(call, fid, pageSize, t, k).Ok? && !LastPage(EventCallAt(call, fid, pageSize, t, k).value) {
      TypeBatchesRefSpec(call, fid, pageSize, t, maxPages, k + 1);
    }
  }

  /** The pages of one type when its walk succeeds, none otherwise. */
  function BatchesOf(call: OnChainCall, fid: Fid, pageSize: nat, t: OnChainEventType, maxPages: nat): seq<seq<OnChainEvent>> {
    var b := TypeBatchesRef(call, fid, pageSize, t, maxPages, 0);
    if b.Ok? then b.value else []
  }

  /**
   * `getOnChainEventsByFidInBatchesOf`: the event types in the order given, each walked to its
   * last page; the first type whose walk throws ends the whole generator.
   */
  function OnChainBatches(call: OnChainCall, fid: Fid, pageSize: nat, types: seq<OnChainEventType>, maxPages: nat):
    (r: Result<seq<seq<OnChainEvent>>, Error>)
    ensures r.Ok? <==> forall i :: 0 <= i < |types| ==> TypeBatchesRef(call, fid, pageSize, types[i], maxPages, 0).Ok?
    ensures r.Ok? ==> r.value == Flatten(Map(types, (t: OnChainEventType) => BatchesOf(call, fid, pageSize, t, maxPages)))
    ensures r.Err? ==> exists i :: 0 <= i < |types| && TypeBatchesRef(call, fid, pageSize, types[i], maxPages, 0) == Err(r.error)
    decreases |types|
  {
    if |types| == 0 then Ok([])
    else
      var init := types[..|types| - 1];
      assert forall i :: 0 <= i < |init| ==> init[i] == types[i];
      FlattenMapSnoc(types, (t: OnChainEventType) => BatchesOf(call, fid, pageSize, t, maxPages));
      match OnChainBatches(call, fid, pageSize, init, maxPages)
      case Err(e) => Err(e)
      case Ok(prev) =>
        match TypeBatchesRef(call, fid, pageSize, types[|types| - 1], maxPages, 0)
        case Err(e) => Err(e)
        case Ok(b) => Ok(prev + b)
  }

  /**
   * What `getAllRegistrationsByFid`, `getAllSignersByFid` and `getAllStorageByFid` collect
   * before sorting: every page of the one type they ask for, concatenated.
   */
  function OnChainEventsOfType(call: OnChainCall, fid: Fid, t: OnChainEventType, maxPages: nat): (r: Result<seq<OnChainEvent>, Error>)
    ensures r.Ok? <==> TypeBatchesRef(call, fid, MaxPageSize, t, maxPages, 0).Ok?
    ensures r.Ok? ==> r.value == Flatten(TypeBatchesRef(call, fid, MaxPageSize, t, maxPages, 0).value)
  {
    match OnChainBatches(call, fid, MaxPageSize, [t], maxPages)
    case Err(e) => Err(e)
    case Ok(b) =>
      assert Map([t], (u: OnChainEventType) => BatchesOf(call, fid, MaxPageSize, u, maxPages))
             == [BatchesOf(call, fid, MaxPageSize, t, maxPages)];
      FlattenSingle(BatchesOf(call, fid, MaxPageSize, t, maxPages));
      Ok(Flatten(b))
  }
}
