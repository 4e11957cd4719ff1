/**
 * The dashboard's rate-governed client for the upstream anime metadata API
 * (`jikanFetch`): a module-level `lastCall` timestamp hands every call a slot
 * at least 400 ms after the previous one, and a 429 reply is retried on the
 * same URL after a fixed 1500 ms back-off, with no retry cap.
 *
 * Time is an explicit parameter in milliseconds; the network is a finite
 * sequence of the replies the successive attempts receive.
 */
module RateLimit {

  /** Minimum distance between two reserved slots, in milliseconds. */
  const MinInterval: int := 400
  /** Sleep after a 429 reply before the same URL is requested again. */
  const RetryBackoff: nat := 1500
  const TooManyRequests: int := 429

  function Max(a: int, b: int): int { if a >= b then a else b }

  /**
   * The slot given to a call made at `now` when the previous slot was
   * `lastCall`: the earliest instant that is neither before the call nor
   * closer than MinInterval to the previous slot.
   */
  function NextSlot(lastCall: int, now: int): (slot: int)
    ensures slot >= now && slot >= lastCall + MinInterval
    ensures slot == now || slot == lastCall + MinInterval
  {
    Max(now, lastCall + MinInterval)
  }

  /**
   * The slots a sequence of calls made one after another at the times
   * `calls` are given, starting from the previous slot `lastCall`.
   */
  function Schedule(lastCall: int, calls: seq<int>): (slots: seq<int>)
    ensures |slots| == |calls|
    ensures forall i :: 0 <= i < |calls| ==> slots[i] >= calls[i]
    ensures |calls| > 0 ==> slots[0] >= lastCall + MinInterval
    ensures forall i :: 0 < i < |calls| ==> slots[i] >= slots[i - 1] + MinInterval
    decreases |calls|
  {
    if calls == [] then []
    else
      var slot := NextSlot(lastCall, calls[0]);
      [slot] + Schedule(slot, calls[1..])
  }

  /** Successive slots are strictly increasing, any two of them at least MinInterval per step apart. */
  lemma {:induction false} ScheduleSpreads(lastCall: int, calls: seq<int>, i: nat, j: nat)
    requires i <= j < |calls|
    ensures Schedule(lastCall, calls)[j] >= Schedule(lastCall, calls)[i] + (j - i) * MinInterval
    decreases j - i
  {
    if i < j {
      ScheduleSpreads(lastCall, calls, i, j - 1);
    }
  }

  /** Calls that already keep their distance are never delayed: every slot is the call's own time. */
  lemma {:induction false} ScheduleNoWait(lastCall: int, calls: seq<int>)
    requires |calls| > 0 ==> calls[0] >= lastCall + MinInterval
    requires forall i :: 0 < i < |calls| ==> calls[i] >= calls[i - 1] + MinInterval
    ensures Schedule(lastCall, calls) == calls
    decreases |calls|
  {
    if calls != [] {
      ScheduleNoWait(calls[0], calls[1..]);
    }
  }

  /** `res.ok`: a status in the range 200-299, so never the 429 that is retried. */
  function IsOk(status: int): (ok: bool)
    ensures ok <==> 200 <= status <= 299
    ensures ok ==> status != TooManyRequests
  {
    200 <= status <= 299
  }

  /** One reply of the upstream API: its status, its JSON body, and how long after the request it arrived. */
  datatype Response = Response(status: int, body: string, latency: nat)

  /**
   * What `jikanFetch` ends with after `backoffs` 429 replies: the JSON payload,
   * the `Jikan <status>` error, or (when the replies observed run out) still
   * waiting for the next attempt's reply.
   */
  datatype FetchResult =
    | Payload(body: string, backoffs: nat)
    | UpstreamError(status: int, backoffs: nat)
    | Pending(backoffs: nat)

  function AfterBackoff(r: FetchResult): FetchResult {
    r.(backoffs := r.backoffs + 1)
  }

  /**
   * The outcome of `jikanFetch` when its successive attempts receive the
   * replies `rs`: every leading 429 is retried, the first other reply decides.
   */
  function FetchOutcome(rs: seq<Response>): (r: FetchResult)
    ensures r.backoffs <= |rs|
    ensures forall j :: 0 <= j < r.backoffs ==> rs[j].status == TooManyRequests
    ensures r.Pending? <==> r.backoffs == |rs|
    ensures r.Payload? ==> IsOk(rs[r.backoffs].status) && r.body == rs[r.backoffs].body
    ensures r.UpstreamError? ==>
              r.status == rs[r.backoffs].status && r.status != TooManyRequests && !IsOk(r.status)
    decreases |rs|
  {
    if rs == [] then Pending(0)
    else if rs[0].status == TooManyRequests then AfterBackoff(FetchOutcome(rs[1..]))
    else if !IsOk(rs[0].status) then UpstreamError(rs[0].status, 0)
    else Payload(rs[0].body, 0)
  }

  /** A 429 reply is never surfaced to the caller. */
  lemma NeverSurfacesRateLimit(rs: seq<Response>)
    ensures FetchOutcome(rs).UpstreamError? ==> FetchOutcome(rs).status != TooManyRequests
  {
  }

  /** k leading 429 replies then an ok reply: its payload, after exactly k back-offs. */
  lemma {:induction false} RateLimitedThenOk(k: nat, rs: seq<Response>)
    requires k < |rs| && IsOk(rs[k].status)
    requires forall j :: 0 <= j < k ==> rs[j].status == TooManyRequests
    ensures FetchOutcome(rs) == Payload(rs[k].body, k)
    decreases k
  {
    if k > 0 {
      RateLimitedThenOk(k - 1, rs[1..]);
    }
  }

  /** A reply that is neither ok nor 429 fails with its status, and nothing after it is requested. */
  lemma {:induction false} ErrorStopsRetrying(k: nat, rs: seq<Response>)
    requires k < |rs| && !IsOk(rs[k].status) && rs[k].status != TooManyRequests
    requires forall j :: 0 <= j < k ==> rs[j].status == TooManyRequests
    ensures FetchOutcome(rs) == UpstreamError(rs[k].status, k)
    ensures FetchOutcome(rs) == FetchOutcome(rs[..k + 1])
    decreases k
  {
    if k > 0 {
      assert rs[1..][..k] == rs[..k + 1][1..];
      ErrorStopsRetrying(k - 1, rs[1..]);
    }
  }

  /** Replies 429, 429, 200: the 200 payload after two back-offs. */
  lemma TwoRateLimitsThenOk(body: string, l0: nat, l1: nat, l2: nat)
    ensures FetchOutcome([Response(429, "", l0), Response(429, "", l1), Response(200, body, l2)])
            == Payload(body, 2)
  {
    RateLimitedThenOk(2, [Response(429, "", l0), Response(429, "", l1), Response(200, body, l2)]);
  }

  /** The module-level `lastCall` of the dashboard script. */
  class Limiter {
    var lastCall: int

    constructor ()
      ensures lastCall == 0
    {
      lastCall := 0;
    }

    /** Lines 9-11: compute the wait and advance `lastCall` to the reserved slot. */
    method Reserve(now: int) returns (wait: int)
      modifies this
      ensures wait >= 0
      ensures lastCall == now + wait
      ensures lastCall == NextSlot(old(lastCall), now)
      ensures lastCall >= old(lastCall) + MinInterval
      ensures now >= old(lastCall) + MinInterval ==> wait == 0 && lastCall == now
    {
      wait := Max(0, lastCall + MinInterval - now);
      lastCall := now + wait;
    }

    /**
     * `jikanFetch(url)` called at `now`, whose successive attempts receive
     * the replies `rs`. Returns the outcome and the slot every attempt was
     * given (the last one possibly still waiting for its reply). A retry is
     * called 1500 ms after the 429 reply arrived, so it never waits for the limiter.
     */
    method JikanFetch(now: int, rs: seq<Response>) returns (r: FetchResult, slots: seq<int>)
      modifies this
      ensures r == FetchOutcome(rs)
      ensures |slots| == r.backoffs + 1
      ensures slots[0] == NextSlot(old(lastCall), now)
      ensures forall i :: 0 < i < |slots| ==>
                slots[i] == slots[i - 1] + rs[i - 1].latency + RetryBackoff
      ensures forall i :: 0 < i < |slots| ==> slots[i] >= slots[i - 1] + MinInterval
      ensures lastCall == slots[|slots| - 1]
      decreases |rs|
    {
      var wait := Reserve(now);
      var slot := now + wait;
      if rs == [] {
        r, slots := Pending(0), [slot];
      } else if rs[0].status == TooManyRequests {
        var rest, later := JikanFetch(slot + rs[0].latency + RetryBackoff, rs[1..]);
        r, slots := AfterBackoff(rest), [slot] + later;
      } else if !IsOk(rs[0].status) {
        r, slots := UpstreamError(rs[0].status, 0), [slot];
      } else {
        r, slots := Payload(rs[0].body, 0), [slot];
      }
    }
  }
}
