/** One step of the rate-limit-aware request in `_make_api_request`: given
    what the server answered, decide whether the request succeeded, failed,
    or must be re-issued after a wait. The HTTP client, the clock and the
    sleep are not modelled: the server's answer and the current time are
    inputs, and the wait is returned instead of slept. */
module Throttle {
  import opened Wrappers

  /** A GET request: the URL and its query parameters. */
  datatype Request = Request(url: string, params: seq<(string, string)>)

  /** What the server sent back: the status code, the two rate-limit
      headers already read as integers (absent when the header is missing),
      and the body when it parses as JSON (`J` is the JSON value). */
  datatype Response<J> = Response(
    status: int,
    remaining: Option<int>,
    reset: Option<int>,
    json: Option<J>)

  /** The request either never got an answer (a connection error) or got one. */
  datatype Exchange<J> = ConnectionError | Answered(response: Response<J>)

  /** The decision: the parsed body, a failure reported as "no data", or a
      retry of `request` after `wait` seconds. */
  datatype Step<J> = Done(json: J) | NoData | Retry(wait: int, request: Request)

  /** The decision together with the remaining quota the analyzer records. */
  datatype Outcome<J> = Outcome(quota: int, step: Step<J>)

  /** `response.raise_for_status()` raises for client and server errors. */
  predicate IsErrorStatus(status: int) {
    400 <= status < 600
  }

  /** The throttling signal: status 403 together with an exhausted quota. */
  predicate IsThrottled<J>(r: Response<J>) {
    r.status == 403 && r.remaining.GetOr(0) == 0
  }

  /** Seconds to sleep before retrying: `max(0, reset - now) + 1`. */
  function WaitSeconds(reset: int, now: int): (w: int)
    ensures w >= 1
    ensures w >= reset - now + 1
    ensures w == 1 || w == reset - now + 1
  {
    (if reset - now > 0 then reset - now else 0) + 1
  }

  /** One pass through `_make_api_request` for `req`, with `quota` the
      remaining count recorded before the call and `now` the current time. */
  function Decide<J>(req: Request, quota: int, ex: Exchange<J>, now: int): (r: Outcome<J>)
    // a connection error is reported as no data and leaves the quota alone
    ensures ex.ConnectionError? ==> r == Outcome(quota, NoData)
    // an answer always overwrites the quota, a missing header reading as 0
    ensures ex.Answered? ==> r.quota == ex.response.remaining.GetOr(0)
    // a retry happens exactly on a throttled answer ...
    ensures r.step.Retry? <==> ex.Answered? && IsThrottled(ex.response)
    // ... re-issues the same request, and resumes only after the reset time
    ensures r.step.Retry? ==>
      && r.step.request == req
      && r.step.wait >= 1
      && now + r.step.wait > ex.response.reset.GetOr(0)
    // the body is returned exactly when the answer is neither throttled nor
    // an error status and it parses
    ensures r.step.Done? <==>
      && ex.Answered?
      && !IsThrottled(ex.response)
      && !IsErrorStatus(ex.response.status)
      && ex.response.json.Some?
    ensures r.step.Done? ==> r.step.json == ex.response.json.value
  {
    match ex
    case ConnectionError => Outcome(quota, NoData)
    case Answered(resp) =>
      var remaining := resp.remaining.GetOr(0);
      if resp.status == 403 && remaining == 0 then
        Outcome(remaining, Retry(WaitSeconds(resp.reset.GetOr(0), now), req))
      else if IsErrorStatus(resp.status) then
        Outcome(remaining, NoData)
      else
        match resp.json
        case Some(j) => Outcome(remaining, Done(j))
        case None => Outcome(remaining, NoData)
  }

  /** A throttled answer whose reset time has already passed is retried
      after the minimum wait of one second; otherwise the wait ends exactly
      one second after the reset time. */
  lemma RetryWaitIsTight<J>(req: Request, quota: int, resp: Response<J>, now: int)
    requires IsThrottled(resp)
    ensures var r := Decide(req, quota, Answered(resp), now);
      && r.step.Retry?
      && (resp.reset.GetOr(0) <= now ==> r.step.wait == 1)
      && (resp.reset.GetOr(0) > now ==> now + r.step.wait == resp.reset.GetOr(0) + 1)
  {
  }

  /** A 403 that still has quota left (or any other error status) is a
      failure, not a retry. */
  lemma ForbiddenWithQuotaFails<J>(req: Request, quota: int, resp: Response<J>, now: int)
    requires resp.status == 403 && resp.remaining.GetOr(0) != 0
    ensures Decide(req, quota, Answered(resp), now).step == NoData
  {
  }
}
