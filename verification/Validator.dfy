/** `StreamValidator`: the per-domain rate-limit bookkeeping, the verdict of
    one stream check and the filtering of a playlist by those verdicts. The
    network, the clock and the thread pool are inputs: a request's outcome is
    a `Reply`, times are whole seconds passed in by the caller. */
module Validator {
  import opened Wrappers
  import opened Text
  import opened Entries

  /** The delay waited on a domain's first rate limit, in seconds. */
  const RateLimitBaseDelay := 60
  /** The largest delay ever stored for a domain, in seconds. */
  const RateLimitMaxDelay := 300
  /** The HTTP status of a rate-limited request. */
  const TooManyRequests := 429

  /** What a HEAD or GET request gave: a status code, or the exception it raised. */
  datatype Reply =
    | Status(code: int)
    | RequestError(message: string)   // a `requests.RequestException`
    | UnexpectedError(message: string) // any other exception

  /** The `(is_valid, message)` pair of `validate_stream`. */
  datatype Verdict = Verdict(valid: bool, message: string)

  /** The delay a domain waits on its next rate limit: the stored one, or the base delay. */
  function CurrentDelay(delays: map<string, int>, domain: string): int
  {
    if domain in delays then delays[domain] else RateLimitBaseDelay
  }

  /** The delay stored after waiting `current` seconds: doubled, at most five minutes. */
  function NextDelay(current: int): (d: int)
    ensures d <= RateLimitMaxDelay
    ensures RateLimitBaseDelay <= current <= RateLimitMaxDelay ==> current <= d
    ensures current <= RateLimitMaxDelay / 2 ==> d == 2 * current
  {
    if current * 2 < RateLimitMaxDelay then current * 2 else RateLimitMaxDelay
  }

  /** Every stored delay lies between the base delay and five minutes. */
  predicate DelaysInRange(delays: map<string, int>)
  {
    forall d :: d in delays ==> RateLimitBaseDelay <= delays[d] <= RateLimitMaxDelay
  }

  /** How long a request to `domain` at time `now` sleeps first: what is left
      of `minWait` since the domain's last request, nothing for a new domain. */
  function SpacingWait(last: map<string, int>, domain: string, now: int, minWait: int): (w: int)
    requires 0 <= minWait
    ensures 0 <= w
    ensures domain in last && last[domain] <= now ==> w <= minWait
    ensures domain !in last ==> w == 0
  {
    if domain in last && now - last[domain] < minWait then minWait - (now - last[domain]) else 0
  }

  /** The host and port of a URL, or the URL itself when it cannot be parsed
      (`netloc` is what `urllib.parse.urlparse` gives, `None` when it raises). */
  function Domain(url: string, netloc: Option<string>): (d: string)
    ensures netloc.Some? ==> d == netloc.value
    ensures netloc.None? ==> d == url
  {
    netloc.GetOr(url)
  }

  class StreamValidator {
    const timeout: int
    const maxWorkers: int
    const slowMode: bool
    const minWait: int
    const maxWait: int
    const rateLimitBaseDelay: int
    /** When each domain was last requested. */
    var lastRequestTime: map<string, int>
    /** The delay each rate-limited domain waits on its next rate limit. */
    var rateLimitDelays: map<string, int>

    ghost predicate Valid()
      reads this
    {
      && rateLimitBaseDelay == RateLimitBaseDelay
      && 0 <= minWait <= maxWait
      && DelaysInRange(rateLimitDelays)
    }

    /** `__init__`: slow mode forces a single worker and wider request spacing. */
    constructor(timeout: int, maxWorkers: int, slowMode: bool)
      ensures Valid()
      ensures this.timeout == timeout && this.slowMode == slowMode
      ensures this.maxWorkers == if slowMode then 1 else maxWorkers
      ensures minWait == (if slowMode then 10 else 4) && maxWait == (if slowMode then 30 else 10)
      ensures lastRequestTime == map[] && rateLimitDelays == map[]
    {
      this.timeout := timeout;
      this.maxWorkers := if slowMode then 1 else maxWorkers;
      this.slowMode := slowMode;
      minWait := if slowMode then 10 else 4;
      maxWait := if slowMode then 30 else 10;
      lastRequestTime := map[];
      rateLimitDelays := map[];
      rateLimitBaseDelay := 60;
    }

    /** `_handle_rate_limit`: waits the domain's current delay, then stores the
        next one for that domain only. */
    method HandleRateLimit(domain: string) returns (waited: int)
      requires Valid()
      modifies this`rateLimitDelays
      ensures Valid()
      ensures waited == CurrentDelay(old(rateLimitDelays), domain)
      ensures rateLimitDelays == old(rateLimitDelays)[domain := NextDelay(waited)]
      ensures RateLimitBaseDelay <= waited <= rateLimitDelays[domain] <= RateLimitMaxDelay
    {
      waited := if domain in rateLimitDelays then rateLimitDelays[domain] else rateLimitBaseDelay;
      rateLimitDelays := rateLimitDelays[domain := if waited * 2 < 300 then waited * 2 else 300];
    }

    /** `_make_request`: sleeps out the domain's spacing, records the time of
        the request, and turns a 429 into a penalty and a raised
        `RequestException`. `now` is the clock before sleeping, `stamp` the
        clock read after it; `reply` is what the server or the session gave. */
    method MakeRequest(url: string, netloc: Option<string>, now: int, stamp: int, reply: Reply)
      returns (waited: int, penalty: int, r: Reply)
      requires Valid()
      modifies this`lastRequestTime, this`rateLimitDelays
      ensures Valid()
      ensures var domain := Domain(url, netloc);
              && waited == SpacingWait(old(lastRequestTime), domain, now, minWait)
              && lastRequestTime == old(lastRequestTime)[domain := stamp]
              && (reply == Status(TooManyRequests) ==>
                    && penalty == CurrentDelay(old(rateLimitDelays), domain)
                    && rateLimitDelays == old(rateLimitDelays)[domain := NextDelay(penalty)]
                    && r == RequestError("Rate limited, retrying after backoff"))
              && (reply != Status(TooManyRequests) ==>
                    penalty == 0 && rateLimitDelays == old(rateLimitDelays) && r == reply)
      ensures r != Status(TooManyRequests)
    {
      var domain := Domain(url, netloc);
      waited := 0;
      if domain in lastRequestTime {
        var elapsed := now - lastRequestTime[domain];
        if elapsed < minWait {
          waited := minWait - elapsed;
        }
      }
      lastRequestTime := lastRequestTime[domain := stamp];
      penalty := 0;
      r := reply;
      if reply.Status? && reply.code == 429 {
        penalty := HandleRateLimit(domain);
        r := RequestError("Rate limited, retrying after backoff");
      }
    }
  }

  /** The delay waited on the `n`-th rate limit of a domain, counting from 0. */
  function PenaltyWait(n: nat): int
  {
    if n == 0 then RateLimitBaseDelay else NextDelay(PenaltyWait(n - 1))
  }

  function Pow2(n: nat): (p: nat)
    ensures 1 <= p
  {
    if n == 0 then 1 else 2 * Pow2(n - 1)
  }

  /** Successive rate limits on one domain wait 60, 120, 240, then 300 seconds
      from then on: the base delay doubled each time, capped at five minutes. */
  lemma {:induction false} PenaltySchedule(n: nat)
    ensures PenaltyWait(n) == if RateLimitBaseDelay * Pow2(n) < RateLimitMaxDelay then RateLimitBaseDelay * Pow2(n) else RateLimitMaxDelay
    ensures RateLimitBaseDelay <= PenaltyWait(n) <= PenaltyWait(n + 1) <= RateLimitMaxDelay
  {
    if n > 0 {
      PenaltySchedule(n - 1);
    }
  }

  /** Spacing: when the clock does not run backwards and the sleep lasts its
      full length, a domain's recorded request times lie at least `minWait` apart. */
  lemma SpacingKept(last: map<string, int>, domain: string, now: int, stamp: int, minWait: int)
    requires 0 <= minWait
    requires domain in last && last[domain] <= now
    requires now + SpacingWait(last, domain, now, minWait) <= stamp
    ensures last[domain] + minWait <= stamp
  {
  }

  /** The URL `validate_stream` checks: the entry's URL, stripped, or empty. */
  function StreamUrl(e: Entry): string
  {
    Strip(e.url.GetOr(""))
  }

  /** The message of a failed request. */
  function ErrorVerdict(reply: Reply): (v: Verdict)
    requires !reply.Status?
    ensures !v.valid
  {
    match reply
    case RequestError(m) => Verdict(false, "Request error: " + m)
    case UnexpectedError(m) => Verdict(false, "Unexpected error: " + m)
  }

  /** The verdict on a final status code. */
  function StatusVerdict(code: int): (v: Verdict)
    ensures v.valid <==> code < 400
  {
    if code < 400 then Verdict(true, "Status: " + IntToString(code))
    else Verdict(false, "HTTP error: " + IntToString(code))
  }

  /** `validate_stream`: a blank URL is invalid; a URL without an HTTP, RTMP
      or RTSP scheme is valid unchecked; otherwise the HEAD reply decides,
      unless its status is 400 or more, when the GET reply decides. */
  function ValidateStream(e: Entry, head: Reply, get: Reply): (v: Verdict)
    ensures v.valid <==>
              && StreamUrl(e) != []
              && (!HasStreamScheme(StreamUrl(e))
                  || (head.Status? && (head.code < 400 || (get.Status? && get.code < 400))))
    ensures StreamUrl(e) == [] ==> v == Verdict(false, "Empty URL")
    ensures StreamUrl(e) != [] && !HasStreamScheme(StreamUrl(e)) ==> v == Verdict(true, "Non-HTTP stream")
    ensures StreamUrl(e) != [] && HasStreamScheme(StreamUrl(e)) ==>
              // the reply that decides: the GET after a HEAD status of 400 or more, else the HEAD
              var final := if head.Status? && head.code >= 400 then get else head;
              match final
              case Status(n) => v == Verdict(n < 400, (if n < 400 then "Status: " else "HTTP error: ") + IntToString(n))
              case RequestError(m) => v == Verdict(false, "Request error: " + m)
              case UnexpectedError(m) => v == Verdict(false, "Unexpected error: " + m)
    ensures v.valid ==> v.message == "Non-HTTP stream" || "Status: " <= v.message
    ensures !v.valid ==>
              || v.message == "Empty URL"
              || "HTTP error: " <= v.message
              || "Request error: " <= v.message
              || "Unexpected error: " <= v.message
  {
    var url := StreamUrl(e);
    if url == [] then Verdict(false, "Empty URL")
    else if !HasStreamScheme(url) then Verdict(true, "Non-HTTP stream")
    else if !head.Status? then ErrorVerdict(head)
    else if head.code < 400 then StatusVerdict(head.code)
    else if !get.Status? then ErrorVerdict(get)
    else StatusVerdict(get.code)
  }

  /** A GET is only issued after a HEAD status of 400 or more: otherwise the
      GET reply cannot change the verdict. */
  lemma GetOnlyAfterFailedHead(e: Entry, head: Reply, get1: Reply, get2: Reply)
    requires !(head.Status? && head.code >= 400)
    ensures ValidateStream(e, head, get1) == ValidateStream(e, head, get2)
  {
  }

  /** No request is made for a blank URL or one without a checked scheme:
      neither reply can change the verdict. */
  lemma NoRequestUnlessStream(e: Entry, head1: Reply, get1: Reply, head2: Reply, get2: Reply)
    requires StreamUrl(e) == [] || !HasStreamScheme(StreamUrl(e))
    ensures ValidateStream(e, head1, get1) == ValidateStream(e, head2, get2)
  {
  }

  /** Whether the entry passes, given what its HEAD and GET requests would give. */
  predicate Passes(e: Entry, head: Entry -> Reply, get: Entry -> Reply)
  {
    ValidateStream(e, head(e), get(e)).valid
  }

  /** The entries that pass, in input order. */
  function Passing(es: seq<Entry>, head: Entry -> Reply, get: Entry -> Reply): (r: seq<Entry>)
    ensures |r| <= |es|
    ensures forall j :: 0 <= j < |r| ==> Passes(r[j], head, get)
  {
    if es == [] then []
    else Passing(es[..|es| - 1], head, get) + if Passes(es[|es| - 1], head, get) then [es[|es| - 1]] else []
  }

  /** `validate`, one entry after the other: keeps exactly the entries whose
      verdict is valid. */
  method Validate(entries: seq<Entry>, head: Entry -> Reply, get: Entry -> Reply) returns (valid: seq<Entry>)
    ensures valid == Passing(entries, head, get)
  {
    valid := [];
    for i := 0 to |entries|
      invariant valid == Passing(entries[..i], head, get)
    {
      assert entries[..i + 1][..i] == entries[..i];
      var verdict := ValidateStream(entries[i], head(entries[i]), get(entries[i]));
      if verdict.valid {
        valid := valid + [entries[i]];
      }
    }
    assert entries[..|entries|] == entries;
  }

  /** How many of the entries fail. */
  function FailCount(es: seq<Entry>, head: Entry -> Reply, get: Entry -> Reply): nat
  {
    if es == [] then 0
    else FailCount(es[..|es| - 1], head, get) + if Passes(es[|es| - 1], head, get) then 0 else 1
  }

  /** Each entry is kept as often as it occurs in the input when it passes,
      and never otherwise. */
  lemma {:induction false} PassingCounts(es: seq<Entry>, head: Entry -> Reply, get: Entry -> Reply)
    ensures forall x :: multiset(Passing(es, head, get))[x] == if Passes(x, head, get) then multiset(es)[x] else 0
    decreases |es|
  {
    if es != [] {
      var init, last := es[..|es| - 1], es[|es| - 1];
      PassingCounts(init, head, get);
      assert es == init + [last];
      var before, after := multiset(Passing(init, head, get)), multiset(Passing(es, head, get));
      assert after == before + multiset(if Passes(last, head, get) then [last] else []);
      forall x
        ensures after[x] == if Passes(x, head, get) then multiset(es)[x] else 0
      {
        assert multiset(es)[x] == multiset(init)[x] + multiset([last])[x];
      }
    }
  }

  /** The kept entries number the input less the failures. */
  lemma {:induction false} PassingLength(es: seq<Entry>, head: Entry -> Reply, get: Entry -> Reply)
    ensures |Passing(es, head, get)| == |es| - FailCount(es, head, get)
    decreases |es|
  {
    if es != [] {
      PassingLength(es[..|es| - 1], head, get);
    }
  }

  /** An entry is in the result exactly when it is in the input and passes. */
  lemma PassingMembers(es: seq<Entry>, head: Entry -> Reply, get: Entry -> Reply, x: Entry)
    ensures x in Passing(es, head, get) <==> x in es && Passes(x, head, get)
  {
    PassingCounts(es, head, get);
    assert x in Passing(es, head, get) <==> multiset(Passing(es, head, get))[x] > 0;
    assert x in es <==> multiset(es)[x] > 0;
  }
}
