/**
 * The bulk WhatsApp route of app/api/guests/send-all-whatsapp/route.ts:
 * select the guests with a number and a token, call the per-guest endpoint
 * for each in turn (retrying once on 429 or 5xx), and summarise.
 *
 * The per-guest endpoint is an oracle from (guest id, attempt number) to the
 * HTTP response; 429 is "Too Many Requests" (section 4 of RFC 6585) and the
 * 5xx codes are the server errors of section 15.6 of RFC 9110.
 */
module SendAllWhatsapp {
  import opened Wrappers
  import opened Text
  import opened Store

  /* ----- getSelfOrigin ----- */

  /** Request headers, by lower-case name. */
  type Headers = map<string, string>

  function Header(h: Headers, name: string): Option<string> {
    if name in h then Some(h[name]) else None
  }

  /** `x-forwarded-proto || x-forwarded-protocol || "http"`. */
  function Protocol(h: Headers): (p: string)
    ensures Present(Header(h, "x-forwarded-proto")) ==> p == h["x-forwarded-proto"]
    ensures !Present(Header(h, "x-forwarded-proto")) && Present(Header(h, "x-forwarded-protocol"))
            ==> p == h["x-forwarded-protocol"]
    ensures !Present(Header(h, "x-forwarded-proto")) && !Present(Header(h, "x-forwarded-protocol")) ==> p == "http"
  {
    Or(Header(h, "x-forwarded-proto"), Or(Header(h, "x-forwarded-protocol"), Some("http"))).GetOr("http")
  }

  const LocalOrigin: string := "http://localhost:3000"

  /** `getSelfOrigin(req)`: the origin the route calls itself back on. */
  function SelfOrigin(h: Headers): (origin: string)
    ensures Present(Header(h, "x-forwarded-host")) ==> origin == Protocol(h) + "://" + h["x-forwarded-host"]
    ensures !Present(Header(h, "x-forwarded-host")) && Present(Header(h, "host"))
            ==> origin == Protocol(h) + "://" + h["host"]
    ensures !Present(Header(h, "x-forwarded-host")) && !Present(Header(h, "host")) ==> origin == LocalOrigin
  {
    var host := Or(Header(h, "x-forwarded-host"), Header(h, "host"));
    if Present(host) then Protocol(h) + "://" + host.value else LocalOrigin
  }

  /* ----- callOne ----- */

  /** The JSON fields of an error response that the route reads. */
  datatype ReplyBody = ReplyBody(error: Option<string>, providerMsg: Option<string>, message: Option<string>)

  datatype Reply = Reply(status: int, body: ReplyBody)

  /** The per-guest endpoint: guest id and attempt number (1 or 2) to its response. */
  type Endpoint = (string, nat) -> Reply

  const MaxAttempts: nat := 2
  const DefaultReason: string := "Falha ao enviar"

  /** `r.ok`: a 2xx status. */
  predicate IsSuccess(status: int) {
    200 <= status <= 299
  }

  /** Statuses worth one more attempt: 429 and every status from 500 up. */
  predicate Retryable(status: int) {
    status == 429 || status >= 500
  }

  /** The failure reason: the first present of `error`, `details.providerMsg`, `message`, a fixed text. */
  function Reason(b: ReplyBody): (r: string)
    ensures Present(b.error) ==> r == b.error.value
    ensures !Present(b.error) && Present(b.providerMsg) ==> r == b.providerMsg.value
    ensures !Present(b.error) && !Present(b.providerMsg) && Present(b.message) ==> r == b.message.value
    ensures !Present(b.error) && !Present(b.providerMsg) && !Present(b.message) ==> r == DefaultReason
    ensures r != ""
  {
    Or(b.error, Or(b.providerMsg, Or(b.message, Some(DefaultReason)))).GetOr(DefaultReason)
  }

  /** What `callOne` returns: `{ ok, status }` or `{ ok: false, status, reason }`. */
  datatype CallResult = CallResult(ok: bool, status: int, reason: Option<string>)

  /** The outcome of `callOne`, stated without its loop. */
  function CallSpec(send: Endpoint, id: string): (r: CallResult)
    ensures r.ok <==> IsSuccess(send(id, 1).status)
                      || (Retryable(send(id, 1).status) && IsSuccess(send(id, 2).status))
    ensures r.ok ==> IsSuccess(r.status) && r.reason == None
    ensures !r.ok ==> r.reason.Some? && r.reason.value != "" && !IsSuccess(r.status)
    ensures !Retryable(send(id, 1).status) ==> r.status == send(id, 1).status
  {
    var first := send(id, 1);
    if IsSuccess(first.status) then CallResult(true, first.status, None)
    else if !Retryable(first.status) then CallResult(false, first.status, Some(Reason(first.body)))
    else
      var second := send(id, 2);
      if IsSuccess(second.status) then CallResult(true, second.status, None)
      else CallResult(false, second.status, Some(Reason(second.body)))
  }

  /**
   * `callOne(origin, id)`: at most two requests; the second only after a
   * first response of 429 or 5xx. `attempts` counts the requests made.
   */
  method CallOne(send: Endpoint, id: string) returns (r: CallResult, ghost attempts: nat)
    ensures r == CallSpec(send, id)
    ensures 1 <= attempts <= MaxAttempts
    ensures attempts == 2 <==> Retryable(send(id, 1).status)
  {
    var attempt := 1;
    while attempt <= MaxAttempts
      invariant 1 <= attempt <= MaxAttempts
      invariant attempt == 2 ==> Retryable(send(id, 1).status) && !IsSuccess(send(id, 1).status)
      decreases MaxAttempts - attempt
    {
      var reply := send(id, attempt);
      if IsSuccess(reply.status) {
        return CallResult(true, reply.status, None), attempt;
      }
      var reason := Reason(reply.body);
      if attempt == 1 && Retryable(reply.status) {
        // the 600 ms pause before the retry is not modelled
        attempt := attempt + 1;
        continue;
      }
      return CallResult(false, reply.status, Some(reason)), attempt;
    }
    r := CallResult(false, 0, Some("Erro desconhecido"));
  }

  /** A 429 followed by a success counts as a success after exactly two requests. */
  lemma RetryAfterTooManyRequests(send: Endpoint, id: string)
    requires send(id, 1).status == 429 && IsSuccess(send(id, 2).status)
    ensures CallSpec(send, id) == CallResult(true, send(id, 2).status, None)
  {
  }

  /* ----- POST ----- */

  /** `(g.whatsapp || g.phone) && g.token`. */
  predicate Eligible(g: Guest) {
    (Present(g.whatsapp) || Present(g.phone)) && g.token != ""
  }

  /** `guests.filter(...)`: the eligible guests, in list order. */
  function Candidates(guests: seq<Guest>): (r: seq<Guest>)
    ensures |r| <= |guests|
    ensures forall g :: g in r <==> g in guests && Eligible(g)
  {
    if guests == [] then []
    else if Eligible(guests[0]) then [guests[0]] + Candidates(guests[1..])
    else Candidates(guests[1..])
  }

  /** Filtering is order-preserving: it distributes over concatenation. */
  lemma {:induction false} CandidatesAppend(a: seq<Guest>, b: seq<Guest>)
    ensures Candidates(a + b) == Candidates(a) + Candidates(b)
  {
    if a == [] {
      assert a + b == b;
    } else {
      assert (a + b)[1..] == a[1..] + b;
      CandidatesAppend(a[1..], b);
    }
  }

  /** One entry of `results`. */
  datatype ItemResult = ItemResult(id: string, ok: bool, status: int, reason: Option<string>)

  function Item(send: Endpoint, g: Guest): ItemResult {
    var c := CallSpec(send, g.id);
    ItemResult(g.id, c.ok, c.status, if c.ok then None else c.reason)
  }

  /** One result per candidate, in order. */
  function Results(send: Endpoint, cands: seq<Guest>): (rs: seq<ItemResult>)
    ensures |rs| == |cands|
    ensures forall k :: 0 <= k < |cands| ==> rs[k] == Item(send, cands[k])
  {
    seq(|cands|, k requires 0 <= k < |cands| => Item(send, cands[k]))
  }

  function CountOk(rs: seq<ItemResult>): nat {
    if rs == [] then 0 else (if rs[0].ok then 1 else 0) + CountOk(rs[1..])
  }

  function CountFailed(rs: seq<ItemResult>): nat {
    if rs == [] then 0 else (if rs[0].ok then 0 else 1) + CountFailed(rs[1..])
  }

  /** Every result is either a success or a failure. */
  lemma {:induction false} CountsPartition(rs: seq<ItemResult>)
    ensures CountOk(rs) + CountFailed(rs) == |rs|
  {
    if rs != [] {
      CountsPartition(rs[1..]);
    }
  }

  /** `[...results].reverse().find((x) => !x.ok)`: the last failure. */
  function LastFailed(rs: seq<ItemResult>): (r: Option<ItemResult>)
    ensures r.None? <==> forall k :: 0 <= k < |rs| ==> rs[k].ok
    ensures r.Some? ==> exists k :: 0 <= k < |rs| && rs[k] == r.value && !rs[k].ok
                                    && forall j :: k < j < |rs| ==> rs[j].ok
  {
    if rs == [] then None
    else if !rs[|rs| - 1].ok then Some(rs[|rs| - 1])
    else
      var r := LastFailed(rs[..|rs| - 1]);
      LastFailedExtend(rs, r);
      r
  }

  /** What holds of the last failure before an `ok` result holds with that result appended. */
  lemma LastFailedExtend(rs: seq<ItemResult>, r: Option<ItemResult>)
    requires rs != [] && rs[|rs| - 1].ok
    requires var p := rs[..|rs| - 1];
      (r.None? <==> forall k :: 0 <= k < |p| ==> p[k].ok)
      && (r.Some? ==> exists k :: 0 <= k < |p| && p[k] == r.value && !p[k].ok && forall j :: k < j < |p| ==> p[j].ok)
    ensures r.None? <==> forall k :: 0 <= k < |rs| ==> rs[k].ok
    ensures r.Some? ==> exists k :: 0 <= k < |rs| && rs[k] == r.value && !rs[k].ok
                                    && forall j :: k < j < |rs| ==> rs[j].ok
  {
    var p := rs[..|rs| - 1];
    if r.Some? {
      var k :| 0 <= k < |p| && p[k] == r.value && !p[k].ok && forall j :: k < j < |p| ==> p[j].ok;
      assert rs[k] == p[k];
      forall j | k < j < |rs| ensures rs[j].ok {
        if j < |p| {
          assert rs[j] == p[j];
        }
      }
    } else {
      forall k | 0 <= k < |rs| ensures rs[k].ok {
        if k < |p| {
          assert rs[k] == p[k];
        }
      }
    }
  }

  /** `lastError`: `{ id, status, reason }` of the last failure. */
  datatype LastError = LastError(id: string, status: int, reason: Option<string>)

  /** The JSON summary; the `debug` query parameter shows `results` instead of `lastError`. */
  datatype Summary = Summary(
    sent: nat, failed: nat, skipped: nat, total: nat,
    results: seq<ItemResult>, lastError: Option<LastError>)

  function ToLastError(r: Option<ItemResult>): Option<LastError> {
    match r
    case None => None
    case Some(x) => Some(LastError(x.id, x.status, x.reason))
  }

  /** `POST /api/guests/send-all-whatsapp` over the guest list `guests`. */
  method SendAll(send: Endpoint, guests: seq<Guest>) returns (s: Summary)
    ensures s.results == Results(send, Candidates(guests))
    ensures s.sent == CountOk(s.results) && s.failed == CountFailed(s.results)
    ensures s.skipped == |guests| - |Candidates(guests)| && s.total == |guests|
    ensures s.sent + s.failed + s.skipped == s.total
    ensures s.lastError == ToLastError(LastFailed(s.results))
  {
    var candidates := Candidates(guests);
    var results: seq<ItemResult> := [];
    var i := 0;
    while i < |candidates|
      invariant 0 <= i <= |candidates|
      invariant results == Results(send, candidates[..i])
    {
      var g := candidates[i];
      var r, _ := CallOne(send, g.id);
      if r.ok {
        results := results + [ItemResult(g.id, true, r.status, None)];
      } else {
        results := results + [ItemResult(g.id, false, r.status, r.reason)];
      }
      assert candidates[..i + 1] == candidates[..i] + [g];
      i := i + 1;
    }
    assert candidates[..i] == candidates;
    CountsPartition(results);
    var sent := CountOk(results);
    var failed := CountFailed(results);
    var skipped := |guests| - |candidates|;
    s := Summary(sent, failed, skipped, |guests|, results, ToLastError(LastFailed(results)));
  }

  /**
   * Isolation: over [eligible and accepted, ineligible, eligible and always
   * refused] the summary is one sent, one failed, one skipped, three in all.
   */
  lemma OneOfEach(send: Endpoint, a: Guest, b: Guest, c: Guest)
    requires Eligible(a) && !Eligible(b) && Eligible(c)
    requires IsSuccess(send(a.id, 1).status)
    requires forall n :: !IsSuccess(send(c.id, n).status)
    ensures var rs := Results(send, Candidates([a, b, c]));
            CountOk(rs) == 1 && CountFailed(rs) == 1 && 3 - |Candidates([a, b, c])| == 1
            && LastFailed(rs).Some? && LastFailed(rs).value.id == c.id
  {
    var cs := Candidates([a, b, c]);
    assert Candidates([c]) == [c] by { assert [c][1..] == []; }
    assert Candidates([b, c]) == [c] by { assert [b, c][1..] == [c]; }
    assert cs == [a, c] by { assert [a, b, c][1..] == [b, c]; }
    var rs := Results(send, cs);
    assert !IsSuccess(send(c.id, 1).status) && !IsSuccess(send(c.id, 2).status);
    assert rs[0].ok && !rs[1].ok;
    assert rs[1..] == [rs[1]];
    assert rs[1..][1..] == [];
    assert CountOk(rs[1..]) == 0 && CountFailed(rs[1..]) == 1;
    assert CountOk(rs) == 1 + CountOk(rs[1..]);
    assert CountFailed(rs) == 0 + CountFailed(rs[1..]);
  }
}
