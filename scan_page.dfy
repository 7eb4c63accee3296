/**
 * The check-in scanner of app/scan/page.tsx: it reads a token from a scanned
 * QR code, guards against submitting the same code twice, calls the check-in
 * endpoint (POST, falling back to GET) and shows the outcome.
 *
 * The component's state is the `Scanner` class; each of its methods is
 * proved equal to a pure transition on `View`, and the guard's properties
 * are lemmas over those transitions. URL parsing, JSON parsing, the locale
 * clock formatting and the network are oracles passed in.
 */
module ScanPage {
  import opened Wrappers
  import opened Text

  /** What `new URL(raw).searchParams.get("token")` gives: `None` when `raw` is not an absolute URL. */
  type UrlToken = string -> Option<Option<string>>

  /** `raw` parses as a URL with a non-empty `token` parameter. */
  predicate HasUrlToken(raw: string, urlToken: UrlToken) {
    urlToken(raw).Some? && Present(urlToken(raw).value)
  }

  /** `extractToken(raw)`. */
  function ExtractToken(raw: string, urlToken: UrlToken): (r: Option<string>)
    // a token is never empty
    ensures r.Some? ==> r.value != ""
    // the `token` parameter of a URL wins
    ensures HasUrlToken(raw, urlToken) ==> r == urlToken(raw).value
    // anything else is the trimmed text, or nothing when that is blank
    ensures !HasUrlToken(raw, urlToken) ==> (r.None? <==> AllSpace(raw))
    ensures !HasUrlToken(raw, urlToken) && r.Some? ==> r.value == Trim(raw)
  {
    if HasUrlToken(raw, urlToken) then urlToken(raw).value
    else
      var t := Trim(raw);
      if t != "" then Some(t) else None
  }

  /** A token printed bare in the QR code, without surrounding spaces, is read back unchanged. */
  lemma BareTokenRead(token: string, urlToken: UrlToken)
    requires !HasUrlToken(token, urlToken)
    requires token != "" && !IsSpace(token[0]) && !IsSpace(token[|token| - 1])
    ensures ExtractToken(token, urlToken) == Some(token)
  {
    assert TrimStart(token) == token;
    assert TrimEnd(token) == token;
  }

  datatype Status = Idle | Loading | Succeeded | Failed

  const InvalidQr: string := "QR inválido. Tenta novamente."
  const NetworkFailure: string := "Erro de rede. Verifica a ligação e tenta novamente."
  const NotRecorded: string := "Não foi possível registar a presença."
  const Confirmed: string := "Presença confirmada!"

  /** The component's state: its React state and its two refs. */
  datatype View = View(
    result: string,
    status: Status,
    msg: string,
    guestName: string,
    guestCategory: string,
    when: string,
    lastToken: Option<string>,
    locked: bool)

  const Initial: View := View("", Idle, "", "", "", "", None, false)

  /** The last token is being checked in or was checked in. */
  predicate Repeats(s: View, token: string) {
    s.lastToken == Some(token) && (s.status == Loading || s.status == Succeeded)
  }

  /**
   * `onScan(detected)`, up to the first await of `checkIn`: the new state and
   * the token handed to the check-in request, if any.
   */
  function Scan(s: View, detected: seq<string>, urlToken: UrlToken): (r: (View, Option<string>))
    // nothing is read while locked or when nothing was detected
    ensures detected == [] || s.locked ==> r == (s, None)
    // an unreadable code is an error that takes no lock
    ensures detected != [] && !s.locked && ExtractToken(detected[0], urlToken).None? ==>
      r == (s.(result := detected[0], status := Failed, msg := InvalidQr), None)
    // the token just checked in, or still being checked in, is not sent again
    ensures detected != [] && !s.locked && ExtractToken(detected[0], urlToken).Some?
            && Repeats(s, ExtractToken(detected[0], urlToken).value) ==>
      r == (s.(result := detected[0]), None)
    // a request is made only from an unlocked state, for the token read, and takes the lock
    ensures r.1.Some? <==>
      (detected != [] && !s.locked && ExtractToken(detected[0], urlToken).Some?
       && !Repeats(s, ExtractToken(detected[0], urlToken).value))
    ensures r.1.Some? ==>
      r.1 == ExtractToken(detected[0], urlToken) && r.0.locked && r.0.lastToken == r.1
      && r.0.status == Loading && r.0.msg == "" && r.0.guestName == "" && r.0.when == ""
      && r.0.result == detected[0] && r.0.guestCategory == s.guestCategory
  {
    if detected == [] || s.locked then (s, None)
    else ScanCode(s, detected[0], ExtractToken(detected[0], urlToken))
  }

  /** What an unlocked scanner does with the code `raw`, whose token (if any) is `token`. */
  function ScanCode(s: View, raw: string, token: Option<string>): (View, Option<string>) {
    var s1 := s.(result := raw);
    match token
    case None => (s1.(status := Failed, msg := InvalidQr), None)
    case Some(t) =>
      if Repeats(s, t) then (s1, None)
      else (s1.(lastToken := token, locked := true, status := Loading, msg := "", guestName := "", when := ""), token)
  }

  /* ---------- the check-in request ---------- */

  /** The fields of a JSON answer the scanner reads; a field that is absent or not a string is `None`. */
  datatype Json = Json(
    error: Option<string>,
    message: Option<string>,
    guestName: Option<string>,
    guestCategory: Option<string>,
    checkInAt: Option<int>)

  datatype Body = RawText | Parsed(json: Json)

  datatype Reply = Reply(status: int, contentType: string, text: string)

  /** A `fetch` that answered, or one that threw (network failure). */
  datatype Fetched = Answered(reply: Reply) | NetworkError

  /** `JSON.parse`, `None` when it throws. */
  type JsonParser = string -> Option<Json>

  /** `parseResponse`: JSON only for a JSON content type, a non-empty body and a successful parse. */
  function ParseBody(r: Reply, parse: JsonParser): (b: Body)
    ensures b.Parsed? <==> Contains(r.contentType, "application/json") && r.text != "" && parse(r.text).Some?
    ensures b.Parsed? ==> b.json == parse(r.text).value
  {
    if Contains(r.contentType, "application/json") && r.text != "" then
      match parse(r.text)
      case Some(j) => Parsed(j)
      case None => RawText
    else RawText
  }

  /** `r.ok`. */
  predicate HttpOk(status: int) {
    200 <= status <= 299
  }

  /** The statuses after which the POST is retried as a GET. */
  predicate FallsBack(status: int) {
    status == 404 || status == 405
  }

  datatype Resolution =
    | Failure(message: string)
    | Success(guestName: string, guestCategory: string, when: string, message: string)

  /** The message of a failed answer: its `error`, else its string `message`, else a default. */
  function ErrorText(j: Json): (m: string)
    ensures m != ""
    ensures Present(j.error) ==> m == j.error.value
    ensures !Present(j.error) && Present(j.message) ==> m == j.message.value
    ensures !Present(j.error) && !Present(j.message) ==> m == NotRecorded
  {
    Or(j.error, OrNull(j.message)).GetOr(NotRecorded)
  }

  /** What one answer means; `locale` is `toLocaleString` and `now` the clock. */
  function Answer(r: Reply, parse: JsonParser, locale: int -> string, now: int): (res: Resolution)
    ensures res.Success? <==> HttpOk(r.status)
    // something is always shown
    ensures res.message != ""
    ensures res.Failure? && ParseBody(r, parse).Parsed? ==> res.message == ErrorText(ParseBody(r, parse).json)
    ensures res.Failure? && ParseBody(r, parse).RawText? ==> res.message == NotRecorded
    // a success without a readable body still confirms, stamped with the current time
    ensures res.Success? && ParseBody(r, parse).RawText? ==> res == Success("", "", locale(now), Confirmed)
    ensures res.Success? && ParseBody(r, parse).Parsed? ==>
      var j := ParseBody(r, parse).json;
      res.guestName == j.guestName.GetOr("") && res.guestCategory == j.guestCategory.GetOr("")
      && res.message == (if Present(j.message) then j.message.value else Confirmed)
      && (j.checkInAt.Some? && j.checkInAt.value != 0 ==> res.when == locale(j.checkInAt.value))
      && (j.checkInAt.None? || j.checkInAt.value == 0 ==> res.when == locale(now))
  {
    var body := ParseBody(r, parse);
    if !HttpOk(r.status) then
      match body
      case RawText => Failure(NotRecorded)
      case Parsed(j) => Failure(ErrorText(j))
    else
      match body
      case RawText => Success("", "", locale(now), Confirmed)
      case Parsed(j) =>
        var when := if j.checkInAt.Some? && j.checkInAt.value != 0 then locale(j.checkInAt.value) else locale(now);
        Success(j.guestName.GetOr(""), j.guestCategory.GetOr(""), when, if Present(j.message) then j.message.value else Confirmed)
  }

  /** The outcome of `checkIn` given what the POST and the fallback GET answer. */
  function Resolve(post: Fetched, get: Fetched, parse: JsonParser, locale: int -> string, now: int): (res: Resolution)
    ensures res.message != ""
    // the guest is shown as checked in exactly when the last request made answered 2xx
    ensures res.Success? <==>
      (post.Answered? &&
       if FallsBack(post.reply.status) then get.Answered? && HttpOk(get.reply.status)
       else HttpOk(post.reply.status))
    // a network failure on either request gives the network message
    ensures post.NetworkError? || (FallsBack(post.reply.status) && get.NetworkError?) ==>
      res == Failure(NetworkFailure)
  {
    match post
    case NetworkError => Failure(NetworkFailure)
    case Answered(r) =>
      if FallsBack(r.status) then
        match get
        case NetworkError => Failure(NetworkFailure)
        case Answered(r2) => Answer(r2, parse, locale, now)
      else Answer(r, parse, locale, now)
  }

  /** The GET is consulted only after a 404 or 405 answer to the POST. */
  lemma GetOnlyAfterFallback(post: Fetched, get1: Fetched, get2: Fetched, parse: JsonParser, locale: int -> string, now: int)
    requires post.NetworkError? || !FallsBack(post.reply.status)
    ensures Resolve(post, get1, parse, locale, now) == Resolve(post, get2, parse, locale, now)
    ensures post.Answered? ==> Resolve(post, get1, parse, locale, now) == Answer(post.reply, parse, locale, now)
  {
  }

  /** The rest of `checkIn`, after its awaits; the lock is kept. */
  function Settle(s: View, res: Resolution): (r: View)
    ensures r.locked == s.locked && r.lastToken == s.lastToken && r.result == s.result
    ensures r.status == (if res.Success? then Succeeded else Failed) && r.msg == res.message
    // a failure leaves the name and time cleared by the start of the request
    ensures res.Failure? ==> r == s.(status := Failed, msg := res.message)
    ensures res.Success? ==>
      r.guestName == res.guestName && r.guestCategory == res.guestCategory && r.when == res.when
  {
    match res
    case Failure(m) => s.(status := Failed, msg := m)
    case Success(name, category, when, m) =>
      s.(guestName := name, when := when, guestCategory := category, status := Succeeded, msg := m)
  }

  /** The timer that follows every request: it only releases the lock. */
  function Unlock(s: View): (r: View)
    ensures !r.locked && r == s.(locked := false)
  {
    s.(locked := false)
  }

  /* ---------- the guard across scans ---------- */

  /** While a request is in flight, no other scan sends one. */
  lemma LockedScanSendsNothing(s: View, first: seq<string>, next: seq<string>, urlToken: UrlToken)
    requires Scan(s, first, urlToken).1.Some?
    ensures Scan(Scan(s, first, urlToken).0, next, urlToken).1.None?
  {
  }

  /** Once a code is checked in, scanning it again after the lock lapses sends nothing. */
  lemma CheckedInCodeNotResent(s: View, detected: seq<string>, urlToken: UrlToken, res: Resolution)
    requires Scan(s, detected, urlToken).1.Some? && res.Success?
    ensures var after := Unlock(Settle(Scan(s, detected, urlToken).0, res));
            Scan(after, detected, urlToken).1.None? && !after.locked
  {
    var token := Scan(s, detected, urlToken).1.value;
    var after := Unlock(Settle(Scan(s, detected, urlToken).0, res));
    assert Repeats(after, token);
  }

  /** A code whose check-in failed is sent again when scanned after the lock lapses. */
  lemma FailedCodeRetried(s: View, detected: seq<string>, urlToken: UrlToken, res: Resolution)
    requires Scan(s, detected, urlToken).1.Some? && res.Failure?
    ensures var after := Unlock(Settle(Scan(s, detected, urlToken).0, res));
            Scan(after, detected, urlToken).1 == Scan(s, detected, urlToken).1
  {
    var token := Scan(s, detected, urlToken).1.value;
    var after := Unlock(Settle(Scan(s, detected, urlToken).0, res));
    assert !Repeats(after, token);
  }

  /** After a reset any readable code is sent, even the one just checked in. */
  lemma ResetReadmitsAll(detected: seq<string>, urlToken: UrlToken)
    requires detected != []
    ensures Scan(Initial, detected, urlToken).1 == ExtractToken(detected[0], urlToken)
  {
  }

  /* ---------- the component ---------- */

  class Scanner {
    var result: string
    var status: Status
    var msg: string
    var guestName: string
    var guestCategory: string
    var when: string
    var lastToken: Option<string>
    var locked: bool
    /** The tokens sent to the check-in endpoint, oldest first. */
    ghost var sent: seq<string>

    function State(): View
      reads this
    {
      View(result, status, msg, guestName, guestCategory, when, lastToken, locked)
    }

    constructor()
      ensures State() == Initial && sent == []
    {
      result, status, msg, guestName, guestCategory, when := "", Idle, "", "", "", "";
      lastToken, locked := None, false;
      sent := [];
    }

    /** `reset`. */
    method Reset()
      modifies this
      ensures State() == Initial && sent == old(sent)
    {
      result := "";
      status := Idle;
      msg := "";
      guestName := "";
      guestCategory := "";
      when := "";
      lastToken := None;
      locked := false;
    }

    /** `onScan(detected)`, up to the first await of `checkIn(token)`, whose token it returns. */
    method OnScan(detected: seq<string>, urlToken: UrlToken) returns (request: Option<string>)
      modifies this
      ensures (State(), request) == Scan(old(State()), detected, urlToken)
      ensures sent == old(sent) + (if request.Some? then [request.value] else [])
    {
      request := None;
      if detected == [] || locked {
        return;
      }
      ghost var s0 := State();
      var raw := detected[0];
      var token := ExtractToken(raw, urlToken);
      result := raw;
      if token.None? {
        status := Failed;
        msg := InvalidQr;
        assert State() == s0.(result := raw, status := Failed, msg := InvalidQr);
        return;
      }
      if lastToken == token && (status == Loading || status == Succeeded) {
        assert Repeats(s0, token.value);
        assert State() == s0.(result := raw);
        return;
      }
      assert !Repeats(s0, token.value);
      lastToken := token;
      locked := true;
      // the synchronous start of `checkIn`
      status := Loading;
      msg := "";
      guestName := "";
      when := "";
      request := token;
      sent := sent + [token.value];
      assert (State(), request) == ScanCode(s0, raw, token);
    }

    /** The rest of `checkIn`, once the POST (and the GET, after a 404 or 405) has answered or failed. */
    method Complete(post: Fetched, get: Fetched, parse: JsonParser, locale: int -> string, now: int)
      modifies this
      ensures State() == Settle(old(State()), Resolve(post, get, parse, locale, now))
      ensures sent == old(sent)
    {
      var reply: Reply;
      match post {
        case NetworkError =>
          status := Failed;
          msg := NetworkFailure;
          return;
        case Answered(r) =>
          reply := r;
      }
      if FallsBack(reply.status) {
        match get {
          case NetworkError =>
            status := Failed;
            msg := NetworkFailure;
            return;
          case Answered(r2) =>
            reply := r2;
        }
      }
      var body := ParseBody(reply, parse);
      if !HttpOk(reply.status) {
        status := Failed;
        msg := if body.Parsed? then ErrorText(body.json) else NotRecorded;
        return;
      }
      var res := Answer(reply, parse, locale, now);
      guestName := res.guestName;
      when := res.when;
      guestCategory := res.guestCategory;
      status := Succeeded;
      msg := res.message;
    }

    /** The 1.2-second timer started when a request settles. */
    method Release()
      modifies this
      ensures State() == Unlock(old(State())) && sent == old(sent)
    {
      locked := false;
    }
  }
}
