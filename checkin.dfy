/**
 * The check-in route of app/api/checkin/route.ts: given the token from the
 * request body, find the guest holding it, re-verify the signature against the
 * stored email, and mark the guest checked in once.
 */
module CheckinRoute {
  import opened Wrappers
  import opened Text
  import opened Sign
  import opened Store

  /** The responses of the route. */
  datatype Outcome =
    | MissingToken                                  // 400 "Token em falta."
    | NotFound                                      // 404 no guest holds the token
    | BadSignature                                  // 403 signature does not match the stored email
    | AlreadyCheckedIn(id: string, guest: Guest)    // 200 { ok, already: true, id, guest }
    | CheckedInNow(id: string, checkInAt: int)      // 200 { ok, id, checkInAt }

  function HttpStatus(o: Outcome): int {
    match o
    case MissingToken => 400
    case NotFound => 404
    case BadSignature => 403
    case AlreadyCheckedIn(_, _) => 200
    case CheckedInNow(_, _) => 200
  }

  /** The check-in update: status, check-in time and update time, nothing else. */
  function MarkCheckedIn(g: Guest, now: int): (r: Guest)
    ensures r.status == CheckedIn && r.checkInAt == Some(now) && r.updatedAt == now
    ensures r.(status := g.status, checkInAt := g.checkInAt, updatedAt := g.updatedAt) == g
  {
    g.(status := CheckedIn, checkInAt := Some(now), updatedAt := now)
  }

  /**
   * One call of the route on the collection `docs` at time `now`: the
   * response and the collection afterwards.
   */
  function Step(signer: Signer, docs: seq<Guest>, token: Option<string>, now: int): (r: (Outcome, seq<Guest>))
    // 400, without lookup or write, exactly when the token is absent or empty
    ensures r.0 == MissingToken <==> !Present(token)
    // 404 exactly when a token is given and no stored record holds it
    ensures r.0 == NotFound <==> Present(token) && forall j :: 0 <= j < |docs| ==> docs[j].token != token.value
    // 403 exactly when the first record holding the token fails verification against its own email
    ensures r.0 == BadSignature <==>
      (Present(token) && FirstWithToken(docs, token.value).Some?
       && !VerifyToken(signer, token.value, docs[FirstWithToken(docs, token.value).value].email).ok)
    // only a first check-in writes
    ensures !r.0.CheckedInNow? ==> r.1 == docs
    // past the signature check, the first record holding the token decides, by its status alone
    ensures Present(token) && FirstWithToken(docs, token.value).Some? ==>
      var i := FirstWithToken(docs, token.value).value;
      && (r.0.AlreadyCheckedIn? <==> VerifyToken(signer, token.value, docs[i].email).ok && docs[i].status == CheckedIn)
      && (r.0.CheckedInNow? <==> VerifyToken(signer, token.value, docs[i].email).ok && docs[i].status != CheckedIn)
      // the guest reported is that record, as stored
      && (r.0.AlreadyCheckedIn? ==> r.0.id == docs[i].id && r.0.guest == docs[i])
      // a first check-in changes exactly that record, at `now`
      && (r.0.CheckedInNow? ==>
            r.0.id == docs[i].id && r.0.checkInAt == now && r.1 == docs[i := MarkCheckedIn(docs[i], now)])
  {
    if !Present(token) then (MissingToken, docs)
    else
      match FirstWithToken(docs, token.value)
      case None => (NotFound, docs)
      case Some(i) =>
        var g := docs[i];
        if !VerifyToken(signer, token.value, g.email).ok then (BadSignature, docs)
        else if g.status == CheckedIn then (AlreadyCheckedIn(g.id, g), docs)
        else (CheckedInNow(g.id, now), docs[i := MarkCheckedIn(g, now)])
  }

  /** `POST /api/checkin` with body `{ token }`, against the store, at time `now`. */
  method Post(signer: Signer, store: GuestStore, token: Option<string>, now: int) returns (out: Outcome)
    requires store.Valid()
    modifies store
    ensures store.Valid()
    ensures (out, store.docs) == Step(signer, old(store.docs), token, now)
    ensures store.writes == old(store.writes) + (if out.CheckedInNow? then 1 else 0)
  {
    if !Present(token) {
      return MissingToken;
    }
    var found := FirstWithToken(store.docs, token.value);
    if found.None? {
      return NotFound;
    }
    var i := found.value;
    var g := store.docs[i];
    var ok := VerifyToken(signer, token.value, g.email).ok;
    if !ok {
      return BadSignature;
    }
    if g.status == CheckedIn {
      return AlreadyCheckedIn(g.id, g);
    }
    store.UpdateAt(i, MarkCheckedIn(g, now));
    out := CheckedInNow(g.id, now);
  }

  /**
   * Idempotence: after a first check-in, the same token again reports the
   * already-checked-in outcome for the same guest, writes nothing, and the
   * recorded time is still the first call's.
   */
  lemma CheckinIdempotent(signer: Signer, docs: seq<Guest>, token: Option<string>, now1: int, now2: int)
    requires Step(signer, docs, token, now1).0.CheckedInNow?
    ensures var (o1, d1) := Step(signer, docs, token, now1);
            var (o2, d2) := Step(signer, d1, token, now2);
            o2.AlreadyCheckedIn? && o2.id == o1.id && d2 == d1
            && o2.guest.checkInAt == Some(now1) && o2.guest.status == CheckedIn
  {
    var i := FirstWithToken(docs, token.value).value;
    var d1 := Step(signer, docs, token, now1).1;
    assert d1 == docs[i := MarkCheckedIn(docs[i], now1)];
    FirstWithTokenUpdate(docs, i, MarkCheckedIn(docs[i], now1), token.value);
  }

  /** A check-in keeps every record's "check-in time iff checked in" invariant. */
  lemma StepKeepsCheckInConsistent(signer: Signer, docs: seq<Guest>, token: Option<string>, now: int)
    requires forall j :: 0 <= j < |docs| ==> CheckInConsistent(docs[j])
    ensures var d := Step(signer, docs, token, now).1;
            forall j :: 0 <= j < |d| ==> CheckInConsistent(d[j])
  {
  }

  /**
   * A token issued for a stored guest (bound to its id and stored email) is
   * accepted: the guest is checked in now, or reported as already checked in.
   */
  lemma IssuedTokenAccepted(signer: Signer, docs: seq<Guest>, i: nat, now: int)
    requires i < |docs| && docs[i].id != "" && '.' !in docs[i].id
    requires docs[i].token == SignToken(signer, docs[i].id, docs[i].email)
    requires forall j :: 0 <= j < i ==> docs[j].token != docs[i].token
    ensures var o := Step(signer, docs, Some(docs[i].token), now).0;
            o == if docs[i].status == CheckedIn then AlreadyCheckedIn(docs[i].id, docs[i])
                 else CheckedInNow(docs[i].id, now)
  {
    VerifySigned(signer, docs[i].id, docs[i].email, docs[i].email);
    assert FirstWithToken(docs, docs[i].token) == Some(i);
  }
}
