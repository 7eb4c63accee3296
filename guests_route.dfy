/**
 * The collection route of app/api/guests/route.ts: `GET` lists every guest,
 * newest first; `POST` validates one guest, refuses an email already
 * stored, and creates the guest with a signed token before sending the
 * invite email.
 */
module GuestsRoute {
  import opened Wrappers
  import opened Text
  import opened Sign
  import opened Store
  import CheckinRoute

  /** Every guest is at least as new as the ones after it. */
  predicate NewestFirst(s: seq<Guest>) {
    forall i, j :: 0 <= i < j < |s| ==> s[i].createdAt >= s[j].createdAt
  }

  /** `g` placed into the newest-first list `s`. */
  function InsertNewestFirst(g: Guest, s: seq<Guest>): (r: seq<Guest>)
    requires NewestFirst(s)
    ensures NewestFirst(r)
    ensures multiset(r) == multiset(s) + multiset{g}
    ensures |r| == |s| + 1
    ensures forall k :: 0 <= k < |r| ==> r[k] == g || r[k] in s
  {
    if s == [] || g.createdAt >= s[0].createdAt then
      ConsNewestFirst(g, s);
      [g] + s
    else
      var rest := InsertNewestFirst(g, s[1..]);
      assert s == [s[0]] + s[1..];
      InsertedBelowHead(g, s, rest);
      ConsNewestFirst(s[0], rest);
      [s[0]] + rest
  }

  /** What is inserted behind the head of a newest-first list is not newer than the head. */
  lemma InsertedBelowHead(g: Guest, s: seq<Guest>, rest: seq<Guest>)
    requires NewestFirst(s) && s != [] && g.createdAt < s[0].createdAt
    requires forall k :: 0 <= k < |rest| ==> rest[k] == g || rest[k] in s[1..]
    ensures forall k :: 0 <= k < |rest| ==> rest[k].createdAt <= s[0].createdAt
  {
    forall k | 0 <= k < |rest| ensures rest[k].createdAt <= s[0].createdAt {
      if rest[k] != g {
        var j :| 0 <= j < |s| - 1 && s[1..][j] == rest[k];
        assert s[j + 1] == rest[k];
      }
    }
  }

  /** A guest at least as new as every guest of a newest-first list can go in front of it. */
  lemma ConsNewestFirst(x: Guest, s: seq<Guest>)
    requires NewestFirst(s)
    requires forall k :: 0 <= k < |s| ==> s[k].createdAt <= x.createdAt
    ensures NewestFirst([x] + s)
    ensures forall k :: 1 <= k < |s| + 1 ==> ([x] + s)[k] == s[k - 1]
  {
  }

  /** `orderBy("createdAt", "desc")`: the same guests, newest first. */
  function NewestFirstOrder(docs: seq<Guest>): (r: seq<Guest>)
    ensures NewestFirst(r)
    ensures multiset(r) == multiset(docs)
    ensures |r| == |docs|
  {
    if docs == [] then []
    else
      assert docs == [docs[0]] + docs[1..];
      InsertNewestFirst(docs[0], NewestFirstOrder(docs[1..]))
  }

  /** `GET /api/guests`: every stored guest, with its id, newest first. */
  method Get(store: GuestStore) returns (guests: seq<Guest>)
    ensures NewestFirst(guests)
    ensures multiset(guests) == multiset(store.docs)
  {
    guests := NewestFirstOrder(store.docs);
  }

  /** A request body; fields absent from the JSON are `None`. */
  datatype Input = Input(
    fullName: Option<string>,
    email: Option<string>,
    whatsapp: Option<string>,
    category: Option<string>,
    phone: Option<string>,
    org: Option<string>,
    role: Option<string>)

  /** The request schema: a string name of at least two UTF-16 code units and a string that is a valid email; the optional fields are not checked here. */
  predicate Accepted(body: Input, isEmail: string -> bool) {
    body.fullName.Some? && Utf16Length(body.fullName.value) >= 2 && body.email.Some? && isEmail(body.email.value)
  }

  /**
   * The name length is JavaScript's: one character outside the Basic
   * Multilingual Plane is two code units, so it alone meets the minimum.
   */
  lemma AstralNameAccepted(email: string, isEmail: string -> bool)
    requires isEmail(email)
    ensures |"\U{1F600}"| == 1
    ensures Accepted(Input(Some("\U{1F600}"), Some(email), None, None, None, None, None), isEmail)
  {
    assert Utf16Length("\U{1F600}") == 2;
  }

  /** What the invite email call does: it returns, or it throws with a message. */
  datatype Mail = Sent | MailError(message: string)

  /** The message of the 400 response when the invite email throws. */
  const CreateFailed: string := "Erro ao criar convidado."

  datatype Response =
    | Invalid                    // 400, the schema's message
    | Duplicate                  // 409 "Já existe um convidado com este e-mail."
    | Created(guest: Guest)      // 200 { id, ...guest }
    | MailFailed(message: string) // 400 { error: message }; the guest is stored

  /** The new guest document for the id `id`: the given name, the lowercased email, the optional fields or null, invited now, not checked in, and a token signed over the id and the email as given. */
  function NewRecord(signer: Signer, id: string, body: Input, now: int): (g: Guest)
    requires body.fullName.Some? && body.email.Some?
    ensures g.id == id && g.fullName == body.fullName.value && g.email == Lower(body.email.value)
    ensures g.status == Invited && g.checkInAt == None && CheckInConsistent(g)
    ensures g.createdAt == now && g.updatedAt == now && g.inviteSentAt == Some(now)
    // absent or empty optional fields are stored as null
    ensures g.whatsapp.Some? <==> Present(body.whatsapp)
    ensures g.category.Some? <==> Present(body.category)
    ensures g.phone.Some? <==> Present(body.phone)
    ensures g.org.Some? <==> Present(body.org)
    ensures g.role.Some? <==> Present(body.role)
  {
    Guest(id, body.fullName.value, Lower(body.email.value),
          OrNull(body.whatsapp), OrNull(body.category), OrNull(body.phone), OrNull(body.org), OrNull(body.role),
          Invited, now, now, None, Some(now), SignToken(signer, id, body.email.value))
  }

  /**
   * The token is signed over the email as given and equals the token for the
   * stored, lowercased email, so it verifies against the stored record.
   */
  lemma NewRecordTokenVerifies(signer: Signer, id: string, body: Input, now: int)
    requires body.fullName.Some? && body.email.Some?
    ensures var g := NewRecord(signer, id, body, now);
            g.token == SignToken(signer, id, g.email)
            && (id != "" && '.' !in id ==> VerifyToken(signer, g.token, g.email) == Verdict(true, Some(id)))
  {
    var g := NewRecord(signer, id, body, now);
    LowerIdempotent(body.email.value);
    SignTokenIgnoresEmailCase(signer, id, body.email.value, g.email);
    if id != "" && '.' !in id {
      VerifySigned(signer, id, g.email, g.email);
    }
  }

  /** One `POST /api/guests` on the collection `docs`: the response and the collection afterwards. */
  function Create(signer: Signer, isEmail: string -> bool, docs: seq<Guest>, body: Input, id: string, now: int, mail: Mail)
    : (r: (Response, seq<Guest>))
    // a body the schema rejects writes nothing
    ensures !Accepted(body, isEmail) <==> r.0 == Invalid
    ensures r.0 == Invalid ==> r.1 == docs
    // a stored email, in any letter case, is refused and nothing is written
    ensures r.0 == Duplicate <==> Accepted(body, isEmail) && Lower(body.email.value) in Emails(docs)
    ensures r.0 == Duplicate ==> r.1 == docs
    // otherwise exactly one write stores the new record, whether or not the invite email then fails
    ensures (r.0.Created? || r.0.MailFailed?) ==>
      r.1 == Upsert(docs, NewRecord(signer, id, body, now)) && Lower(body.email.value) in Emails(r.1)
    ensures r.0.Created? <==> Accepted(body, isEmail) && Lower(body.email.value) !in Emails(docs) && mail == Sent
    ensures r.0.Created? ==> r.0.guest == NewRecord(signer, id, body, now)
    ensures r.0.MailFailed? ==> r.0.message == if mail.message != "" then mail.message else CreateFailed
  {
    if !Accepted(body, isEmail) then (Invalid, docs)
    else
      var email := Lower(body.email.value);
      match FirstWithEmail(docs, email)
      case Some(k) =>
        assert docs[k] in docs;
        (Duplicate, docs)
      case None =>
        assert email !in Emails(docs);
        var g := NewRecord(signer, id, body, now);
        var d := Upsert(docs, g);
        assert g.email in Emails(d);
        match mail
        case Sent => (Created(g), d)
        case MailError(m) => (MailFailed(if m != "" then m else CreateFailed), d)
  }

  /** `POST /api/guests` against the store, with `id` the new document's id and `mail` the invite email's outcome. */
  method Post(signer: Signer, isEmail: string -> bool, store: GuestStore, body: Input, id: string, now: int, mail: Mail)
    returns (resp: Response)
    requires store.Valid()
    modifies store
    ensures store.Valid()
    ensures (resp, store.docs) == Create(signer, isEmail, old(store.docs), body, id, now, mail)
    ensures store.writes == old(store.writes) + (if resp.Created? || resp.MailFailed? then 1 else 0)
  {
    if !Accepted(body, isEmail) {
      return Invalid;
    }
    var dup := FirstWithEmail(store.docs, Lower(body.email.value));
    if dup.Some? {
      return Duplicate;
    }
    var guest := NewRecord(signer, id, body, now);
    store.Set(guest);
    match mail {
      case Sent =>
        resp := Created(guest);
      case MailError(m) =>
        resp := MailFailed(if m != "" then m else CreateFailed);
    }
  }

  /** Creating a guest keeps emails unique, provided the new id is not in use. */
  lemma CreateKeepsEmailsUnique(signer: Signer, isEmail: string -> bool, docs: seq<Guest>, body: Input, id: string, now: int, mail: Mail)
    requires UniqueEmails(docs) && id !in Ids(docs)
    ensures UniqueEmails(Create(signer, isEmail, docs, body, id, now, mail).1)
  {
    var r := Create(signer, isEmail, docs, body, id, now, mail);
    if r.0.Created? || r.0.MailFailed? {
      var g := NewRecord(signer, id, body, now);
      assert IndexOfId(docs, id).None?;
      assert r.1 == docs + [g];
      forall j | 0 <= j < |docs| ensures docs[j].email != g.email {
        assert docs[j] in docs;
      }
    }
  }

  /** A second creation with the same email, in any letter case, is refused and writes nothing. */
  lemma SecondCreateIsDuplicate(signer: Signer, isEmail: string -> bool, docs: seq<Guest>, body: Input, id: string, now: int, mail: Mail,
                                body2: Input, id2: string, now2: int, mail2: Mail)
    requires Create(signer, isEmail, docs, body, id, now, mail).0 !in {Invalid, Duplicate}
    requires Accepted(body2, isEmail) && Lower(body2.email.value) == Lower(body.email.value)
    ensures var d := Create(signer, isEmail, docs, body, id, now, mail).1;
            Create(signer, isEmail, d, body2, id2, now2, mail2) == (Duplicate, d)
  {
  }

  /**
   * A newly created guest (with a fresh id free of `.`, and a token no stored
   * guest holds) is checked in by the first scan of its token.
   */
  lemma CreatedGuestChecksIn(signer: Signer, isEmail: string -> bool, docs: seq<Guest>, body: Input, id: string, now: int, mail: Mail, later: int)
    requires Create(signer, isEmail, docs, body, id, now, mail).0 !in {Invalid, Duplicate}
    requires id != "" && '.' !in id && id !in Ids(docs)
    requires forall j :: 0 <= j < |docs| ==> docs[j].token != NewRecord(signer, id, body, now).token
    ensures var d := Create(signer, isEmail, docs, body, id, now, mail).1;
            CheckinRoute.Step(signer, d, Some(NewRecord(signer, id, body, now).token), later).0
              == CheckinRoute.CheckedInNow(id, later)
  {
    var g := NewRecord(signer, id, body, now);
    var d := Create(signer, isEmail, docs, body, id, now, mail).1;
    assert IndexOfId(docs, id).None?;
    assert d == docs + [g];
    assert d[|docs|] == g && g.status != CheckedIn;
    assert forall j :: 0 <= j < |docs| ==> d[j].token != g.token;
    NewRecordTokenVerifies(signer, id, body, now);
    CheckinRoute.IssuedTokenAccepted(signer, d, |docs|, later);
  }
}
