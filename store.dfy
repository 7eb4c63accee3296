/**
 * The guest record of types/guests.ts and an in-memory stand-in for the
 * `guests` collection of the document store.
 *
 * The collection is a sequence of records in the store's document order, so
 * a query with `limit(1)` returns the first matching record. Ids are unique.
 */
module Store {
  import opened Wrappers
  import opened Text

  /** `"pending" | "invited" | "checked_in" | "Enviado"`. */
  datatype Status = Pending | Invited | CheckedIn | Enviado

  /** The string stored for each status. */
  function StatusName(s: Status): string {
    match s
    case Pending => "pending"
    case Invited => "invited"
    case CheckedIn => "checked_in"
    case Enviado => "Enviado"
  }

  /**
   * A guest document. Optional fields are `None` when absent or `null`;
   * timestamps are milliseconds since the epoch.
   */
  datatype Guest = Guest(
    id: string,
    fullName: string,
    email: string,
    whatsapp: Option<string>,
    category: Option<string>,
    phone: Option<string>,
    org: Option<string>,
    role: Option<string>,
    status: Status,
    createdAt: int,
    updatedAt: int,
    checkInAt: Option<int>,
    inviteSentAt: Option<int>,
    token: string)

  /** A check-in time is recorded exactly when the guest is checked in. */
  predicate CheckInConsistent(g: Guest) {
    g.checkInAt.Some? <==> g.status == CheckedIn
  }

  predicate UniqueIds(docs: seq<Guest>) {
    forall i, j :: 0 <= i < j < |docs| ==> docs[i].id != docs[j].id
  }

  /** No two documents hold the same email. */
  predicate UniqueEmails(docs: seq<Guest>) {
    forall i, j :: 0 <= i < j < |docs| ==> docs[i].email != docs[j].email
  }

  /** The ids present in the collection. */
  function Ids(docs: seq<Guest>): set<string> {
    set g | g in docs :: g.id
  }

  /** The emails present in the collection. */
  function Emails(docs: seq<Guest>): set<string> {
    set g | g in docs :: g.email
  }

  /** The indexed fields a route queries on. */
  datatype Key = TokenKey | EmailKey

  function KeyOf(g: Guest, key: Key): string {
    match key
    case TokenKey => g.token
    case EmailKey => g.email
  }

  /** `where(key, "==", v).limit(1)`: the first document whose `key` field is `v`. */
  function FirstWhere(docs: seq<Guest>, key: Key, v: string): (r: Option<nat>)
    ensures r.Some? ==> r.value < |docs| && KeyOf(docs[r.value], key) == v
    ensures r.Some? ==> forall j :: 0 <= j < r.value ==> KeyOf(docs[j], key) != v
    ensures r.None? <==> forall j :: 0 <= j < |docs| ==> KeyOf(docs[j], key) != v
  {
    if docs == [] then None
    else if KeyOf(docs[0], key) == v then Some(0)
    else match FirstWhere(docs[1..], key, v)
      case None => None
      case Some(k) => Some(k + 1)
  }

  /** `where("token", "==", token).limit(1)`: the first document holding `token`. */
  function FirstWithToken(docs: seq<Guest>, token: string): (r: Option<nat>)
    ensures r.Some? ==> r.value < |docs| && docs[r.value].token == token
    ensures r.Some? ==> forall j :: 0 <= j < r.value ==> docs[j].token != token
    ensures r.None? <==> forall j :: 0 <= j < |docs| ==> docs[j].token != token
  {
    var r := FirstWhere(docs, TokenKey, token);
    assert forall j :: 0 <= j < |docs| ==> KeyOf(docs[j], TokenKey) == docs[j].token;
    r
  }

  /** Replacing a document by one with the same token leaves the token lookup unchanged. */
  lemma FirstWithTokenUpdate(docs: seq<Guest>, i: nat, g: Guest, token: string)
    requires i < |docs| && g.token == docs[i].token
    ensures FirstWithToken(docs[i := g], token) == FirstWithToken(docs, token)
  {
    var d := docs[i := g];
    assert forall j :: 0 <= j < |docs| ==> d[j].token == docs[j].token;
  }

  /** `where("email", "==", email).limit(1)`: the first document holding `email`. */
  function FirstWithEmail(docs: seq<Guest>, email: string): (r: Option<nat>)
    ensures r.Some? ==> r.value < |docs| && docs[r.value].email == email
    ensures r.Some? ==> forall j :: 0 <= j < r.value ==> docs[j].email != email
    ensures r.None? <==> forall j :: 0 <= j < |docs| ==> docs[j].email != email
  {
    var r := FirstWhere(docs, EmailKey, email);
    assert forall j :: 0 <= j < |docs| ==> KeyOf(docs[j], EmailKey) == docs[j].email;
    r
  }

  /** The position of the document with id `id`. */
  function IndexOfId(docs: seq<Guest>, id: string): (r: Option<nat>)
    ensures r.Some? ==> r.value < |docs| && docs[r.value].id == id
    ensures r.None? <==> forall j :: 0 <= j < |docs| ==> docs[j].id != id
  {
    if docs == [] then None
    else if docs[0].id == id then Some(0)
    else match IndexOfId(docs[1..], id)
      case None => None
      case Some(k) => Some(k + 1)
  }

  /**
   * `doc(id).set(g)`: the document with `g`'s id becomes `g`; a new id adds
   * a document. Other documents are untouched and ids stay unique.
   */
  function Upsert(docs: seq<Guest>, g: Guest): (r: seq<Guest>)
    ensures UniqueIds(docs) ==> UniqueIds(r)
    ensures |r| == |docs| || |r| == |docs| + 1
    ensures g in r
    ensures forall j :: 0 <= j < |docs| && docs[j].id != g.id ==> r[j] == docs[j]
    ensures forall x :: x in r ==> x == g || x in docs
  {
    match IndexOfId(docs, g.id)
    case Some(k) => assert docs[k := g][k] == g; docs[k := g]
    case None => assert (docs + [g])[|docs|] == g; docs + [g]
  }

  /** The guests collection, updated in place by the route handlers. */
  class GuestStore {
    var docs: seq<Guest>
    /** Number of document writes issued so far. */
    ghost var writes: nat

    ghost predicate Valid()
      reads this
    {
      UniqueIds(docs)
    }

    constructor (initial: seq<Guest>)
      requires UniqueIds(initial)
      ensures Valid() && docs == initial && writes == 0
    {
      docs := initial;
      writes := 0;
    }

    /** `doc.ref.update(...)`: one write that replaces the fields of an existing document. */
    method UpdateAt(i: nat, g: Guest)
      requires Valid() && i < |docs| && g.id == docs[i].id
      modifies this
      ensures Valid()
      ensures docs == old(docs)[i := g]
      ensures writes == old(writes) + 1
    {
      docs := docs[i := g];
      writes := writes + 1;
    }

    /** `docRef.set(g)`: one write that creates or overwrites the document with `g`'s id. */
    method Set(g: Guest)
      requires Valid()
      modifies this
      ensures Valid()
      ensures docs == Upsert(old(docs), g)
      ensures writes == old(writes) + 1
    {
      docs := Upsert(docs, g);
      writes := writes + 1;
    }
  }
}
