/**
 * The import route of app/api/guests/bulk/route.ts. Each row with a name
 * and an email either updates the guest already holding that (lowercased)
 * email or creates a new guest with a freshly signed token. The writes are
 * buffered in a bulk writer and reach the store when it is closed, so every
 * duplicate lookup sees the collection as it was before the import.
 */
module Bulk {
  import opened Wrappers
  import opened Text
  import opened Sign
  import opened Store
  import CheckinRoute

  /** One imported row; an absent, `null` or non-object row is `Row(None, None, None, None)`. */
  datatype Row = Row(fullName: Option<string>, email: Option<string>, whatsapp: Option<string>, category: Option<string>)

  /** A row is imported only when it has a non-empty name and a non-empty email. */
  predicate Kept(r: Row) {
    Present(r.fullName) && Present(r.email)
  }

  /**
   * What the route depends on besides the rows: the signing key, the id the
   * store hands out for the document created for row `i`, the clock read
   * after the invite email for row `i`, the time taken at the start, and the
   * `sendEmails` flag.
   */
  datatype Context = Context(signer: Signer, newId: nat -> string, clock: nat -> int, now: int, sendEmails: bool)

  datatype Response =
    | NoRows    // 400 "Sem dados para importar."
    | Imported  // 200 { ok: true }

  /** A buffered write of the bulk writer. */
  datatype Write =
    | UpdateContact(id: string, fullName: string, whatsapp: Option<string>, category: Option<string>, at: int)
    | MarkInvited(id: string, at: int)
    | Create(g: Guest)

  /** An invite email: recipient, name, and the token its QR code carries. */
  datatype Invitation = Invitation(to: string, fullName: string, token: string)

  /** The contact update of an existing guest: name, contact, category and update time; nothing else. */
  function WithContact(g: Guest, fullName: string, whatsapp: Option<string>, category: Option<string>, at: int): (r: Guest)
    ensures r.fullName == fullName && r.whatsapp == whatsapp && r.category == category && r.updatedAt == at
    ensures r.(fullName := g.fullName, whatsapp := g.whatsapp, category := g.category, updatedAt := g.updatedAt) == g
  {
    g.(fullName := fullName, whatsapp := whatsapp, category := category, updatedAt := at)
  }

  /** The re-invite update: invited status and invite time; nothing else, not even `checkInAt`. */
  function Reinvite(g: Guest, at: int): (r: Guest)
    ensures r.status == Invited && r.inviteSentAt == Some(at)
    ensures r.(status := g.status, inviteSentAt := g.inviteSentAt) == g
  {
    g.(status := Invited, inviteSentAt := Some(at))
  }

  /** The document created for row `i`, under a fresh auto-id and with a signed token. */
  function NewGuest(ctx: Context, i: nat, r: Row): (g: Guest)
    requires Kept(r)
    ensures g.id == ctx.newId(i) && g.email == Lower(r.email.value) && g.fullName == r.fullName.value
    ensures g.status == Invited && g.checkInAt == None && CheckInConsistent(g)
    ensures g.createdAt == ctx.now && g.updatedAt == ctx.now
    ensures g.inviteSentAt.Some? <==> ctx.sendEmails
    ensures g.inviteSentAt.Some? ==> g.inviteSentAt.value == ctx.now
  {
    var email := Lower(r.email.value);
    var id := ctx.newId(i);
    Guest(id, r.fullName.value, email, OrNull(r.whatsapp), OrNull(r.category), None, None, None,
          Invited, ctx.now, ctx.now, None, if ctx.sendEmails then Some(ctx.now) else None,
          SignToken(ctx.signer, id, email))
  }

  /**
   * A new guest's token is bound to its id and its email, and it verifies
   * against the row's email whatever the case of its letters.
   */
  lemma NewGuestTokenVerifies(ctx: Context, i: nat, r: Row)
    requires Kept(r)
    ensures var g := NewGuest(ctx, i, r);
            g.token == SignToken(ctx.signer, g.id, r.email.value)
            && (g.id != "" && '.' !in g.id ==> VerifyToken(ctx.signer, g.token, r.email.value) == Verdict(true, Some(g.id)))
  {
    var g := NewGuest(ctx, i, r);
    LowerIdempotent(r.email.value);
    SignTokenIgnoresEmailCase(ctx.signer, g.id, g.email, r.email.value);
    if g.id != "" && '.' !in g.id {
      VerifySigned(ctx.signer, g.id, g.email, r.email.value);
    }
  }

  /** The writes buffered for row `i`, looked up against `snapshot`. */
  function RowWrites(ctx: Context, snapshot: seq<Guest>, i: nat, r: Row): (ws: seq<Write>)
    // rows without a name or an email are skipped
    ensures ws == [] <==> !Kept(r)
  {
    if !Kept(r) then []
    else
      var email := Lower(r.email.value);
      match FirstWithEmail(snapshot, email)
      case Some(k) =>
        var id := snapshot[k].id;
        [UpdateContact(id, r.fullName.value, OrNull(r.whatsapp), OrNull(r.category), ctx.now)]
          + (if ctx.sendEmails then [MarkInvited(id, ctx.clock(i))] else [])
      case None => [Create(NewGuest(ctx, i, r))]
  }

  /**
   * A row creates a guest exactly when no stored guest holds its lowercased
   * email; otherwise it writes only the stored guest holding that email, and
   * re-invites it only with `sendEmails`.
   */
  lemma RowWritesTargets(ctx: Context, snapshot: seq<Guest>, i: nat, r: Row)
    ensures var ws := RowWrites(ctx, snapshot, i, r);
            && ((exists w :: w in ws && w.Create?) <==> (Kept(r) && Lower(r.email.value) !in Emails(snapshot)))
            && ((exists w :: w in ws && w.Create?) ==> ws == [Create(NewGuest(ctx, i, r))])
            && (forall w :: w in ws && !w.Create? ==>
                  exists j :: 0 <= j < |snapshot| && snapshot[j].id == w.id && snapshot[j].email == Lower(r.email.value))
            && (forall w :: w in ws && w.MarkInvited? ==> ctx.sendEmails)
  {
    var ws := RowWrites(ctx, snapshot, i, r);
    if Kept(r) {
      var email := Lower(r.email.value);
      match FirstWithEmail(snapshot, email)
      case Some(k) =>
        assert snapshot[k] in snapshot;
      case None =>
        assert email !in Emails(snapshot);
        assert ws[0] in ws;
    }
  }

  /**
   * A kept row whose lowercased email is already stored writes only the
   * first guest holding it: its name, contact, category and `now`, then,
   * with `sendEmails`, an invitation stamped by the clock after the email.
   */
  lemma RowWritesUpdate(ctx: Context, snapshot: seq<Guest>, i: nat, r: Row, k: nat)
    requires Kept(r) && FirstWithEmail(snapshot, Lower(r.email.value)) == Some(k)
    ensures RowWrites(ctx, snapshot, i, r) ==
      [UpdateContact(snapshot[k].id, r.fullName.value, OrNull(r.whatsapp), OrNull(r.category), ctx.now)]
      + (if ctx.sendEmails then [MarkInvited(snapshot[k].id, ctx.clock(i))] else [])
  {
  }

  /**
   * Applied to a collection holding that guest, the row's writes leave it
   * with the row's name, contact and category, updated at `now`, and, with
   * `sendEmails`, invited again; every other document is unchanged.
   */
  lemma RowUpdateEffect(ctx: Context, snapshot: seq<Guest>, i: nat, r: Row, k: nat, docs: seq<Guest>, j: nat)
    requires Kept(r) && FirstWithEmail(snapshot, Lower(r.email.value)) == Some(k)
    requires UniqueIds(docs) && j < |docs| && docs[j].id == snapshot[k].id
    ensures var d := ApplyAll(docs, RowWrites(ctx, snapshot, i, r));
            var updated := WithContact(docs[j], r.fullName.value, OrNull(r.whatsapp), OrNull(r.category), ctx.now);
            |d| == |docs|
            && d[j] == (if ctx.sendEmails then Reinvite(updated, ctx.clock(i)) else updated)
            && forall m :: 0 <= m < |docs| && m != j ==> d[m] == docs[m]
  {
    var id := snapshot[k].id;
    var u := UpdateContact(id, r.fullName.value, OrNull(r.whatsapp), OrNull(r.category), ctx.now);
    var updated := WithContact(docs[j], r.fullName.value, OrNull(r.whatsapp), OrNull(r.category), ctx.now);
    RowWritesUpdate(ctx, snapshot, i, r, k);
    assert IndexOfId(docs, id) == Some(j);
    var d1 := ApplyWrite(docs, u);
    assert d1 == docs[j := updated];
    assert ApplyAll(docs, [u]) == d1 by {
      assert [u][..0] == [];
    }
    if ctx.sendEmails {
      var mi := MarkInvited(id, ctx.clock(i));
      assert IndexOfId(d1, id) == Some(j);
      assert [u, mi][..1] == [u];
      assert ApplyAll(docs, [u, mi]) == ApplyWrite(d1, mi);
      assert [u] + [mi] == [u, mi];
    } else {
      assert [u] + [] == [u];
    }
  }

  /** The invite emails sent for row `i`. */
  function RowInvites(ctx: Context, snapshot: seq<Guest>, i: nat, r: Row): (ms: seq<Invitation>)
    ensures |ms| == if Kept(r) && ctx.sendEmails then 1 else 0
  {
    if !Kept(r) || !ctx.sendEmails then []
    else
      var email := Lower(r.email.value);
      match FirstWithEmail(snapshot, email)
      case Some(k) => [Invitation(email, r.fullName.value, snapshot[k].token)]
      case None => [Invitation(email, r.fullName.value, NewGuest(ctx, i, r).token)]
  }

  /**
   * An invite goes to the row's lowercased email and carries the token stored
   * for that email: the existing guest's, or the one the new guest is created with.
   */
  lemma RowInvitesCarryStoredToken(ctx: Context, snapshot: seq<Guest>, i: nat, r: Row)
    ensures var ms := RowInvites(ctx, snapshot, i, r);
            |ms| == 1 ==>
              (ms[0].to == Lower(r.email.value)
               && exists g :: g in snapshot + [NewGuest(ctx, i, r)] && g.email == ms[0].to && g.token == ms[0].token)
  {
    var ms := RowInvites(ctx, snapshot, i, r);
    if |ms| == 1 {
      var email := Lower(r.email.value);
      match FirstWithEmail(snapshot, email)
      case Some(k) =>
        assert snapshot[k] in snapshot + [NewGuest(ctx, i, r)];
      case None =>
        var g := NewGuest(ctx, i, r);
        assert (snapshot + [g])[|snapshot|] == g;
    }
  }

  /** Every write buffered for `rows`, in order. */
  function Planned(ctx: Context, snapshot: seq<Guest>, rows: seq<Row>): (ws: seq<Write>)
    ensures forall w :: w in ws && !w.Create? ==> w.id in Ids(snapshot)
    decreases |rows|
  {
    if rows == [] then []
    else
      var n := |rows| - 1;
      var ws := RowWrites(ctx, snapshot, n, rows[n]);
      RowWritesTargets(ctx, snapshot, n, rows[n]);
      assert forall w :: w in ws && !w.Create? ==> w.id in Ids(snapshot) by {
        forall w | w in ws && !w.Create? ensures w.id in Ids(snapshot) {
          var j :| 0 <= j < |snapshot| && snapshot[j].id == w.id && snapshot[j].email == Lower(rows[n].email.value);
          assert snapshot[j] in snapshot;
        }
      }
      Planned(ctx, snapshot, rows[..n]) + ws
  }

  /** Every invite email sent for `rows`, in order. */
  function PlannedInvites(ctx: Context, snapshot: seq<Guest>, rows: seq<Row>): (ms: seq<Invitation>)
    ensures |ms| <= |rows|
    ensures !ctx.sendEmails ==> ms == []
    decreases |rows|
  {
    if rows == [] then []
    else
      var n := |rows| - 1;
      PlannedInvites(ctx, snapshot, rows[..n]) + RowInvites(ctx, snapshot, n, rows[n])
  }

  /** One write reaching the store; an update of a missing document changes nothing. */
  function ApplyWrite(docs: seq<Guest>, w: Write): (r: seq<Guest>)
    ensures UniqueIds(docs) ==> UniqueIds(r)
    ensures Ids(docs) <= Ids(r)
  {
    match w
    case Create(g) =>
      var r := Upsert(docs, g);
      assert forall x :: x in docs ==> x.id in Ids(r) by {
        forall x | x in docs ensures x.id in Ids(r) {
          var j :| 0 <= j < |docs| && docs[j] == x;
          if x.id != g.id { assert r[j] == x; }
        }
      }
      r
    case UpdateContact(id, fullName, whatsapp, category, at) =>
      (match IndexOfId(docs, id)
       case Some(k) => SameIdsAt(docs, k, WithContact(docs[k], fullName, whatsapp, category, at))
       case None => docs)
    case MarkInvited(id, at) =>
      match IndexOfId(docs, id)
      case Some(k) => SameIdsAt(docs, k, Reinvite(docs[k], at))
      case None => docs
  }

  /** Replacing a document by one with the same id keeps the set of ids. */
  function SameIdsAt(docs: seq<Guest>, k: nat, g: Guest): (r: seq<Guest>)
    requires k < |docs| && g.id == docs[k].id
    ensures r == docs[k := g] && Ids(r) == Ids(docs)
    ensures UniqueIds(docs) ==> UniqueIds(r)
  {
    var r := docs[k := g];
    assert forall x :: x in r ==> x.id in Ids(docs) by {
      forall x | x in r ensures x.id in Ids(docs) {
        var j :| 0 <= j < |r| && r[j] == x;
        assert docs[j] in docs;
      }
    }
    assert forall x :: x in docs ==> x.id in Ids(r) by {
      forall x | x in docs ensures x.id in Ids(r) {
        var j :| 0 <= j < |docs| && docs[j] == x;
        assert r[j] in r;
      }
    }
    r
  }

  /** The collection after the writes `ws`, applied in order. */
  function ApplyAll(docs: seq<Guest>, ws: seq<Write>): (r: seq<Guest>)
    ensures UniqueIds(docs) ==> UniqueIds(r)
    ensures Ids(docs) <= Ids(r)
    decreases |ws|
  {
    if ws == [] then docs
    else ApplyWrite(ApplyAll(docs, ws[..|ws| - 1]), ws[|ws| - 1])
  }

  /** Updates change neither the documents' ids, emails and tokens nor their check-in times. */
  lemma UpdatesKeepIdentity(docs: seq<Guest>, w: Write)
    requires !w.Create?
    ensures var r := ApplyWrite(docs, w);
            |r| == |docs|
            && forall j :: 0 <= j < |docs| ==>
                 r[j].id == docs[j].id && r[j].email == docs[j].email && r[j].token == docs[j].token
                 && r[j].createdAt == docs[j].createdAt && r[j].checkInAt == docs[j].checkInAt
  {
  }

  /**
   * Re-importing a checked-in guest with `sendEmails` sets it back to invited
   * but keeps its check-in time, so the record is no longer consistent, and
   * scanning its QR code again checks it in a second time with a new time.
   */
  lemma ReinviteReopensCheckIn(signer: Signer, docs: seq<Guest>, k: nat, t: int, now: int)
    requires UniqueIds(docs)
    requires k < |docs| && docs[k].id != "" && '.' !in docs[k].id
    requires docs[k].token == SignToken(signer, docs[k].id, docs[k].email)
    requires forall j :: 0 <= j < k ==> docs[j].token != docs[k].token
    requires docs[k].status == CheckedIn && CheckInConsistent(docs[k])
    ensures var d := ApplyWrite(docs, MarkInvited(docs[k].id, t));
            !CheckInConsistent(d[k]) && d[k].checkInAt == docs[k].checkInAt
            && CheckinRoute.Step(signer, d, Some(docs[k].token), now).0 == CheckinRoute.CheckedInNow(docs[k].id, now)
  {
    assert IndexOfId(docs, docs[k].id) == Some(k);
    var d := ApplyWrite(docs, MarkInvited(docs[k].id, t));
    assert d == docs[k := Reinvite(docs[k], t)];
    CheckinRoute.IssuedTokenAccepted(signer, d, k, now);
  }

  /** The ids of the documents the writes `ws` create. */
  function CreatedIds(ws: seq<Write>): set<string> {
    set w | w in ws && w.Create? :: w.g.id
  }

  /** Every created document gets an id unused in `ids` and by the other creations. */
  predicate FreshCreates(ids: set<string>, ws: seq<Write>) {
    forall j :: 0 <= j < |ws| && ws[j].Create? ==>
      ws[j].g.id !in ids && forall i :: 0 <= i < j && ws[i].Create? ==> ws[i].g.id != ws[j].g.id
  }

  /** A write never loses an email, and a creation with a fresh id adds its own. */
  lemma ApplyWriteEmails(docs: seq<Guest>, w: Write)
    requires w.Create? ==> w.g.id !in Ids(docs)
    ensures Emails(docs) <= Emails(ApplyWrite(docs, w))
    ensures w.Create? ==> w.g.email in Emails(ApplyWrite(docs, w))
    ensures Ids(ApplyWrite(docs, w)) <= Ids(docs) + (if w.Create? then {w.g.id} else {})
  {
    var r := ApplyWrite(docs, w);
    if w.Create? {
      assert IndexOfId(docs, w.g.id).None?;
      assert r == docs + [w.g];
    } else {
      UpdatesKeepIdentity(docs, w);
      forall e | e in Emails(docs) ensures e in Emails(r) {
        var x :| x in docs && x.email == e;
        var j :| 0 <= j < |docs| && docs[j] == x;
        assert r[j] in r;
      }
      forall id | id in Ids(r) ensures id in Ids(docs) {
        var x :| x in r && x.id == id;
        var j :| 0 <= j < |r| && r[j] == x;
        assert docs[j] in docs;
      }
    }
  }

  /** Fresh creations stay fresh in a prefix, and the last one is new to the prefix too. */
  lemma FreshPrefix(ids: set<string>, ws: seq<Write>)
    requires ws != [] && FreshCreates(ids, ws)
    ensures FreshCreates(ids, ws[..|ws| - 1])
    ensures var w := ws[|ws| - 1]; w.Create? ==> w.g.id !in ids + CreatedIds(ws[..|ws| - 1])
  {
    var n := |ws| - 1;
    var p, w := ws[..n], ws[n];
    assert forall j :: 0 <= j < n ==> p[j] == ws[j];
    if w.Create? {
      forall x | x in p && x.Create? ensures x.g.id != w.g.id {
        var i :| 0 <= i < n && p[i] == x;
      }
    }
  }

  /** One more write keeps the emails and ids facts of `ApplyAllEmails`. */
  lemma ApplyAllEmailsStep(docs: seq<Guest>, ws: seq<Write>)
    requires ws != []
    requires var w := ws[|ws| - 1]; w.Create? ==> w.g.id !in Ids(docs) + CreatedIds(ws[..|ws| - 1])
    requires Emails(docs) <= Emails(ApplyAll(docs, ws[..|ws| - 1]))
    requires Ids(ApplyAll(docs, ws[..|ws| - 1])) <= Ids(docs) + CreatedIds(ws[..|ws| - 1])
    requires forall x :: x in ws[..|ws| - 1] && x.Create? ==> x.g.email in Emails(ApplyAll(docs, ws[..|ws| - 1]))
    ensures Emails(docs) <= Emails(ApplyAll(docs, ws))
    ensures Ids(ApplyAll(docs, ws)) <= Ids(docs) + CreatedIds(ws)
    ensures forall x :: x in ws && x.Create? ==> x.g.email in Emails(ApplyAll(docs, ws))
  {
    var p, w := ws[..|ws| - 1], ws[|ws| - 1];
    var before := ApplyAll(docs, p);
    var after := ApplyAll(docs, ws);
    assert after == ApplyWrite(before, w);
    assert w.Create? ==> w.g.id !in Ids(before);
    ApplyWriteEmails(before, w);
    CreatedIdsSnoc(ws);
    forall x | x in ws && x.Create? ensures x.g.email in Emails(after) {
      var i :| 0 <= i < |ws| && ws[i] == x;
      if i < |ws| - 1 {
        assert p[i] == x;
      }
    }
  }

  lemma CreatedIdsSnoc(ws: seq<Write>)
    requires ws != []
    ensures var w := ws[|ws| - 1];
            CreatedIds(ws) == CreatedIds(ws[..|ws| - 1]) + (if w.Create? then {w.g.id} else {})
  {
    assert ws == ws[..|ws| - 1] + [ws[|ws| - 1]];
  }

  /** Writes with fresh creations keep every email and add the created ones. */
  lemma {:induction false} ApplyAllEmails(docs: seq<Guest>, ws: seq<Write>)
    requires FreshCreates(Ids(docs), ws)
    ensures Emails(docs) <= Emails(ApplyAll(docs, ws))
    ensures Ids(ApplyAll(docs, ws)) <= Ids(docs) + CreatedIds(ws)
    ensures forall w :: w in ws && w.Create? ==> w.g.email in Emails(ApplyAll(docs, ws))
    decreases |ws|
  {
    if ws != [] {
      FreshPrefix(Ids(docs), ws);
      ApplyAllEmails(docs, ws[..|ws| - 1]);
      ApplyAllEmailsStep(docs, ws);
    }
  }

  /** `g` is the guest created for row `i` of `rows`, whose email is not stored yet. */
  predicate CreatedBy(ctx: Context, snapshot: seq<Guest>, rows: seq<Row>, i: int, g: Guest) {
    0 <= i < |rows| && Kept(rows[i]) && g == NewGuest(ctx, i, rows[i]) && g.email !in Emails(snapshot)
  }

  /** Every creation planned for `rows` is the new guest of a kept row whose email is not stored yet. */
  lemma {:induction false} PlannedCreatesNew(ctx: Context, snapshot: seq<Guest>, rows: seq<Row>)
    ensures forall w :: w in Planned(ctx, snapshot, rows) && w.Create? ==>
      exists i :: CreatedBy(ctx, snapshot, rows, i, w.g)
    decreases |rows|
  {
    if rows != [] {
      var n := |rows| - 1;
      var p, r := Planned(ctx, snapshot, rows[..n]), RowWrites(ctx, snapshot, n, rows[n]);
      assert Planned(ctx, snapshot, rows) == p + r;
      PlannedCreatesNew(ctx, snapshot, rows[..n]);
      RowWritesTargets(ctx, snapshot, n, rows[n]);
      forall w: Write | w in p + r && w.Create? ensures exists i :: CreatedBy(ctx, snapshot, rows, i, w.g) {
        if w in p {
          var i :| CreatedBy(ctx, snapshot, rows[..n], i, w.g);
          assert rows[..n][i] == rows[i];
          assert CreatedBy(ctx, snapshot, rows, i, w.g);
        } else {
          assert CreatedBy(ctx, snapshot, rows, n, w.g);
        }
      }
    }
  }

  /** Every write of row `i` is among the writes planned for `rows`. */
  lemma {:induction false} PlannedContains(ctx: Context, snapshot: seq<Guest>, rows: seq<Row>, i: nat)
    requires i < |rows|
    ensures forall w :: w in RowWrites(ctx, snapshot, i, rows[i]) ==> w in Planned(ctx, snapshot, rows)
    decreases |rows|
  {
    var n := |rows| - 1;
    if i < n {
      PlannedContains(ctx, snapshot, rows[..n], i);
      assert rows[..n][i] == rows[i];
    }
  }

  /** With ids the store has not used, distinct for distinct rows, the planned creations are fresh. */
  lemma PlannedFresh(ctx: Context, snapshot: seq<Guest>, rows: seq<Row>)
    requires forall i :: 0 <= i < |rows| ==> ctx.newId(i) !in Ids(snapshot)
    requires forall i, j :: 0 <= i < j < |rows| ==> ctx.newId(i) != ctx.newId(j)
    ensures FreshCreates(Ids(snapshot), Planned(ctx, snapshot, rows))
  {
    var ws := Planned(ctx, snapshot, rows);
    PlannedCreatesNew(ctx, snapshot, rows);
    forall j | 0 <= j < |ws| && ws[j].Create?
      ensures ws[j].g.id !in Ids(snapshot) && forall i :: 0 <= i < j && ws[i].Create? ==> ws[i].g.id != ws[j].g.id
    {
      assert ws[j] in ws;
      forall i | 0 <= i < j && ws[i].Create? ensures ws[i].g.id != ws[j].g.id {
        PlannedOneCreatePerRow(ctx, snapshot, rows, i, j);
      }
    }
  }

  /** Two creations at different positions of the plan come from different rows. */
  lemma {:induction false} PlannedOneCreatePerRow(ctx: Context, snapshot: seq<Guest>, rows: seq<Row>, a: nat, b: nat)
    requires a < b < |Planned(ctx, snapshot, rows)|
    requires Planned(ctx, snapshot, rows)[a].Create? && Planned(ctx, snapshot, rows)[b].Create?
    ensures exists i, j :: i < j && CreatedBy(ctx, snapshot, rows, i, Planned(ctx, snapshot, rows)[a].g)
                                 && CreatedBy(ctx, snapshot, rows, j, Planned(ctx, snapshot, rows)[b].g)
    decreases |rows|
  {
    var n := |rows| - 1;
    var p, r := Planned(ctx, snapshot, rows[..n]), RowWrites(ctx, snapshot, n, rows[n]);
    var ws := Planned(ctx, snapshot, rows);
    assert ws == p + r;
    if b < |p| {
      assert ws[a] == p[a] && ws[b] == p[b];
      PlannedOneCreatePerRow(ctx, snapshot, rows[..n], a, b);
      var i, j :| i < j && CreatedBy(ctx, snapshot, rows[..n], i, p[a].g) && CreatedBy(ctx, snapshot, rows[..n], j, p[b].g);
      CreatedByPrefix(ctx, snapshot, rows, n, i, p[a].g);
      CreatedByPrefix(ctx, snapshot, rows, n, j, p[b].g);
    } else {
      RowWritesTargets(ctx, snapshot, n, rows[n]);
      assert ws[b] == r[b - |p|] && ws[b] in r;
      assert CreatedBy(ctx, snapshot, rows, n, ws[b].g);
      assert a < |p| && ws[a] == p[a] && p[a] in p;
      PlannedCreatesNew(ctx, snapshot, rows[..n]);
      var i :| CreatedBy(ctx, snapshot, rows[..n], i, p[a].g);
      CreatedByPrefix(ctx, snapshot, rows, n, i, p[a].g);
    }
  }

  /** A creation by a row of a prefix is a creation by that row of the whole list. */
  lemma CreatedByPrefix(ctx: Context, snapshot: seq<Guest>, rows: seq<Row>, m: nat, i: int, g: Guest)
    requires m <= |rows| && CreatedBy(ctx, snapshot, rows[..m], i, g)
    ensures i < m && CreatedBy(ctx, snapshot, rows, i, g)
  {
    assert rows[..m][i] == rows[i];
  }

  /**
   * After an import, with ids the store has not used and distinct for
   * distinct rows, some stored guest holds the lowercased email of every
   * kept row.
   */
  lemma ImportStoresEveryRow(ctx: Context, snapshot: seq<Guest>, rows: seq<Row>, i: nat)
    requires forall i :: 0 <= i < |rows| ==> ctx.newId(i) !in Ids(snapshot)
    requires forall i, j :: 0 <= i < j < |rows| ==> ctx.newId(i) != ctx.newId(j)
    requires i < |rows| && Kept(rows[i])
    ensures Lower(rows[i].email.value) in Emails(ApplyAll(snapshot, Planned(ctx, snapshot, rows)))
    ensures Emails(snapshot) <= Emails(ApplyAll(snapshot, Planned(ctx, snapshot, rows)))
  {
    var ws := Planned(ctx, snapshot, rows);
    PlannedFresh(ctx, snapshot, rows);
    ApplyAllEmails(snapshot, ws);
    if Lower(rows[i].email.value) !in Emails(snapshot) {
      RowWritesTargets(ctx, snapshot, i, rows[i]);
      PlannedContains(ctx, snapshot, rows, i);
      var g := NewGuest(ctx, i, rows[i]);
      assert Create(g) in RowWrites(ctx, snapshot, i, rows[i]);
    }
  }

  /** The body of the per-row loop for row `i`: the writes it buffers and the invite it sends. */
  method PlanRow(ctx: Context, snapshot: seq<Guest>, i: nat, r: Row)
    returns (ws: seq<Write>, ghost ms: seq<Invitation>)
    ensures ws == RowWrites(ctx, snapshot, i, r)
    ensures ms == RowInvites(ctx, snapshot, i, r)
  {
    ws, ms := [], [];
    if !Present(r.fullName) || !Present(r.email) {
      return;
    }
    var email := Lower(r.email.value);
    var dup := FirstWithEmail(snapshot, email);
    if dup.Some? {
      var doc := snapshot[dup.value];
      ws := ws + [UpdateContact(doc.id, r.fullName.value, OrNull(r.whatsapp), OrNull(r.category), ctx.now)];
      if ctx.sendEmails {
        ms := ms + [Invitation(email, r.fullName.value, doc.token)];
        ws := ws + [MarkInvited(doc.id, ctx.clock(i))];
      }
      return;
    }
    var g := NewGuest(ctx, i, r);
    ws := ws + [Create(g)];
    if ctx.sendEmails {
      ms := ms + [Invitation(email, r.fullName.value, g.token)];
    }
  }

  /** The per-row loop: the writes buffered and the invite emails sent, against `snapshot`. */
  method PlanRows(ctx: Context, snapshot: seq<Guest>, rows: seq<Row>)
    returns (pending: seq<Write>, ghost invites: seq<Invitation>)
    ensures pending == Planned(ctx, snapshot, rows)
    ensures invites == PlannedInvites(ctx, snapshot, rows)
  {
    pending := [];
    invites := [];
    var i := 0;
    while i < |rows|
      invariant 0 <= i <= |rows|
      invariant pending == Planned(ctx, snapshot, rows[..i])
      invariant invites == PlannedInvites(ctx, snapshot, rows[..i])
    {
      assert rows[..i + 1][..i] == rows[..i];
      var ws, ms := PlanRow(ctx, snapshot, i, rows[i]);
      pending := pending + ws;
      invites := invites + ms;
      i := i + 1;
    }
    assert rows[..i] == rows;
  }

  /** `batch.close()`: the buffered writes reach the store in order, one write each. */
  method Commit(store: GuestStore, pending: seq<Write>)
    requires store.Valid()
    requires forall w :: w in pending && !w.Create? ==> w.id in Ids(store.docs)
    modifies store
    ensures store.Valid()
    ensures store.docs == ApplyAll(old(store.docs), pending)
    ensures store.writes == old(store.writes) + |pending|
  {
    var j := 0;
    while j < |pending|
      invariant 0 <= j <= |pending|
      invariant store.Valid()
      invariant store.docs == ApplyAll(old(store.docs), pending[..j])
      invariant store.writes == old(store.writes) + j
      invariant Ids(old(store.docs)) <= Ids(store.docs)
    {
      assert pending[..j + 1][..j] == pending[..j];
      var w := pending[j];
      assert w in pending;
      if w.Create? {
        store.Set(w.g);
      } else {
        assert w.id in Ids(store.docs);
        var k := IndexOfId(store.docs, w.id).value;
        var g := if w.UpdateContact?
          then WithContact(store.docs[k], w.fullName, w.whatsapp, w.category, w.at)
          else Reinvite(store.docs[k], w.at);
        store.UpdateAt(k, g);
      }
      j := j + 1;
    }
    assert pending[..j] == pending;
  }

  /** `POST /api/guests/bulk` with body `{ rows, sendEmails }`; `None` is a missing or non-array `rows`. */
  method Import(ctx: Context, store: GuestStore, rows: Option<seq<Row>>)
    returns (resp: Response, ghost invites: seq<Invitation>)
    requires store.Valid()
    modifies store
    ensures store.Valid()
    ensures rows.None? || rows.value == [] ==>
      resp == NoRows && store.docs == old(store.docs) && store.writes == old(store.writes) && invites == []
    ensures rows.Some? && rows.value != [] ==>
      (resp == Imported
       && store.docs == ApplyAll(old(store.docs), Planned(ctx, old(store.docs), rows.value))
       && store.writes == old(store.writes) + |Planned(ctx, old(store.docs), rows.value)|
       && invites == PlannedInvites(ctx, old(store.docs), rows.value))
  {
    if rows.None? || |rows.value| == 0 {
      return NoRows, [];
    }
    var pending;
    pending, invites := PlanRows(ctx, store.docs, rows.value);
    Commit(store, pending);
    resp := Imported;
  }
}
