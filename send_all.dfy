/**
 * The bulk route of app/api/guests/send-all/route.ts: for every guest, in
 * snapshot order, skip it when it has no usable number or no token, else
 * render its QR, upload it and send it over WhatsApp; count the outcomes.
 *
 * Rendering, uploading and sending are one oracle per guest that either
 * delivers or throws.
 */
module SendAll {
  import opened Wrappers
  import opened Text
  import opened Store
  import Wasender

  /** A thrown error: the provider diagnostics `_raw` when attached, and `err.message || String(err)`. */
  datatype Thrown = Thrown(raw: Option<string>, message: string)

  datatype Delivery = Delivered | Threw(err: Thrown)

  /** QR rendering, upload and `sendWhatsappImage` for one guest. */
  type Deliver = Guest -> Delivery

  /** `lastError`: `err._raw`, or else `{ message }`. */
  datatype ErrorReport = RawReport(raw: string) | MessageReport(message: string)

  function Report(e: Thrown): (r: ErrorReport)
    ensures e.raw.Some? ==> r == RawReport(e.raw.value)
    ensures e.raw.None? ==> r == MessageReport(e.message)
  {
    match e.raw
    case Some(raw) => RawReport(raw)
    case None => MessageReport(e.message)
  }

  /** `toE164(g.whatsapp || g.phone)`, with `DEFAULT_COUNTRY_CODE` as `env`. */
  function Recipient(g: Guest, env: Option<string>): Option<string> {
    Wasender.ToE164(Or(g.whatsapp, g.phone), env)
  }

  /** `!to || !g.token`. */
  predicate Skipped(g: Guest, env: Option<string>) {
    Recipient(g, env).None? || g.token == ""
  }

  /** A guest is skipped exactly when it has neither a WhatsApp nor a phone number, or no token. */
  lemma SkippedExactly(g: Guest, env: Option<string>)
    ensures Skipped(g, env) <==> (!Present(g.whatsapp) && !Present(g.phone)) || g.token == ""
  {
  }

  /** The branch the loop body takes for one guest. */
  datatype Outcome = Skip | Sent | Failed(err: Thrown)

  function OutcomeOf(env: Option<string>, deliver: Deliver, g: Guest): (o: Outcome)
    ensures o.Skip? <==> Skipped(g, env)
    ensures o.Sent? <==> !Skipped(g, env) && deliver(g).Delivered?
    ensures o.Failed? <==> !Skipped(g, env) && deliver(g).Threw?
    ensures o.Failed? ==> o.err == deliver(g).err
  {
    if Skipped(g, env) then Skip
    else match deliver(g)
      case Delivered => Sent
      case Threw(e) => Failed(e)
  }

  /** The outcome of every guest, in snapshot order. */
  function Outcomes(env: Option<string>, deliver: Deliver, guests: seq<Guest>): (r: seq<Outcome>)
    ensures |r| == |guests|
    ensures forall i :: 0 <= i < |guests| ==> r[i] == OutcomeOf(env, deliver, guests[i])
  {
    seq(|guests|, i requires 0 <= i < |guests| => OutcomeOf(env, deliver, guests[i]))
  }

  lemma OutcomesAppend(env: Option<string>, deliver: Deliver, a: seq<Guest>, b: seq<Guest>)
    ensures Outcomes(env, deliver, a + b) == Outcomes(env, deliver, a) + Outcomes(env, deliver, b)
  {
    assert forall i :: |a| <= i < |a| + |b| ==> (a + b)[i] == b[i - |a|];
  }

  datatype Totals = Totals(sent: nat, skipped: nat, failed: nat, lastError: Option<ErrorReport>)

  /** One guest's effect on the counters: exactly one of them goes up. */
  function Next(t: Totals, o: Outcome): (r: Totals)
    ensures r.sent + r.skipped + r.failed == t.sent + t.skipped + t.failed + 1
    ensures o.Skip? ==> r == t.(skipped := t.skipped + 1)
    ensures o.Sent? ==> r == t.(sent := t.sent + 1)
    ensures o.Failed? ==> r == t.(failed := t.failed + 1, lastError := Some(Report(o.err)))
  {
    match o
    case Skip => t.(skipped := t.skipped + 1)
    case Sent => t.(sent := t.sent + 1)
    case Failed(e) => t.(failed := t.failed + 1, lastError := Some(Report(e)))
  }

  /** The counters after the outcomes `os`, in order. */
  function Tally(os: seq<Outcome>): (t: Totals)
    ensures t.sent + t.skipped + t.failed == |os|
    ensures t.lastError.Some? <==> t.failed > 0
    decreases |os|
  {
    if os == [] then Totals(0, 0, 0, None)
    else Next(Tally(os[..|os| - 1]), os[|os| - 1])
  }

  /** The guests the oracle is called for: the non-skipped ones, in order. */
  function Attempted(env: Option<string>, guests: seq<Guest>): seq<Guest>
    decreases |guests|
  {
    if guests == [] then []
    else
      var last := guests[|guests| - 1];
      Attempted(env, guests[..|guests| - 1]) + (if Skipped(last, env) then [] else [last])
  }

  /** Delivery is attempted for exactly the guests that are not skipped. */
  lemma {:induction false} AttemptedExactly(env: Option<string>, guests: seq<Guest>)
    ensures forall g :: g in Attempted(env, guests) <==> g in guests && !Skipped(g, env)
    decreases |guests|
  {
    if guests != [] {
      var init, last := guests[..|guests| - 1], guests[|guests| - 1];
      AttemptedExactly(env, init);
      assert guests == init + [last];
    }
  }

  lemma {:induction false} TallyConcat(a: seq<Outcome>, b: seq<Outcome>)
    ensures Tally(a + b).sent == Tally(a).sent + Tally(b).sent
    ensures Tally(a + b).skipped == Tally(a).skipped + Tally(b).skipped
    ensures Tally(a + b).failed == Tally(a).failed + Tally(b).failed
    ensures Tally(a + b).lastError == if Tally(b).lastError.Some? then Tally(b).lastError else Tally(a).lastError
    decreases |b|
  {
    if b == [] {
      assert a + b == a;
    } else {
      var b', o := b[..|b| - 1], b[|b| - 1];
      assert (a + b)[..|a + b| - 1] == a + b';
      assert (a + b)[|a + b| - 1] == o;
      TallyConcat(a, b');
    }
  }

  /**
   * Failure isolation: the counts over a list are the sums of the counts
   * over its parts, whatever failed in the first part; the last error is the
   * second part's when it has one.
   */
  lemma TallyAppend(env: Option<string>, deliver: Deliver, a: seq<Guest>, b: seq<Guest>)
    ensures var ta, tb, t := Tally(Outcomes(env, deliver, a)), Tally(Outcomes(env, deliver, b)),
                             Tally(Outcomes(env, deliver, a + b));
            t.sent == ta.sent + tb.sent && t.skipped == ta.skipped + tb.skipped && t.failed == ta.failed + tb.failed
            && t.lastError == if tb.lastError.Some? then tb.lastError else ta.lastError
  {
    OutcomesAppend(env, deliver, a, b);
    TallyConcat(Outcomes(env, deliver, a), Outcomes(env, deliver, b));
  }

  /** The last error comes from the last failed outcome. */
  lemma {:induction false} LastFailure(os: seq<Outcome>)
    ensures Tally(os).lastError.Some? ==>
      exists k :: 0 <= k < |os| && os[k].Failed? && Tally(os).lastError == Some(Report(os[k].err))
        && forall j :: k < j < |os| ==> !os[j].Failed?
    decreases |os|
  {
    if os != [] {
      var init, o := os[..|os| - 1], os[|os| - 1];
      if o.Failed? {
        assert os[|os| - 1] == o;
      } else {
        LastFailure(init);
        if Tally(init).lastError.Some? {
          var k :| 0 <= k < |init| && init[k].Failed? && Tally(init).lastError == Some(Report(init[k].err))
                && forall j :: k < j < |init| ==> !init[j].Failed?;
          assert os[k] == init[k];
          forall j | k < j < |os| ensures !os[j].Failed? {
            if j < |init| {
              assert os[j] == init[j];
            }
          }
        }
      }
    }
  }

  /** `lastError` comes from the last guest whose delivery threw. */
  lemma LastErrorIsLastFailure(env: Option<string>, deliver: Deliver, guests: seq<Guest>)
    ensures var t := Tally(Outcomes(env, deliver, guests));
            t.lastError.Some? ==>
              exists k :: 0 <= k < |guests| && !Skipped(guests[k], env) && deliver(guests[k]).Threw?
                && t.lastError == Some(Report(deliver(guests[k]).err))
                && forall j :: k < j < |guests| ==> Skipped(guests[j], env) || deliver(guests[j]).Delivered?
  {
    var os := Outcomes(env, deliver, guests);
    LastFailure(os);
    if Tally(os).lastError.Some? {
      var k :| 0 <= k < |os| && os[k].Failed? && Tally(os).lastError == Some(Report(os[k].err))
            && forall j :: k < j < |os| ==> !os[j].Failed?;
      assert os[k] == OutcomeOf(env, deliver, guests[k]);
      forall j | k < j < |guests| ensures Skipped(guests[j], env) || deliver(guests[j]).Delivered? {
        assert os[j] == OutcomeOf(env, deliver, guests[j]);
      }
    }
  }

  lemma TallyStep(os: seq<Outcome>, i: nat)
    requires i < |os|
    ensures Tally(os[..i + 1]) == Next(Tally(os[..i]), os[i])
  {
    assert os[..i + 1][..i] == os[..i];
  }

  lemma AttemptedStep(env: Option<string>, guests: seq<Guest>, i: nat)
    requires i < |guests|
    ensures Attempted(env, guests[..i + 1]) ==
      Attempted(env, guests[..i]) + (if Skipped(guests[i], env) then [] else [guests[i]])
  {
    assert guests[..i + 1][..i] == guests[..i];
  }

  /** The loop body for one guest: the counters after it, and whether its delivery was attempted. */
  method Visit(env: Option<string>, deliver: Deliver, g: Guest, t: Totals) returns (next: Totals, tried: bool)
    ensures next == Next(t, OutcomeOf(env, deliver, g))
    ensures tried <==> !Skipped(g, env)
  {
    var to := Recipient(g, env);
    if to.None? || g.token == "" {
      return t.(skipped := t.skipped + 1), false;
    }
    var d := deliver(g);
    match d {
      case Delivered =>
        next := t.(sent := t.sent + 1);
      case Threw(e) =>
        next := t.(failed := t.failed + 1, lastError := Some(Report(e)));
    }
    tried := true;
  }

  /** `POST /api/guests/send-all` over the snapshot `guests`. */
  method SendAll(env: Option<string>, deliver: Deliver, guests: seq<Guest>)
    returns (t: Totals, ghost attempted: seq<Guest>)
    ensures t == Tally(Outcomes(env, deliver, guests))
    ensures t.sent + t.skipped + t.failed == |guests|
    ensures attempted == Attempted(env, guests)
  {
    ghost var os := Outcomes(env, deliver, guests);
    t := Totals(0, 0, 0, None);
    attempted := [];
    var i := 0;
    while i < |guests|
      invariant 0 <= i <= |guests|
      invariant t == Tally(os[..i])
      invariant attempted == Attempted(env, guests[..i])
    {
      TallyStep(os, i);
      AttemptedStep(env, guests, i);
      var tried;
      t, tried := Visit(env, deliver, guests[i], t);
      if tried {
        attempted := attempted + [guests[i]];
      }
      i := i + 1;
    }
    assert os[..i] == os;
    assert guests[..i] == guests;
  }
}
