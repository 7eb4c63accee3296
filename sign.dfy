/**
 * The check-in token codec of lib/sign.ts.
 *
 * A token is `guestId + "." + hex(HMAC-SHA256(secret, guestId + "." + lower(email)))`.
 * HMAC-SHA256 (RFC 2104 over the SHA-256 of FIPS 180-4) is not modelled: it is
 * an oracle returning 32 bytes. Everything around it (the payload, Base16
 * encoding of section 8 of RFC 4648, Node's lenient hex decoding, splitting on
 * `.` and the length guard before the byte comparison) is modelled exactly.
 */
module Sign {
  import opened Wrappers
  import opened Text

  newtype byte = x: int | 0 <= x < 256

  /** Length in bytes of an HMAC-SHA256 digest. */
  const DigestLength: nat := 32

  type Digest = d: seq<byte> | |d| == DigestLength witness seq(32, _ => 0)

  /** HMAC-SHA256 as an oracle: (key, message) to a 32-byte digest. */
  type Hmac = (string, string) -> Digest

  /** The process configuration the codec reads: `CHECKIN_SECRET` and the MAC. */
  datatype Signer = Signer(secretEnv: Option<string>, mac: Hmac)

  /** Secret used when `CHECKIN_SECRET` is unset or empty. */
  const DevSecret: string := "dev-secret"

  /** `process.env.CHECKIN_SECRET || "dev-secret"`. */
  function Secret(env: Option<string>): (key: string)
    ensures Present(env) ==> key == env.value
    ensures !Present(env) ==> key == DevSecret
    ensures key != ""
  {
    if Present(env) then env.value else DevSecret
  }

  /** The signed message: the id, a dot, and the lowercased email. */
  function Payload(guestId: string, email: string): string {
    guestId + "." + Lower(email)
  }

  /** The digest a token for (guestId, email) must carry. */
  function Expected(signer: Signer, guestId: string, email: string): Digest {
    signer.mac(Secret(signer.secretEnv), Payload(guestId, email))
  }

  /* ----- Base16 (section 8 of RFC 4648), lower case on output ----- */

  predicate IsLowerHex(c: char) {
    '0' <= c <= '9' || 'a' <= c <= 'f'
  }

  function HexDigit(n: nat): (c: char)
    requires n < 16
    ensures IsLowerHex(c)
  {
    if n < 10 then ('0' as int + n) as char else ('a' as int + n - 10) as char
  }

  /** The value of a hex digit of either case; `None` for any other character. */
  function HexValue(c: char): (v: Option<nat>)
    ensures v.Some? ==> v.value < 16
  {
    if '0' <= c <= '9' then Some(c as int - '0' as int)
    else if 'a' <= c <= 'f' then Some(c as int - 'a' as int + 10)
    else if 'A' <= c <= 'F' then Some(c as int - 'A' as int + 10)
    else None
  }

  lemma HexValueOfDigit(n: nat)
    requires n < 16
    ensures HexValue(HexDigit(n)) == Some(n)
  {
  }

  /** `digest("hex")`: two lower-case digits per byte, high nibble first. */
  function Hex(bs: seq<byte>): (r: string)
    ensures |r| == 2 * |bs|
    ensures forall i :: 0 <= i < |r| ==> IsLowerHex(r[i])
  {
    if bs == [] then ""
    else [HexDigit(bs[0] as nat / 16), HexDigit(bs[0] as nat % 16)] + Hex(bs[1..])
  }

  /**
   * `Buffer.from(s, "hex")`: decodes digit pairs of either case from the
   * left, stops at the first pair holding a non-hex character, and drops a
   * trailing odd character.
   */
  function HexDecode(s: string): (r: seq<byte>)
    ensures |r| <= |s| / 2
  {
    if |s| < 2 then []
    else
      match (HexValue(s[0]), HexValue(s[1]))
      case (Some(hi), Some(lo)) => [(hi * 16 + lo) as byte] + HexDecode(s[2..])
      case _ => []
  }

  /** Decoding undoes the encoding. */
  lemma {:induction false} HexRoundTrip(bs: seq<byte>)
    ensures HexDecode(Hex(bs)) == bs
  {
    if bs != [] {
      var h := Hex(bs);
      HexValueOfDigit(bs[0] as nat / 16);
      HexValueOfDigit(bs[0] as nat % 16);
      assert h[2..] == Hex(bs[1..]);
      HexRoundTrip(bs[1..]);
    }
  }

  /** Decoding reads only the digit values, so it cannot tell digit case apart. */
  lemma {:induction false} HexDecodeSameValues(s: string, t: string)
    requires |s| == |t|
    requires forall i :: 0 <= i < |s| ==> HexValue(s[i]) == HexValue(t[i])
    ensures HexDecode(s) == HexDecode(t)
  {
    if |s| >= 2 {
      HexDecodeSameValues(s[2..], t[2..]);
    }
  }

  predicate AllHex(s: string) {
    forall i :: 0 <= i < |s| ==> HexValue(s[i]).Some?
  }

  /** A string made only of hex digits, of even length, decodes pair by pair. */
  lemma {:induction false} HexDecodeAt(s: string)
    requires AllHex(s) && |s| % 2 == 0
    ensures |HexDecode(s)| == |s| / 2
    ensures forall j :: 0 <= j < |s| / 2 ==>
      HexDecode(s)[j] as int == HexValue(s[2 * j]).value * 16 + HexValue(s[2 * j + 1]).value
  {
    if |s| >= 2 {
      HexDecodeAt(s[2..]);
      var r := HexDecode(s);
      forall j | 1 <= j < |s| / 2
        ensures r[j] as int == HexValue(s[2 * j]).value * 16 + HexValue(s[2 * j + 1]).value
      {
        assert r[j] == HexDecode(s[2..])[j - 1];
        assert s[2..][2 * (j - 1)] == s[2 * j];
        assert s[2..][2 * (j - 1) + 1] == s[2 * j + 1];
      }
    }
  }

  /** Whatever follows a complete run of hex pairs is decoded on its own. */
  lemma {:induction false} HexDecodeAppend(s: string, t: string)
    requires AllHex(s) && |s| % 2 == 0
    ensures HexDecode(s + t) == HexDecode(s) + HexDecode(t)
  {
    if |s| >= 2 {
      assert (s + t)[2..] == s[2..] + t;
      HexDecodeAppend(s[2..], t);
    } else {
      assert s + t == t;
    }
  }

  /** Hex digits never include the segment separator. */
  lemma NoDotInHex(s: string)
    requires AllHex(s)
    ensures '.' !in s
  {
    forall i | 0 <= i < |s| ensures s[i] != '.' {
      assert HexValue(s[i]).Some?;
    }
  }

  /* ----- signToken / verifyToken ----- */

  /** `signToken(guestId, email)`. */
  function SignToken(signer: Signer, guestId: string, email: string): (token: string)
    ensures |token| == |guestId| + 1 + 2 * DigestLength
    ensures token[..|guestId| + 1] == guestId + "."
    ensures forall i :: |guestId| + 1 <= i < |token| ==> IsLowerHex(token[i])
    ensures HexDecode(token[|guestId| + 1..]) == Expected(signer, guestId, email)
  {
    var sig := Hex(Expected(signer, guestId, email));
    HexRoundTrip(Expected(signer, guestId, email));
    assert (guestId + "." + sig)[|guestId| + 1..] == sig;
    guestId + "." + sig
  }

  /** A dot-free id splits off a signed token as the first of exactly two segments. */
  lemma SignedParts(signer: Signer, guestId: string, email: string)
    requires '.' !in guestId
    ensures Split(SignToken(signer, guestId, email), '.') == [guestId, Hex(Expected(signer, guestId, email))]
  {
    var sig := Hex(Expected(signer, guestId, email));
    assert AllHex(sig) by {
      forall i | 0 <= i < |sig| ensures HexValue(sig[i]).Some? { assert IsLowerHex(sig[i]); }
    }
    NoDotInHex(sig);
    SplitFirst(guestId, '.', sig);
  }

  /** The email case does not affect the token. */
  lemma SignTokenIgnoresEmailCase(signer: Signer, guestId: string, e1: string, e2: string)
    requires Lower(e1) == Lower(e2)
    ensures SignToken(signer, guestId, e1) == SignToken(signer, guestId, e2)
    ensures SignToken(signer, guestId, e1) == SignToken(signer, guestId, Lower(e1))
  {
    LowerIdempotent(e1);
  }

  /** `crypto.timingSafeEqual`: byte equality, defined only for equal lengths (Node throws otherwise). */
  function TimingSafeEqual(a: seq<byte>, b: seq<byte>): bool
    requires |a| == |b|
  {
    forall i :: 0 <= i < |a| ==> a[i] == b[i]
  }

  /** The result of `verifyToken`: `{ ok, guestId }`. */
  datatype Verdict = Verdict(ok: bool, guestId: Option<string>)

  /** `verifyToken(token, email)`. */
  function VerifyToken(signer: Signer, token: string, email: string): (v: Verdict)
    ensures var parts := Split(token, '.');
      (|parts| < 2 || parts[0] == "" || parts[1] == "") ==> v == Verdict(false, None)
    ensures var parts := Split(token, '.');
      (|parts| >= 2 && parts[0] != "" && parts[1] != "") ==> v.guestId == Some(parts[0])
    ensures var parts := Split(token, '.');
      v.ok <==> |parts| >= 2 && parts[0] != "" && parts[1] != ""
                && HexDecode(parts[1]) == Expected(signer, parts[0], email)
    ensures var parts := Split(token, '.');
      |parts| >= 2 && |HexDecode(parts[1])| != DigestLength ==> !v.ok
  {
    var parts := Split(token, '.');
    var guestId := parts[0];
    var sig := if |parts| >= 2 then parts[1] else "";
    if guestId == "" || sig == "" then Verdict(false, None)
    else
      SignedParts(signer, guestId, email);
      HexRoundTrip(Expected(signer, guestId, email));
      var expected := Split(SignToken(signer, guestId, email), '.')[1];
      var sigBuf := HexDecode(sig);
      var expectedBuf := HexDecode(expected);
      Verdict(|sigBuf| == |expectedBuf| && TimingSafeEqual(sigBuf, expectedBuf), Some(guestId))
  }

  /** Round trip: a token verifies against any email equal to the signed one up to case. */
  lemma VerifySigned(signer: Signer, guestId: string, email: string, email2: string)
    requires guestId != "" && '.' !in guestId
    requires Lower(email) == Lower(email2)
    ensures VerifyToken(signer, SignToken(signer, guestId, email), email2) == Verdict(true, Some(guestId))
  {
    SignedParts(signer, guestId, email);
    HexRoundTrip(Expected(signer, guestId, email));
  }

  /** Binding: against another email the token fails, unless the MAC collides on the two payloads. */
  lemma VerifyRejectsOtherEmail(signer: Signer, guestId: string, email: string, other: string)
    requires guestId != "" && '.' !in guestId
    requires Expected(signer, guestId, email) != Expected(signer, guestId, other)
    ensures VerifyToken(signer, SignToken(signer, guestId, email), other) == Verdict(false, Some(guestId))
  {
    SignedParts(signer, guestId, email);
    HexRoundTrip(Expected(signer, guestId, email));
  }

  /** Upper-casing the signature digits leaves the decoded bytes, and so the verdict, unchanged. */
  lemma VerifyAcceptsUppercaseSignature(signer: Signer, guestId: string, email: string)
    requires guestId != "" && '.' !in guestId
    ensures VerifyToken(signer, guestId + "." + Upper(Hex(Expected(signer, guestId, email))), email).ok
  {
    var sig := Hex(Expected(signer, guestId, email));
    var up := Upper(sig);
    forall i | 0 <= i < |sig| ensures HexValue(up[i]) == HexValue(sig[i]) && HexValue(up[i]).Some? {
      assert IsLowerHex(sig[i]);
    }
    NoDotInHex(up);
    HexDecodeSameValues(sig, up);
    HexRoundTrip(Expected(signer, guestId, email));
    SplitFirst(guestId, '.', up);
  }

  /** Changing one digit of a hex string to a digit of another value changes the decoded bytes. */
  lemma ChangedDigitDecodesDifferently(s: string, k: nat, c: char)
    requires AllHex(s) && |s| % 2 == 0 && k < |s|
    requires HexValue(c).Some? && HexValue(c) != HexValue(s[k])
    ensures HexDecode(s[k := c]) != HexDecode(s)
  {
    var t := s[k := c];
    HexDecodeAt(s);
    HexDecodeAt(t);
    var j := k / 2;
    if k % 2 == 0 {
      assert 2 * j == k && t[2 * j + 1] == s[2 * j + 1];
    } else {
      assert 2 * j + 1 == k && t[2 * j] == s[2 * j];
    }
    assert HexDecode(t)[j] != HexDecode(s)[j];
  }

  /** Tamper rejection: replacing one signature digit by a digit of another value fails verification. */
  lemma VerifyRejectsChangedDigit(signer: Signer, guestId: string, email: string, k: nat, c: char)
    requires guestId != "" && '.' !in guestId
    requires k < 2 * DigestLength
    requires HexValue(c).Some?
    requires HexValue(c) != HexValue(Hex(Expected(signer, guestId, email))[k])
    ensures !VerifyToken(signer, guestId + "." + Hex(Expected(signer, guestId, email))[k := c], email).ok
  {
    var d := Expected(signer, guestId, email);
    var sig := Hex(d);
    var bad := sig[k := c];
    assert AllHex(sig) by {
      forall i | 0 <= i < |sig| ensures HexValue(sig[i]).Some? { assert IsLowerHex(sig[i]); }
    }
    assert AllHex(bad);
    NoDotInHex(bad);
    SplitFirst(guestId, '.', bad);
    HexRoundTrip(d);
    ChangedDigitDecodesDifferently(sig, k, c);
  }

  /**
   * Because the hex decoder stops at the first non-hex pair, text appended
   * to a valid signature that does not begin with a hex pair is ignored.
   */
  lemma VerifyIgnoresTrailingJunk(signer: Signer, guestId: string, email: string, junk: string)
    requires guestId != "" && '.' !in guestId && '.' !in junk
    requires |junk| < 2 || HexValue(junk[0]).None? || HexValue(junk[1]).None?
    ensures VerifyToken(signer, SignToken(signer, guestId, email) + junk, email) == Verdict(true, Some(guestId))
  {
    var d := Expected(signer, guestId, email);
    var sig := Hex(d);
    assert AllHex(sig) by {
      forall i | 0 <= i < |sig| ensures HexValue(sig[i]).Some? { assert IsLowerHex(sig[i]); }
    }
    NoDotInHex(sig);
    assert '.' !in sig + junk;
    assert SignToken(signer, guestId, email) + junk == guestId + "." + (sig + junk);
    SplitFirst(guestId, '.', sig + junk);
    HexDecodeAppend(sig, junk);
    HexRoundTrip(d);
    assert HexDecode(junk) == [];
    assert HexDecode(sig + junk) == d;
  }
}
