/**
 * `toE164` of lib/phone.ts: normalises a phone number towards the E.164 form
 * of ITU-T Recommendation E.164 (a `+`, the country code, the subscriber
 * digits), with an explicit default country code.
 */
module Phone {
  import opened Wrappers
  import opened Text

  /** The default `defaultCountryCode` parameter. */
  const DefaultCountryCode: string := "+244"

  /** `s.replace("+", "")`: removes the first `+` only. */
  function DropFirstPlus(s: string): (r: string)
    ensures '+' !in s ==> r == s
    ensures '+' in s ==> r == s[..IndexOf(s, '+')] + s[IndexOf(s, '+') + 1..]
  {
    if '+' in s then
      var i := IndexOf(s, '+');
      s[..i] + s[i + 1..]
    else s
  }

  /** `toE164(whatsapp, defaultCountryCode)`. */
  function ToE164(whatsapp: Option<string>, defaultCountryCode: string): (r: Option<string>)
    // null, undefined and "" give null, and so does a string with no digit or `+`
    ensures !Present(whatsapp) ==> r == None
    ensures Present(whatsapp) ==> (r == None <==> DialChars(whatsapp.value) == "")
    // a filtered string with a leading `+` is kept as it is
    ensures Present(whatsapp) && StartsWith(DialChars(whatsapp.value), "+") ==> r == Some(DialChars(whatsapp.value))
    // a filtered string starting with the code's digits gets a single `+`
    ensures Present(whatsapp) && DialChars(whatsapp.value) != "" && !StartsWith(DialChars(whatsapp.value), "+")
            && StartsWith(DialChars(whatsapp.value), DropFirstPlus(defaultCountryCode))
            ==> r == Some("+" + DialChars(whatsapp.value))
    // otherwise the default code is prefixed
    ensures Present(whatsapp) && DialChars(whatsapp.value) != "" && !StartsWith(DialChars(whatsapp.value), "+")
            && !StartsWith(DialChars(whatsapp.value), DropFirstPlus(defaultCountryCode))
            ==> r == Some(defaultCountryCode + DialChars(whatsapp.value))
  {
    if !Present(whatsapp) then None
    else
      var digits := DialChars(whatsapp.value);
      if digits == "" then None
      else if StartsWith(digits, "+") then Some(digits)
      else if StartsWith(digits, DropFirstPlus(defaultCountryCode)) then Some("+" + digits)
      else Some(defaultCountryCode + digits)
  }

  /** A non-null result is made of `+`, digits and the characters of the country code. */
  lemma ToE164Alphabet(whatsapp: Option<string>, defaultCountryCode: string)
    ensures var r := ToE164(whatsapp, defaultCountryCode);
            r.Some? ==> forall i :: 0 <= i < |r.value| ==> IsDialChar(r.value[i]) || r.value[i] in defaultCountryCode
  {
    var r := ToE164(whatsapp, defaultCountryCode);
    if r.Some? {
      var d := DialChars(whatsapp.value);
      forall i | 0 <= i < |r.value| ensures IsDialChar(r.value[i]) || r.value[i] in defaultCountryCode {
        if r.value == defaultCountryCode + d && i >= |defaultCountryCode| {
          assert r.value[i] == d[i - |defaultCountryCode|];
          assert r.value[i] in d;
        } else if r.value == "+" + d && i > 0 {
          assert r.value[i] == d[i - 1];
          assert r.value[i] in d;
        } else if r.value == d {
          assert r.value[i] in d;
        }
      }
    }
  }

  /** Only the digits and `+` signs of the input, in order, decide the result. */
  lemma ToE164OnlyDialCharsMatter(a: string, b: string, defaultCountryCode: string)
    requires a != "" && b != ""
    requires DialChars(a) == DialChars(b)
    ensures ToE164(Some(a), defaultCountryCode) == ToE164(Some(b), defaultCountryCode)
  {
  }

  predicate IsCountryCode(cc: string) {
    |cc| >= 2 && cc[0] == '+' && forall i :: 1 <= i < |cc| ==> IsDigit(cc[i])
  }

  /** With a code of the form `+` and digits, every result starts with `+` and normalising it again changes nothing. */
  lemma {:induction false} ToE164Idempotent(whatsapp: Option<string>, cc: string)
    requires IsCountryCode(cc)
    ensures var r := ToE164(whatsapp, cc);
            r.Some? ==> StartsWith(r.value, "+") && ToE164(r, cc) == r
  {
    var r := ToE164(whatsapp, cc);
    if r.Some? {
      var d := DialChars(whatsapp.value);
      assert forall i :: 0 <= i < |d| ==> IsDialChar(d[i]) by {
        forall i | 0 <= i < |d| ensures IsDialChar(d[i]) { assert d[i] in d; }
      }
      assert forall i :: 0 <= i < |r.value| ==> IsDialChar(r.value[i]) by {
        forall i | 0 <= i < |r.value| ensures IsDialChar(r.value[i]) {
          if r.value == cc + d && i >= |cc| {
            assert r.value[i] == d[i - |cc|];
          } else if r.value == "+" + d && i > 0 {
            assert r.value[i] == d[i - 1];
          }
        }
      }
      DialCharsIdentity(r.value);
      assert r.value[0] == '+';
    }
  }
}
