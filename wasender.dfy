/**
 * `toE164` of lib/wasender.ts: the variant used before sending over WhatsApp.
 * The country code comes from the environment, and any truthy input yields
 * a number, even one without digits.
 */
module Wasender {
  import opened Wrappers
  import opened Text
  import Phone

  /** Country code used when `DEFAULT_COUNTRY_CODE` is unset or empty. */
  const FallbackCountryCode: string := "244"

  /** `process.env.DEFAULT_COUNTRY_CODE || "244"`. */
  function CountryCode(env: Option<string>): (cc: string)
    ensures Present(env) ==> cc == env.value
    ensures !Present(env) ==> cc == FallbackCountryCode
    ensures cc != ""
  {
    if Present(env) then env.value else FallbackCountryCode
  }

  /** `toE164(raw)` with `DEFAULT_COUNTRY_CODE` given as `env`. */
  function ToE164(raw: Option<string>, env: Option<string>): (r: Option<string>)
    // null exactly for a falsy input
    ensures r == None <==> !Present(raw)
    // every number starts with `+`
    ensures r.Some? ==> StartsWith(r.value, "+")
  {
    if !Present(raw) then None
    else
      var d := DialChars(raw.value);
      if StartsWith(d, "+") then Some(d)
      else
        var cc := CountryCode(env);
        if StartsWith(d, cc) then Some("+" + d)
        else Some("+" + cc + d)
  }

  /** The three cases of a truthy input, by the prefix of its digits and `+` signs. */
  lemma ToE164Cases(raw: string, env: Option<string>)
    requires raw != ""
    ensures var d, cc := DialChars(raw), CountryCode(env);
      && (StartsWith(d, "+") ==> ToE164(Some(raw), env) == Some(d))
      && (!StartsWith(d, "+") && StartsWith(d, cc) ==> ToE164(Some(raw), env) == Some("+" + d))
      && (!StartsWith(d, "+") && !StartsWith(d, cc) ==> ToE164(Some(raw), env) == Some("+" + cc + d))
  {
  }

  /** An input with no digit is not rejected: it becomes the bare country code. */
  lemma NoDigitsGiveBareCode(raw: string, env: Option<string>)
    requires raw != "" && DialChars(raw) == ""
    ensures ToE164(Some(raw), env) == Some("+" + CountryCode(env))
  {
    assert "+" + CountryCode(env) + DialChars(raw) == "+" + CountryCode(env);
  }

  /** With a digits-only country code, normalising a result again changes nothing. */
  lemma ToE164Idempotent(raw: Option<string>, env: Option<string>)
    requires forall i :: 0 <= i < |CountryCode(env)| ==> IsDigit(CountryCode(env)[i])
    ensures var r := ToE164(raw, env);
            r.Some? ==> ToE164(r, env) == r
  {
    var r := ToE164(raw, env);
    if r.Some? {
      var d := DialChars(raw.value);
      var cc := CountryCode(env);
      assert forall i :: 0 <= i < |d| ==> IsDialChar(d[i]) by {
        forall i | 0 <= i < |d| ensures IsDialChar(d[i]) { assert d[i] in d; }
      }
      forall i | 0 <= i < |r.value| ensures IsDialChar(r.value[i]) {
        if r.value == "+" + cc + d && i > |cc| {
          assert r.value[i] == d[i - 1 - |cc|];
        } else if r.value == "+" + cc + d && 0 < i {
          assert r.value[i] == cc[i - 1];
        } else if r.value == "+" + d && i > 0 {
          assert r.value[i] == d[i - 1];
        }
      }
      DialCharsIdentity(r.value);
    }
  }

  /**
   * The two variants agree, under the fallback codes (`"+244"` and `"244"`),
   * on every input holding a digit or `+`; on a non-empty input without one,
   * lib/phone.ts gives null and lib/wasender.ts gives `"+244"`.
   */
  lemma VariantsCompared(raw: string)
    requires raw != ""
    ensures DialChars(raw) != "" ==>
      Phone.ToE164(Some(raw), Phone.DefaultCountryCode) == ToE164(Some(raw), None)
    ensures DialChars(raw) == "" ==>
      Phone.ToE164(Some(raw), Phone.DefaultCountryCode) == None && ToE164(Some(raw), None) == Some("+244")
  {
    assert Phone.DropFirstPlus(Phone.DefaultCountryCode) == "244" by {
      assert Phone.DefaultCountryCode[0] == '+';
      assert IndexOf(Phone.DefaultCountryCode, '+') == 0;
    }
    assert CountryCode(None) == "244";
    var d := DialChars(raw);
    assert "+" + "244" + d == Phone.DefaultCountryCode + d;
    assert d == "" ==> "+" + "244" + d == "+244";
  }
}
