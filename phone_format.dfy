/**
 * The `phoneFormat` pipe: renders an Uzbek phone number as `+998 ` followed by
 * the nine national digits, and leaves anything that does not have that shape
 * as it was.
 */
module PhoneFormat {
  import opened Js

  /** The pipe's argument, `string | number`; numbers are modelled as integers. */
  datatype PhoneValue = Text(s: string) | Number(n: int)

  /**
   * `n.toString()` for an integer below 10^21 in magnitude; JavaScript writes
   * larger numbers with an exponent, which is not modelled.
   */
  function IntToString(n: int): (s: string)
    ensures s != ""
  {
    if n < 0 then "-" + NatToString(-n) else NatToString(n)
  }

  /** `value.toString()` */
  function ToJsString(v: PhoneValue): (r: string)
    ensures v.Number? ==> r != "" && (r[0] == '-' <==> v.n < 0)
    ensures v.Number? ==> AllDigits(if v.n < 0 then r[1..] else r)
  {
    match v
    case Text(s) => s
    case Number(n) => IntToString(n)
  }

  /** `!value` is false: a non-empty string or a non-zero number. */
  predicate IsTruthyValue(v: PhoneValue)
  {
    match v
    case Text(s) => s != ""
    case Number(n) => n != 0
  }

  /** `s.replace(/\D/g, '')`: the ASCII digits of `s`, in order. */
  function KeepDigits(s: string): (r: string)
    ensures AllDigits(r) && |r| <= |s|
  {
    if |s| == 0 then []
    else (if IsDigit(s[0]) then [s[0]] else []) + KeepDigits(s[1..])
  }

  const CountryCode: string := "998"

  /** Prefixes the country code unless the digits already start with it. */
  function WithCountryCode(digits: string): (r: string)
    ensures StartsWith(r, CountryCode)
    ensures StartsWith(digits, CountryCode) ==> r == digits
  {
    if StartsWith(digits, CountryCode) then digits else CountryCode + digits
  }

  /** `phone.match(/^(998)(\d{9})$/)`: the second group when the whole string matches. */
  function MatchNational(phone: string): (m: Option<string>)
    ensures m.Some? ==> phone == CountryCode + m.value && |m.value| == 9 && AllDigits(m.value)
    ensures |phone| == 12 && StartsWith(phone, CountryCode) && AllDigits(phone[3..]) ==> m == Some(phone[3..])
  {
    if |phone| == 12 && phone[..3] == CountryCode && AllDigits(phone[3..]) then Some(phone[3..])
    else None
  }

  /** `PhoneFormatPipe.transform` */
  function Transform(v: PhoneValue): (r: string)
    ensures r == "" <==> !IsTruthyValue(v)
    ensures r == "" || r == ToJsString(v) || IsFormatted(r)
  {
    if !IsTruthyValue(v) then ""
    else
      var phone := WithCountryCode(KeepDigits(ToJsString(v)));
      match MatchNational(phone)
      case Some(national) => "+" + CountryCode + " " + national
      case None => ToJsString(v)
  }

  /** The formatted shape: `+998 ` and nine digits, fourteen characters in all. */
  predicate IsFormatted(r: string)
  {
    |r| == 14 && r[..5] == "+998 " && AllDigits(r[5..])
  }

  /** The digit strings the pipe reformats: 998 and nine digits, or nine digits not starting with 998. */
  predicate FitsNational(digits: string)
  {
    (|digits| == 12 && StartsWith(digits, CountryCode))
    || (|digits| == 9 && !StartsWith(digits, CountryCode))
  }

  lemma {:induction false} KeepDigitsAppend(a: string, b: string)
    ensures KeepDigits(a + b) == KeepDigits(a) + KeepDigits(b)
  {
    if |a| > 0 {
      assert (a + b)[1..] == a[1..] + b;
      KeepDigitsAppend(a[1..], b);
    } else {
      assert a + b == b;
    }
  }

  lemma {:induction false} KeepDigitsOfDigits(s: string)
    requires AllDigits(s)
    ensures KeepDigits(s) == s
  {
    if |s| > 0 {
      KeepDigitsOfDigits(s[1..]);
    }
  }

  /** The digits of a formatted number are the country code followed by the national part. */
  lemma KeepDigitsOfFormatted(r: string)
    requires IsFormatted(r)
    ensures KeepDigits(r) == CountryCode + r[5..]
  {
    assert r == "+998 " + r[5..];
    KeepDigitsAppend("+998 ", r[5..]);
    KeepDigitsOfDigits(r[5..]);
    assert KeepDigits("+998 ") == "998" by {
      assert "+998 "[1..] == "998 ";
      assert "998 "[1..] == "98 ";
      assert "98 "[1..] == "8 ";
      assert "8 "[1..] == " ";
      assert " "[1..] == "";
    }
  }

  /**
   * A truthy value is reformatted exactly when its digits fit the national
   * shape; the output then consists of `+998 ` and the last nine digits.
   */
  lemma FormatsExactlyWhenFits(v: PhoneValue)
    requires IsTruthyValue(v)
    ensures IsFormatted(Transform(v)) <==> FitsNational(KeepDigits(ToJsString(v)))
    ensures FitsNational(KeepDigits(ToJsString(v))) ==>
      var d := KeepDigits(ToJsString(v));
      Transform(v) == "+998 " + d[|d| - 9..]
  {
    var d := KeepDigits(ToJsString(v));
    var phone := WithCountryCode(d);
    if FitsNational(d) {
      assert |phone| == 12 && StartsWith(phone, CountryCode);
      if StartsWith(d, CountryCode) {
        assert phone == d;
        assert forall i :: 0 <= i < 9 ==> phone[3..][i] == d[3 + i];
      } else {
        assert phone[3..] == d;
      }
      assert AllDigits(phone[3..]);
      assert MatchNational(phone) == Some(phone[3..]);
    } else {
      assert |phone| != 12;
      if IsFormatted(Transform(v)) {
        KeepDigitsOfFormatted(ToJsString(v));
        assert false;
      }
    }
  }

  /** A number the pipe already formatted comes out unchanged. */
  lemma FormattedIsFixed(r: string)
    requires IsFormatted(r)
    ensures Transform(Text(r)) == r
  {
    KeepDigitsOfFormatted(r);
    assert WithCountryCode(KeepDigits(r)) == CountryCode + r[5..];
    assert r == "+998 " + r[5..];
  }

  /** Formatting twice is formatting once. */
  lemma TransformIdempotent(v: PhoneValue)
    ensures Transform(Text(Transform(v))) == Transform(v)
  {
    var r := Transform(v);
    if IsFormatted(r) {
      FormattedIsFixed(r);
    }
  }

  /**
   * The login and register forms send `countryCode.replace('+', '') + phone`;
   * with `+998` and the nine-digit phone their validator demands, the pipe
   * shows `+998 ` and the phone.
   */
  lemma UzbekLoginNumberFormats(phone: string)
    requires |phone| == 9 && AllDigits(phone)
    ensures Transform(Text(ReplaceFirst("+998", '+', "") + phone)) == "+998 " + phone
  {
    assert ReplaceFirst("+998", '+', "") == "998";
    var s := "998" + phone;
    KeepDigitsOfDigits(s);
    assert StartsWith(s, CountryCode);
    assert s[3..] == phone;
  }

  /** With the other two country codes of those forms (`+7`, `+1`) the number is shown as sent. */
  lemma OtherCountryCodesUnchanged(code: string, phone: string)
    requires code == "+7" || code == "+1"
    requires |phone| == 9 && AllDigits(phone)
    ensures Transform(Text(ReplaceFirst(code, '+', "") + phone)) == ReplaceFirst(code, '+', "") + phone
  {
    var local := ReplaceFirst(code, '+', "");
    assert local == code[1..];
    var s := local + phone;
    KeepDigitsOfDigits(s);
    assert !StartsWith(s, CountryCode);
    assert |WithCountryCode(s)| == 13;
  }
}
