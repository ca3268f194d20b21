/** US phone number formatting, validation and conversion to E.164 form. */
module PhoneFormat {
  import opened Strings
  import opened Wrappers

  /** The as-you-type layout of up to ten digits: `(ddd`, `(ddd) ddd`, `(ddd) ddd-dddd`. */
  function Grouped(d: string): string {
    if |d| == 0 then ""
    else if |d| <= 3 then "(" + d
    else if |d| <= 6 then "(" + d[..3] + ") " + d[3..]
    else "(" + d[..3] + ") " + d[3..6] + "-" + d[6..]
  }

  /** `formatPhoneInput`: keep the first ten ASCII digits and lay them out. */
  function FormatPhoneInput(value: string): (r: string)
    ensures var n := |Take(Digits(value), 10)|;
      |r| == (if n == 0 then 0 else if n <= 3 then n + 1 else if n <= 6 then n + 3 else n + 4)
    ensures |r| <= 14
    ensures r == "" <==> |Digits(value)| == 0
    ensures r != "" ==> r[0] == '('
  {
    Grouped(Take(Digits(value), 10))
  }

  /** `isValidUSPhone`: exactly ten digits, whatever else surrounds them. */
  predicate IsValidUSPhone(phone: string) {
    |Digits(phone)| == 10
  }

  const WrongLength := "Phone number must be exactly 10 digits"

  /** `toE164Format`: `+1` followed by the ten digits, or the error it throws. */
  function ToE164(phone: string): (r: Result<string, string>)
    ensures r.Err? ==> r.error == WrongLength
    ensures r.Ok? ==> |r.value| == 12 && r.value[..2] == "+1" && r.value[2..] == Digits(phone)
  {
    var d := Digits(phone);
    if |d| != 10 then Err(WrongLength) else Ok("+1" + d)
  }

  lemma DigitsOfPunctuation()
    ensures Digits("(") == "" && Digits(") ") == "" && Digits("-") == ""
  {
  }

  /** Digits of a prefix, a digit group, and a separator, read off piece by piece. */
  lemma DigitsAround(pre: string, group: string, sep: string)
    requires AllDigits(group) && Digits(sep) == ""
    ensures Digits(pre + group + sep) == Digits(pre) + group
  {
    DigitsOfDigits(group);
    DigitsAppend(pre, group);
    DigitsAppend(pre + group, sep);
  }

  /** The layout adds punctuation only: reading the digits back gives the input digits. */
  lemma {:induction false} GroupedDigits(d: string)
    requires AllDigits(d)
    ensures Digits(Grouped(d)) == d
  {
    DigitsOfPunctuation();
    if |d| == 0 {
    } else if |d| <= 3 {
      DigitsAround("(", d, "");
      assert "(" + d + "" == "(" + d;
    } else if |d| <= 6 {
      var a, b := d[..3], d[3..];
      DigitsAround("(", a, ") ");
      DigitsAround("(" + a + ") ", b, "");
      assert "(" + a + ") " + b + "" == Grouped(d);
      assert a + b == d;
    } else {
      var a, b, c := d[..3], d[3..6], d[6..];
      DigitsAround("(", a, ") ");
      DigitsAround("(" + a + ") ", b, "-");
      DigitsAround("(" + a + ") " + b + "-", c, "");
      assert "(" + a + ") " + b + "-" + c + "" == Grouped(d);
      assert a + b + c == d;
    }
  }

  /** The formatted text carries exactly the first ten digits of the input, in order. */
  lemma FormatKeepsDigits(value: string)
    ensures Digits(FormatPhoneInput(value)) == Take(Digits(value), 10)
  {
    var d := Take(Digits(value), 10);
    assert AllDigits(d) by {
      assert forall i :: 0 <= i < |d| ==> d[i] == Digits(value)[i];
    }
    GroupedDigits(d);
  }

  /** Reformatting already formatted text changes nothing. */
  lemma FormatIdempotent(value: string)
    ensures FormatPhoneInput(FormatPhoneInput(value)) == FormatPhoneInput(value)
  {
    FormatKeepsDigits(value);
  }

  /** `isValidUSPhone` accepts exactly the inputs `toE164Format` converts without throwing. */
  lemma ValidIffConverts(phone: string)
    ensures IsValidUSPhone(phone) <==> ToE164(phone).Ok?
  {
  }

  /** Formatting first keeps only ten digits, so an eleven-digit input silently loses its last digit. */
  lemma E164OfFormatted(value: string)
    requires |Digits(value)| >= 10
    ensures ToE164(FormatPhoneInput(value)) == Ok("+1" + Digits(value)[..10])
  {
    FormatKeepsDigits(value);
    assert Take(Digits(value), 10) == Digits(value)[..10];
  }
}
