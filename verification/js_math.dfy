/** JavaScript number operations the components rely on, on integers. */
module JsMath {
  import opened Wrappers
  import opened Strings

  /** JavaScript `%` on integers: the remainder takes the sign of the dividend. */
  function JsRem(a: int, b: int): (r: int)
    requires b > 0
    ensures a >= 0 ==> r == a % b
    ensures a < 0 ==> r == -((-a) % b)
    ensures -b < r < b
  {
    if a >= 0 then a % b else -((-a) % b)
  }

  /** The longest prefix of decimal digits. */
  function LeadingDigits(s: string): (d: string)
    ensures AllDigits(d) && d <= s
    ensures |d| < |s| ==> !IsDigit(s[|d|])
  {
    if |s| == 0 || !IsDigit(s[0]) then [] else [s[0]] + LeadingDigits(s[1..])
  }

  predicate IsHexDigit(c: char)
  {
    IsDigit(c) || 'a' <= c <= 'f' || 'A' <= c <= 'F'
  }

  function HexDigitValue(c: char): (v: nat)
    requires IsHexDigit(c)
    ensures v < 16
  {
    if IsDigit(c) then (c - '0') as nat
    else if 'a' <= c <= 'f' then (c - 'a') as nat + 10
    else (c - 'A') as nat + 10
  }

  /** The longest prefix of hexadecimal digits. */
  function LeadingHexDigits(s: string): (d: string)
    ensures d <= s
    ensures forall i :: 0 <= i < |d| ==> IsHexDigit(d[i])
    ensures |d| < |s| ==> !IsHexDigit(s[|d|])
  {
    if |s| == 0 || !IsHexDigit(s[0]) then [] else [s[0]] + LeadingHexDigits(s[1..])
  }

  /** The value of a run of hexadecimal digits, most significant first. */
  function HexValue(d: string): (v: nat)
    requires forall i :: 0 <= i < |d| ==> IsHexDigit(d[i])
  {
    if |d| == 0 then 0 else HexValue(d[..|d| - 1]) * 16 + HexDigitValue(d[|d| - 1])
  }

  /** A `0x` or `0X` prefix, which `parseInt` without a radix reads as base 16. */
  predicate HexPrefixed(body: string)
  {
    |body| >= 2 && body[0] == '0' && (body[1] == 'x' || body[1] == 'X')
  }

  /**
    The unsigned number `parseInt` reads after the sign: the longest run of
    hexadecimal digits after `0x`/`0X`, else the longest run of decimal digits;
    `None` when that run is empty.
  */
  function Magnitude(body: string): (m: Option<nat>)
    ensures HexPrefixed(body) ==> (m.Some? <==> |LeadingHexDigits(body[2..])| > 0)
    ensures !HexPrefixed(body) ==> (m.Some? <==> |LeadingDigits(body)| > 0)
  {
    if HexPrefixed(body) then
      var h := LeadingHexDigits(body[2..]);
      if |h| == 0 then None else Some(HexValue(h))
    else
      var digits := LeadingDigits(body);
      if |digits| == 0 then None else Some(DigitsValue(digits))
  }

  /**
    `parseInt(s)` without a radix: optional leading white space and sign, then
    the `Magnitude` of the rest, negated after a `-`; `NaN` (here `None`)
    without digits or for `undefined`.
  */
  function ParseInt(s: Option<string>): (r: Option<int>)
    ensures s.None? ==> r.None?
    ensures s.Some? ==> (r.Some? <==> Magnitude(SignStripped(TrimStart(s.value))).Some?)
  {
    if s.None? then None
    else
      var t := TrimStart(s.value);
      var m := Magnitude(SignStripped(t));
      if m.None? then None
      else Some(if |t| > 0 && t[0] == '-' then 0 - (m.value as int) else m.value as int)
  }

  /** The text after one leading sign, if any. */
  function SignStripped(t: string): (body: string)
    ensures |t| > 0 && (t[0] == '-' || t[0] == '+') ==> body == t[1..]
    ensures !(|t| > 0 && (t[0] == '-' || t[0] == '+')) ==> body == t
  {
    if |t| > 0 && (t[0] == '-' || t[0] == '+') then t[1..] else t
  }

  /** `parseInt("0x1f")` is 31: the `0x` prefix selects base 16. */
  lemma HexPrefixRead()
    ensures ParseInt(Some("0x1f")) == Some(31)
  {
    Unsigned("0x1f");
    HexMagnitude();
  }

  /** A text that starts with neither white space nor a sign is read as its magnitude. */
  lemma Unsigned(t: string)
    requires |t| > 0 && !IsWhitespace(t[0]) && t[0] != '-' && t[0] != '+'
    ensures Magnitude(t).None? ==> ParseInt(Some(t)).None?
    ensures Magnitude(t).Some? ==> ParseInt(Some(t)) == Some(Magnitude(t).value as int)
  {
    assert TrimStart(t) == t;
    assert SignStripped(t) == t;
  }

  lemma HexMagnitude()
    ensures Magnitude("0x1f") == Some(31)
  {
    assert HexPrefixed("0x1f");
    assert "0x1f"[2..] == "1f";
    HexDigitsOneF();
  }

  lemma HexDigitsOneF()
    ensures LeadingHexDigits("1f") == "1f"
    ensures HexValue("1f") == 31
  {
    assert LeadingHexDigits("1f"[1..]) == "f";
    assert "1f"[..1] == "1";
    assert HexValue("1") == 1;
  }

  /** `parseInt("0x")` is `NaN`: the prefix alone is no number, not zero. */
  lemma HexPrefixAlone()
    ensures ParseInt(Some("0x")).None?
  {
    assert TrimStart("0x") == "0x";
    assert SignStripped("0x") == "0x";
    assert "0x"[2..] == [];
  }

  /** `parseInt` reads back what `String(n)` wrote. */
  lemma ParseIntOfNat(n: nat)
    ensures ParseInt(Some(NatToString(n))) == Some(n)
  {
    var s := NatToString(n);
    TrimStartOfDigits(s);
    assert SignStripped(s) == s;
    DecimalMagnitude(s);
    DigitsValueOfNat(n);
  }

  /** A run of decimal digits is its own magnitude. */
  lemma DecimalMagnitude(s: string)
    requires |s| > 0 && AllDigits(s)
    ensures Magnitude(s) == Some(DigitsValue(s))
  {
    assert !HexPrefixed(s) by {
      if |s| >= 2 {
        assert IsDigit(s[1]);
      }
    }
    LeadingDigitsAll(s);
  }

  lemma {:induction false} LeadingDigitsAll(s: string)
    requires AllDigits(s)
    ensures LeadingDigits(s) == s
  {
    if |s| > 0 {
      LeadingDigitsAll(s[1..]);
    }
  }

  lemma TrimStartOfDigits(s: string)
    requires |s| > 0 && AllDigits(s)
    ensures TrimStart(s) == s
  {
  }
}
