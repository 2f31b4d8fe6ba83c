/** Text helpers shared by the backend and the frontend models: case folding, substring search,
    blank strings, decimal numerals, PHP's integer filter and JavaScript's `parseInt`. */
module Text {
  import opened Common

  /** Case folding of one character (ASCII letters only). */
  function LowerChar(c: char): char
  {
    if 'A' <= c <= 'Z' then (c as int + 32) as char else c
  }

  function Lower(s: string): (r: string)
    ensures |r| == |s|
    ensures forall i :: 0 <= i < |s| ==> r[i] == LowerChar(s[i])
  {
    seq(|s|, i requires 0 <= i < |s| => LowerChar(s[i]))
  }

  predicate StartsWith(s: string, prefix: string)
  {
    |prefix| <= |s| && s[..|prefix|] == prefix
  }

  /** `q` occurs as a contiguous piece of `s` (SQL `LIKE '%q%'` without wildcards in `q`,
      JavaScript `includes`). */
  predicate Contains(s: string, q: string)
    decreases |s|
  {
    StartsWith(s, q) || (s != [] && Contains(s[1..], q))
  }

  lemma {:induction false} ContainsAt(s: string, q: string, i: nat)
    requires i + |q| <= |s| && s[i..i + |q|] == q
    ensures Contains(s, q)
  {
    if i > 0 {
      assert s[1..][i - 1..i - 1 + |q|] == s[i..i + |q|];
      ContainsAt(s[1..], q, i - 1);
    }
  }

  /** Case-insensitive containment. */
  predicate ContainsFolded(s: string, q: string)
  {
    Contains(Lower(s), Lower(q))
  }

  /** The characters PHP's `trim` removes. */
  predicate IsTrimmed(c: char)
  {
    c == ' ' || c == '\t' || c == '\n' || c == '\r' || c == '\0' || c as int == 11
  }

  /** A string whose `trim` is empty. */
  predicate IsBlank(s: string)
  {
    forall i :: 0 <= i < |s| ==> IsTrimmed(s[i])
  }

  predicate IsDigit(c: char)
  {
    '0' <= c <= '9'
  }

  predicate AllDigits(s: string)
  {
    forall i :: 0 <= i < |s| ==> IsDigit(s[i])
  }

  function DigitValue(c: char): nat
    requires IsDigit(c)
  {
    c as int - '0' as int
  }

  function DigitChar(d: nat): (c: char)
    requires d < 10
    ensures IsDigit(c) && DigitValue(c) == d
  {
    ('0' as int + d) as char
  }

  /** The number a string of decimal digits denotes. */
  function DigitsValue(s: string): nat
    requires AllDigits(s)
  {
    if s == [] then 0 else DigitsValue(s[..|s| - 1]) * 10 + DigitValue(s[|s| - 1])
  }

  /** The decimal numeral of `n`, as JavaScript's `toString` and PHP's string cast write it. */
  function NatToString(n: nat): (r: string)
    ensures r != [] && AllDigits(r)
  {
    if n < 10 then [DigitChar(n)] else NatToString(n / 10) + [DigitChar(n % 10)]
  }

  function IntToString(i: int): (r: string)
    ensures r != []
  {
    if i < 0 then "-" + NatToString(-i) else NatToString(i)
  }

  /** Reading a numeral back gives the number it was written from. */
  lemma {:induction false} NatToStringValue(n: nat)
    ensures DigitsValue(NatToString(n)) == n
  {
    if n >= 10 {
      NatToStringValue(n / 10);
      var s := NatToString(n);
      assert s[..|s| - 1] == NatToString(n / 10);
    }
  }

  /** A numeral written by `NatToString` starts with a zero only when it is `0`. */
  lemma {:induction false} NatToStringLead(n: nat)
    ensures NatToString(n)[0] == '0' <==> n == 0
  {
    if n >= 10 {
      NatToStringLead(n / 10);
    }
  }

  // ---------------------------------------------------------------- PHP's integer filter

  const Int64Min: int := -0x8000_0000_0000_0000
  const Int64Max: int := 0x7FFF_FFFF_FFFF_FFFF

  /** The range of a PHP integer on a 64-bit build. */
  predicate InInt64(i: int)
  {
    Int64Min <= i <= Int64Max
  }

  /** The white space PHP's integer filter strips from both ends of its input: space, tab,
      carriage return, line feed and vertical tab (not NUL, which `trim` also strips). */
  predicate IsFilterSpace(c: char)
  {
    c == ' ' || c == '\t' || c == '\r' || c == '\n' || c as int == 11
  }

  function StripLeading(s: string): (r: string)
    ensures |r| <= |s| && (r != [] ==> !IsFilterSpace(r[0]))
  {
    if s != [] && IsFilterSpace(s[0]) then StripLeading(s[1..]) else s
  }

  function StripTrailing(s: string): (r: string)
    ensures |r| <= |s| && (r != [] ==> !IsFilterSpace(r[|r| - 1]))
  {
    if s != [] && IsFilterSpace(s[|s| - 1]) then StripTrailing(s[..|s| - 1]) else s
  }

  function FilterTrim(s: string): string
  {
    StripTrailing(StripLeading(s))
  }

  /** The text after an optional leading `+` or `-`. */
  function Unsigned(t: string): string
  {
    if t != [] && (t[0] == '+' || t[0] == '-') then t[1..] else t
  }

  /** `0`, or a non-zero digit followed by digits: a numeral without a superfluous zero. */
  predicate IsCanonicalNumeral(d: string)
  {
    d != [] && AllDigits(d) && (d[0] == '0' ==> |d| == 1)
  }

  function SignedValue(t: string): int
    requires AllDigits(Unsigned(t))
  {
    if t != [] && t[0] == '-' then -(DigitsValue(Unsigned(t)) as int) else DigitsValue(Unsigned(t))
  }

  /** The strings PHP's `FILTER_VALIDATE_INT` accepts, the check behind Laravel's `integer` rule:
      surrounding white space, then an optional sign, then a numeral without leading zeros whose
      value fits in a 64-bit integer. */
  predicate IsIntegerLiteral(s: string)
  {
    var t := FilterTrim(s);
    IsCanonicalNumeral(Unsigned(t)) && InInt64(SignedValue(t))
  }

  function IntegerLiteralValue(s: string): (i: int)
    requires IsIntegerLiteral(s)
    ensures InInt64(i)
  {
    SignedValue(FilterTrim(s))
  }

  /** The filter accepts the decimal numeral of an integer exactly when it fits in 64 bits, and
      reads it back as that integer. */
  lemma IntegerLiteralOfIntToString(i: int)
    ensures IsIntegerLiteral(IntToString(i)) <==> InInt64(i)
    ensures InInt64(i) ==> IntegerLiteralValue(IntToString(i)) == i
  {
    var s := IntToString(i);
    var n: nat := if i < 0 then -i else i;
    var d := NatToString(n);
    NatToStringLead(n);
    NatToStringValue(n);
    assert StripLeading(s) == s;
    assert StripTrailing(s) == s by { assert IsDigit(s[|s| - 1]); }
    if i < 0 {
      assert s[1..] == d;
    }
    assert Unsigned(s) == d;
    assert SignedValue(s) == i;
  }

  /** Surrounding white space does not change what the filter reads. */
  lemma PaddedLiteral(p: string, s: string, q: string)
    requires forall i :: 0 <= i < |p| ==> IsFilterSpace(p[i])
    requires forall i :: 0 <= i < |q| ==> IsFilterSpace(q[i])
    requires s != [] && !IsFilterSpace(s[0]) && !IsFilterSpace(s[|s| - 1])
    ensures IsIntegerLiteral(p + s + q) <==> IsIntegerLiteral(s)
    ensures IsIntegerLiteral(s) ==> IntegerLiteralValue(p + s + q) == IntegerLiteralValue(s)
  {
    assert p + s + q == p + (s + q);
    StripLeadingPad(p, s + q);
    StripTrailingPad(s, q);
    assert StripLeading(s) == s && StripTrailing(s) == s;
  }

  lemma {:induction false} StripLeadingPad(p: string, x: string)
    requires forall i :: 0 <= i < |p| ==> IsFilterSpace(p[i])
    requires x != [] && !IsFilterSpace(x[0])
    ensures StripLeading(p + x) == x
  {
    if p != [] {
      assert (p + x)[1..] == p[1..] + x;
      StripLeadingPad(p[1..], x);
    }
  }

  lemma {:induction false} StripTrailingPad(x: string, q: string)
    requires forall i :: 0 <= i < |q| ==> IsFilterSpace(q[i])
    requires x != [] && !IsFilterSpace(x[|x| - 1])
    ensures StripTrailing(x + q) == x
  {
    if q != [] {
      assert (x + q)[..|x + q| - 1] == x + q[..|q| - 1];
      StripTrailingPad(x, q[..|q| - 1]);
    } else {
      assert x + q == x;
    }
  }

  /** A sign is read, a zero in front of other digits is refused, and `-0` is zero. */
  lemma IntegerLiteralExamples()
    ensures IsIntegerLiteral("+7") && IntegerLiteralValue("+7") == 7
    ensures IsIntegerLiteral("-0") && IntegerLiteralValue("-0") == 0
    ensures !IsIntegerLiteral("007") && !IsIntegerLiteral("-007") && !IsIntegerLiteral("+")
    ensures !IsIntegerLiteral("") && !IsIntegerLiteral("7a")
  {
    assert FilterTrim("+7") == "+7" && Unsigned("+7") == "7";
    assert FilterTrim("-0") == "-0" && Unsigned("-0") == "0";
    assert FilterTrim("007") == "007";
    assert FilterTrim("-007") == "-007" && Unsigned("-007") == "007";
    assert FilterTrim("+") == "+" && Unsigned("+") == "";
    assert FilterTrim("7a") == "7a" && !IsDigit("7a"[1]);
  }

  /** The longest prefix of `s` made of decimal digits. */
  function LeadingDigits(s: string): (r: string)
    ensures AllDigits(r) && StartsWith(s, r)
    ensures |r| < |s| ==> !IsDigit(s[|r|])
  {
    if s != [] && IsDigit(s[0]) then [s[0]] + LeadingDigits(s[1..]) else []
  }

  /** The white space and line terminators JavaScript's `parseInt` skips (section 12.2 and 12.3
      of ECMA-262): tab, vertical tab, form feed, the byte order mark, the space separators of
      Unicode category Zs, line feed, carriage return and the line and paragraph separators. */
  predicate IsJsSpace(c: char)
  {
    || c == '\t' || c as int == 0x0B || c as int == 0x0C || c == ' ' || c as int == 0xA0
    || c as int == 0xFEFF || c as int == 0x1680 || (0x2000 <= c as int <= 0x200A)
    || c as int == 0x202F || c as int == 0x205F || c as int == 0x3000
    || c == '\n' || c == '\r' || c as int == 0x2028 || c as int == 0x2029
  }

  function SkipSpaces(s: string): (r: string)
    ensures |r| <= |s| && (r != [] ==> !IsJsSpace(r[0]))
  {
    if s != [] && IsJsSpace(s[0]) then SkipSpaces(s[1..]) else s
  }

  predicate IsHexDigit(c: char)
  {
    IsDigit(c) || 'a' <= c <= 'f' || 'A' <= c <= 'F'
  }

  function HexDigitValue(c: char): (v: nat)
    requires IsHexDigit(c)
    ensures v < 16
  {
    if IsDigit(c) then DigitValue(c)
    else if 'a' <= c <= 'f' then c as int - 'a' as int + 10
    else c as int - 'A' as int + 10
  }

  /** The longest prefix of `s` made of hexadecimal digits. */
  function LeadingHexDigits(s: string): (r: string)
    ensures StartsWith(s, r) && forall i :: 0 <= i < |r| ==> IsHexDigit(r[i])
    ensures |r| < |s| ==> !IsHexDigit(s[|r|])
  {
    if s != [] && IsHexDigit(s[0]) then [s[0]] + LeadingHexDigits(s[1..]) else []
  }

  /** The number a string of hexadecimal digits denotes. */
  function HexValue(s: string): nat
    requires forall i :: 0 <= i < |s| ==> IsHexDigit(s[i])
  {
    if s == [] then 0 else HexValue(s[..|s| - 1]) * 16 + HexDigitValue(s[|s| - 1])
  }

  /** `0x` or `0X`, after which `parseInt` without a radix reads base sixteen. */
  predicate HasHexPrefix(s: string)
  {
    |s| >= 2 && s[0] == '0' && (s[1] == 'x' || s[1] == 'X')
  }

  /** The magnitude `parseInt` reads from a sign-less string: the longest run of hexadecimal
      digits after a `0x` prefix, else of decimal digits; `None` when that run is empty. */
  function ParseMagnitude(u: string): (r: Option<nat>)
    ensures !HasHexPrefix(u) ==> (r.None? <==> LeadingDigits(u) == [])
    ensures !HasHexPrefix(u) && r.Some? ==> r.value == DigitsValue(LeadingDigits(u))
    ensures HasHexPrefix(u) ==> (r.None? <==> LeadingHexDigits(u[2..]) == [])
    ensures HasHexPrefix(u) && r.Some? ==> r.value == HexValue(LeadingHexDigits(u[2..]))
  {
    if HasHexPrefix(u) then
      var d := LeadingHexDigits(u[2..]);
      if d == [] then None else Some(HexValue(d))
    else
      var d := LeadingDigits(u);
      if d == [] then None else Some(DigitsValue(d))
  }

  /** JavaScript's `parseInt(s)` with no radix (section 19.2.5 of ECMA-262): leading white
      space is skipped, then an optional sign; a `0x` or `0X` prefix selects base sixteen, base
      ten otherwise; then the longest run of digits of that base. `None` stands for NaN (no
      digit at all); a negative zero is 0. */
  function ParseInt(s: string): (r: Option<int>)
  {
    var t := SkipSpaces(s);
    var u := if |t| > 0 && (t[0] == '-' || t[0] == '+') then t[1..] else t;
    match ParseMagnitude(u)
    case None => None
    case Some(n) => Some(if |t| > 0 && t[0] == '-' then -(n as int) else n)
  }

  /** `u[..k]` is a run of decimal digits at the start of `u` that cannot be extended. */
  predicate DigitRun(u: string, k: nat)
  {
    1 <= k <= |u| && AllDigits(u[..k]) && (k == |u| || !IsDigit(u[k]))
  }

  predicate AllHexDigits(s: string)
  {
    forall i :: 0 <= i < |s| ==> IsHexDigit(s[i])
  }

  /** `u[..k]` is a run of hexadecimal digits at the start of `u` that cannot be extended. */
  predicate HexRun(u: string, k: nat)
  {
    1 <= k <= |u| && AllHexDigits(u[..k]) && (k == |u| || !IsHexDigit(u[k]))
  }

  lemma {:induction false} LeadingDigitsOfRun(s: string, k: nat)
    requires k <= |s| && AllDigits(s[..k]) && (k == |s| || !IsDigit(s[k]))
    ensures LeadingDigits(s) == s[..k]
  {
    if k > 0 {
      assert IsDigit(s[..k][0]);
      assert s[1..][..k - 1] == s[..k][1..];
      LeadingDigitsOfRun(s[1..], k - 1);
      assert s[..k] == [s[0]] + s[1..][..k - 1];
    }
  }

  lemma {:induction false} LeadingHexDigitsOfRun(s: string, k: nat)
    requires k <= |s| && AllHexDigits(s[..k]) && (k == |s| || !IsHexDigit(s[k]))
    ensures LeadingHexDigits(s) == s[..k]
  {
    if k > 0 {
      assert IsHexDigit(s[..k][0]);
      assert s[1..][..k - 1] == s[..k][1..];
      LeadingHexDigitsOfRun(s[1..], k - 1);
      assert s[..k] == [s[0]] + s[1..][..k - 1];
    }
  }

  /** Without a `0x` prefix, the magnitude is NaN exactly when `u` does not start with a digit,
      and otherwise the value of the digit run at the start that cannot be extended. */
  lemma ParseMagnitudeDecimal(u: string, n: nat)
    requires !HasHexPrefix(u)
    ensures ParseMagnitude(u).None? <==> (u == [] || !IsDigit(u[0]))
    ensures ParseMagnitude(u) == Some(n) <==> exists k: nat :: DigitRun(u, k) && n == DigitsValue(u[..k])
  {
    var d := LeadingDigits(u);
    assert d == u[..|d|];
    if ParseMagnitude(u) == Some(n) {
      assert DigitRun(u, |d|);
    }
    forall k: nat | DigitRun(u, k)
      ensures ParseMagnitude(u) == Some(DigitsValue(u[..k]))
    {
      LeadingDigitsOfRun(u, k);
    }
  }

  /** After a `0x` prefix, the magnitude is NaN exactly when no hexadecimal digit follows, and
      otherwise the base-sixteen value of the hexadecimal run that cannot be extended. */
  lemma ParseMagnitudeHex(u: string, n: nat)
    requires HasHexPrefix(u)
    ensures ParseMagnitude(u).None? <==> (|u| == 2 || !IsHexDigit(u[2]))
    ensures ParseMagnitude(u) == Some(n) <==> exists k: nat :: HexRun(u[2..], k) && n == HexValue(u[2..][..k])
  {
    var v := u[2..];
    var d := LeadingHexDigits(v);
    assert d == v[..|d|];
    if ParseMagnitude(u) == Some(n) {
      assert HexRun(v, |d|);
    }
    forall k: nat | HexRun(v, k)
      ensures ParseMagnitude(u) == Some(HexValue(v[..k]))
    {
      LeadingHexDigitsOfRun(v, k);
    }
  }

  /** `SkipSpaces` drops exactly the white space in front of the first other character. */
  lemma {:induction false} SkipSpacesRun(s: string, j: nat)
    requires j <= |s| && (forall i :: 0 <= i < j ==> IsJsSpace(s[i]))
    requires j == |s| || !IsJsSpace(s[j])
    ensures SkipSpaces(s) == s[j..]
  {
    if j > 0 {
      assert forall i :: 0 <= i < j - 1 ==> s[1..][i] == s[i + 1];
      SkipSpacesRun(s[1..], j - 1);
      assert s[1..][j - 1..] == s[j..];
    }
  }

  /** `parseInt(s)` with `s[..j]` its leading white space and `sign` the length of the sign that
      may follow: the magnitude of the rest, negated after a `-`. */
  lemma ParseIntReads(s: string, j: nat, sign: nat)
    requires j <= |s| && (forall i :: 0 <= i < j ==> IsJsSpace(s[i]))
    requires j == |s| || !IsJsSpace(s[j])
    requires sign == (if j < |s| && (s[j] == '+' || s[j] == '-') then 1 else 0)
    ensures ParseInt(s) == (if ParseMagnitude(s[j + sign..]).None? then None
                            else var n := ParseMagnitude(s[j + sign..]).value;
                                 Some(if sign == 1 && s[j] == '-' then -(n as int) else n))
  {
    SkipSpacesRun(s, j);
    if sign == 1 {
      assert s[j..][1..] == s[j + 1..];
    }
  }

  /** A hexadecimal literal is read as one: `parseInt(" 0x1A")` is 26. */
  lemma ParseIntHex()
    ensures ParseInt(" 0x1A") == Some(26)
  {
    var t := SkipSpaces(" 0x1A");
    assert t == "0x1A" by { assert " 0x1A"[1..] == "0x1A"; }
    assert t[0] != '-' && t[0] != '+';
    assert HasHexPrefix(t);
    assert t[2..] == "1A";
    assert LeadingHexDigits("1A") == "1A" by {
      assert "1A"[1..] == "A";
      assert LeadingHexDigits("A") == "A" by { assert "A"[1..] == ""; }
    }
    assert HexValue("1A") == 26 by { assert "1A"[..1] == "1"; assert "1"[..0] == ""; }
    assert ParseMagnitude(t) == Some(26);
  }

  /** `parseInt("12px")` stops at the first character that is not a digit. */
  lemma ParseIntStopsAtNonDigit()
    ensures ParseInt("12px") == Some(12)
  {
    var t := SkipSpaces("12px");
    assert t == "12px";
    assert !HasHexPrefix(t);
    assert LeadingDigits("12px") == "12" by {
      assert "12px"[1..] == "2px";
      assert LeadingDigits("2px") == "2" by { assert "2px"[1..] == "px"; }
    }
    assert DigitsValue("12") == 12 by { assert "12"[..1] == "1"; assert "1"[..0] == ""; }
    assert ParseMagnitude(t) == Some(12);
  }

  /** A string with no digit where one is due is NaN. */
  lemma ParseIntNaN()
    ensures ParseInt("0x") == None && ParseInt("") == None && ParseInt("all") == None
  {
    assert SkipSpaces("0x") == "0x" && HasHexPrefix("0x") && "0x"[2..] == "";
    assert SkipSpaces("all") == "all" && !HasHexPrefix("all");
  }

  lemma {:induction false} LeadingDigitsOfDigits(s: string)
    requires AllDigits(s)
    ensures LeadingDigits(s) == s
  {
    if s != [] {
      LeadingDigitsOfDigits(s[1..]);
    }
  }

  /** `parseInt` reads back what `toString` wrote: the form's `miqaat_id` string written from an
      id selects that id again. */
  lemma ParseIntOfIntToString(i: int)
    ensures ParseInt(IntToString(i)) == Some(i)
  {
    if i < 0 {
      ParseNegative(-i);
    } else {
      ParseNatural(i);
    }
  }

  lemma ParseNegative(n: nat)
    requires n > 0
    ensures ParseInt("-" + NatToString(n)) == Some(-(n as int))
  {
    var d := NatToString(n);
    var s := "-" + d;
    assert SkipSpaces(s) == s;
    assert s[1..] == d;
    NoHexPrefix(d);
    LeadingDigitsOfDigits(d);
    NatToStringValue(n);
    assert ParseMagnitude(d) == Some(n);
  }

  lemma ParseNatural(n: nat)
    ensures ParseInt(NatToString(n)) == Some(n)
  {
    var d := NatToString(n);
    assert IsDigit(d[0]);
    assert SkipSpaces(d) == d;
    NoHexPrefix(d);
    LeadingDigitsOfDigits(d);
    NatToStringValue(n);
    assert ParseMagnitude(d) == Some(n);
  }

  /** A numeral has no `0x` prefix: its second character is a digit. */
  lemma NoHexPrefix(d: string)
    requires AllDigits(d)
    ensures !HasHexPrefix(d)
  {
    if |d| >= 2 {
      assert IsDigit(d[1]);
    }
  }
}
