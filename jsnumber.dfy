/** JavaScript's `parseInt(s)` and the `Number(s)` grammar behind the
    source's `isNumeric`, over text. `NaN` is `None`. */
module JsNumber {
  import opened Wrappers
  import opened Text

  predicate IsHexDigit(c: char) { IsDigit(c) || ('a' <= c <= 'f') || ('A' <= c <= 'F') }
  predicate IsOctDigit(c: char) { '0' <= c <= '7' }
  predicate IsBinDigit(c: char) { c == '0' || c == '1' }

  function HexValue(c: char): nat
    requires IsHexDigit(c)
  {
    if IsDigit(c) then c as int - '0' as int
    else if 'a' <= c <= 'f' then c as int - 'a' as int + 10
    else c as int - 'A' as int + 10
  }

  predicate AllHex(s: string) { forall k :: 0 <= k < |s| ==> IsHexDigit(s[k]) }

  /** Length of the longest run of decimal digits at the start of `s`. */
  function DecimalRun(s: string): (n: nat)
    ensures n <= |s| && AllDigits(s[..n])
    ensures n < |s| ==> !IsDigit(s[n])
  {
    if |s| == 0 || !IsDigit(s[0]) then 0
    else
      var m := DecimalRun(s[1..]);
      assert forall k :: 1 <= k < 1 + m ==> s[k] == s[1..][..m][k - 1];
      1 + m
  }

  /** Length of the longest run of hexadecimal digits at the start of `s`. */
  function HexRun(s: string): (n: nat)
    ensures n <= |s| && AllHex(s[..n])
    ensures n < |s| ==> !IsHexDigit(s[n])
  {
    if |s| == 0 || !IsHexDigit(s[0]) then 0
    else
      var m := HexRun(s[1..]);
      assert forall k :: 1 <= k < 1 + m ==> s[k] == s[1..][..m][k - 1];
      1 + m
  }

  /** The value of a run of hexadecimal digits. */
  function HexDigitsValue(s: string): nat
    requires AllHex(s)
  {
    if |s| == 0 then 0 else HexDigitsValue(s[..|s| - 1]) * 16 + HexValue(s[|s| - 1])
  }

  /** The leading decimal digits of `u`; `NaN` without any. */
  function DecimalRead(u: string): Option<nat>
  {
    var n := DecimalRun(u);
    if n == 0 then None else Some(DigitsValue(u[..n]))
  }

  /** The leading hexadecimal digits of `u`; `NaN` without any. */
  function HexRead(u: string): Option<nat>
  {
    var n := HexRun(u);
    if n == 0 then None else Some(HexDigitsValue(u[..n]))
  }

  /** The digits at the start of `u`, in base 16 after a `0x`/`0X` prefix
      and in base 10 otherwise; `NaN` without digits. */
  function ParseUnsigned(u: string): Option<nat>
  {
    if |u| >= 2 && u[0] == '0' && (u[1] == 'x' || u[1] == 'X') then HexRead(u[2..])
    else DecimalRead(u)
  }

  /** `parseInt(s)` with no radix: leading white space and one sign are
      skipped, then the leading digits are read; no digits gives `NaN`. */
  function ParseInt(s: string): Option<int>
  {
    var t := TrimLeft(s);
    if |t| > 0 && t[0] == '-' then
      var m := ParseUnsigned(t[1..]);
      if m.None? then None else Some(0 - m.value as int)
    else if |t| > 0 && t[0] == '+' then ParseUnsigned(t[1..])
    else ParseUnsigned(t)
  }

  /** `parseInt(s, 10)`: as `parseInt(s)`, but only decimal digits are read,
      so `"0x1A"` gives 0. */
  function ParseInt10(s: string): Option<int>
  {
    var t := TrimLeft(s);
    var m := DecimalRead(if |t| > 0 && (t[0] == '-' || t[0] == '+') then t[1..] else t);
    if m.None? then None
    else if |t| > 0 && t[0] == '-' then Some(0 - m.value as int)
    else Some(m.value)
  }

  /** A run of decimal digits reads as its value either way. */
  lemma ParseIntOfDigits(s: string)
    requires |s| > 0 && AllDigits(s)
    ensures ParseInt(s) == ParseInt10(s) == Some(DigitsValue(s))
  {
    assert s + "" == s;
    ParseIntAgrees(s, "");
  }

  /** The two readings differ only on a `0x` prefix: where `parseInt` sees
      a decimal number, `parseInt(s, 10)` sees the same one. */
  lemma ParseIntAgrees(d: string, x: string)
    requires |d| > 0 && AllDigits(d)
    requires |x| > 0 ==> !IsDigit(x[0])
    requires d == "0" && |x| > 0 ==> x[0] != 'x' && x[0] != 'X'
    ensures ParseInt(d + x) == ParseInt10(d + x) == Some(DigitsValue(d))
  {
    var s := d + x;
    assert IsDigit(s[0]);
    UnsignedReadings(s);
    DecimalPrefix(d, x);
  }

  /** Text that starts with a digit has no white space and no sign to skip. */
  lemma UnsignedReadings(s: string)
    requires |s| > 0 && IsDigit(s[0])
    ensures ParseInt(s) == ParseUnsigned(s)
    ensures ParseInt10(s) == DecimalRead(s)
  {
    TrimLeftUnchanged(s);
  }

  /** Digits followed by text that does not continue them read as the digits. */
  lemma DecimalPrefix(d: string, x: string)
    requires |d| > 0 && AllDigits(d)
    requires |x| > 0 ==> !IsDigit(x[0])
    requires d == "0" && |x| > 0 ==> x[0] != 'x' && x[0] != 'X'
    ensures ParseUnsigned(d + x) == DecimalRead(d + x) == Some(DigitsValue(d))
  {
    var u := d + x;
    assert !(|u| >= 2 && u[0] == '0' && (u[1] == 'x' || u[1] == 'X')) by {
      if |d| >= 2 { assert u[1] == d[1]; } else if |x| > 0 { assert u[1] == x[0]; }
    }
    DecimalRunOf(d, x);
    assert u[..|d|] == d;
  }

  lemma {:induction false} DecimalRunOf(d: string, x: string)
    requires AllDigits(d)
    requires |x| > 0 ==> !IsDigit(x[0])
    ensures DecimalRun(d + x) == |d|
    decreases |d|
  {
    if |d| > 0 {
      assert (d + x)[1..] == d[1..] + x;
      DecimalRunOf(d[1..], x);
    } else {
      assert d + x == x;
    }
  }

  lemma DigitsParse(s: string)
    ensures AllDigits(s) && |s| > 0 ==> TrimLeft(s) == s && ParseUnsigned(s) == Some(DigitsValue(s))
  {
    if AllDigits(s) && |s| > 0 {
      assert IsDigit(s[0]);
      TrimLeftUnchanged(s);
      DecimalPrefix(s, "");
      assert s + "" == s;
    }
  }

  /** Printing a number and reading it back with `parseInt` gives the number. */
  lemma ParseIntOfString(i: int)
    ensures ParseInt(IntToString(i)) == Some(i)
  {
    if i >= 0 {
      DigitsOfNat(i);
      ParseIntOfDigits(NatToString(i));
    } else {
      DigitsOfNat(-i);
      var s := IntToString(i);
      assert s[1..] == NatToString(-i);
      NegatedDigits(s);
    }
  }

  /** A minus sign before a run of digits negates their value. */
  lemma NegatedDigits(s: string)
    requires |s| > 1 && s[0] == '-' && AllDigits(s[1..])
    ensures ParseInt(s) == Some(0 - DigitsValue(s[1..]))
  {
    DigitsParse(s[1..]);
    SignedReading(s);
  }

  /** After a minus sign the unsigned reading is negated. */
  lemma SignedReading(s: string)
    requires |s| > 0 && s[0] == '-'
    ensures ParseInt(s) == if ParseUnsigned(s[1..]).None? then None else Some(0 - ParseUnsigned(s[1..]).value as int)
  {
    TrimLeftUnchanged(s);
  }

  /** `parseInt` reads only a leading run of digits: `"2.5"` gives 2. */
  lemma ParseIntStopsAtDot()
    ensures ParseInt("2.5") == Some(2)
  {
    assert "2.5" == "2" + ".5";
    TrimLeftUnchanged("2.5");
    DecimalPrefix("2", ".5");
  }

  /** An exponent is not read either: `"1e5"` gives 1. */
  lemma ParseIntStopsAtExponent()
    ensures ParseInt("1e5") == Some(1)
  {
    assert "1e5" == "1" + "e5";
    TrimLeftUnchanged("1e5");
    DecimalPrefix("1", "e5");
  }

  // ---------------------------------------------------------------------
  // Number(s) is NaN?
  // ---------------------------------------------------------------------

  predicate AllOf(s: string, radix: nat)
  {
    forall k :: 0 <= k < |s| ==>
      if radix == 16 then IsHexDigit(s[k]) else if radix == 8 then IsOctDigit(s[k]) else IsBinDigit(s[k])
  }

  /** `digits ('.' digits?)?` or `'.' digits`, digits possibly empty on one side. */
  predicate IsDecimalMantissa(m: string)
  {
    var dot := IndexOf(m, ".");
    if dot == -1 then |m| > 0 && AllDigits(m)
    else AllDigits(m[..dot]) && AllDigits(m[dot + 1..]) && (dot > 0 || dot + 1 < |m|)
  }

  /** `(e|E) sign? digits`. */
  predicate IsExponent(e: string)
  {
    var d := if |e| > 0 && (e[0] == '+' || e[0] == '-') then e[1..] else e;
    |d| > 0 && AllDigits(d)
  }

  /** An unsigned decimal literal as `Number` reads it. */
  predicate IsUnsignedDecimal(t: string)
  {
    t == "Infinity" ||
    (var eIdx := IndexOf(ToLower(t), "e");
     if eIdx == -1 then IsDecimalMantissa(t)
     else IsDecimalMantissa(t[..eIdx]) && IsExponent(t[eIdx + 1..]))
  }

  /** `Number(s)` is not `NaN`: the trimmed text is empty, a signed decimal
      literal, or a `0x`/`0o`/`0b` integer literal. */
  predicate IsNumberText(s: string)
  {
    var t := Trim(s);
    |t| == 0 ||
    (|t| > 2 && t[0] == '0' && (t[1] == 'x' || t[1] == 'X') && AllOf(t[2..], 16)) ||
    (|t| > 2 && t[0] == '0' && (t[1] == 'o' || t[1] == 'O') && AllOf(t[2..], 8)) ||
    (|t| > 2 && t[0] == '0' && (t[1] == 'b' || t[1] == 'B') && AllOf(t[2..], 2)) ||
    IsUnsignedDecimal(if |t| > 0 && (t[0] == '+' || t[0] == '-') then t[1..] else t)
  }

  /** `isNumeric(value)` of the source: not the empty string and `Number`
      does not give `NaN` (white-space-only text reads as 0). */
  function IsNumeric(s: string): bool
  {
    s != "" && IsNumberText(s)
  }

  /** A run of decimal digits is numeric. */
  lemma DigitsAreNumeric(s: string)
    requires |s| > 0 && AllDigits(s)
    ensures IsNumeric(s)
  {
    DigitsNumberText(s);
  }

  lemma DigitsNumberText(s: string)
    requires |s| > 0 && AllDigits(s)
    ensures IsNumberText(s)
  {
    assert IsDigit(s[0]) && IsDigit(s[|s| - 1]);
    TrimUnchanged(s);
    assert ToLower(s) == s;
    assert "." == ['.'] && "e" == ['e'];
    NoCharIndex(s, '.');
    NoCharIndex(s, 'e');
    assert IsDecimalMantissa(s);
  }
}
