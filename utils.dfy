/** The helpers of `src/lib/utils/utils.ts` that the release engine uses:
    version classification and validation, version shortening, text
    truncation, regular-expression and shell escaping, exit-code checks,
    version-tag substitution and proper casing. */
module Utils {
  import opened Wrappers
  import opened Text
  import opened JsNumber
  import Semver

  // ---------------------------------------------------------------------
  // checkExitCode
  // ---------------------------------------------------------------------

  /** The error `checkExitCode` throws, if any: only a non-zero code with
      `throwOnError` set throws; otherwise the code is only logged. */
  function CheckExitCode(code: int, throwOnError: bool): (r: Option<string>)
    ensures r.Some? <==> code != 0 && throwOnError
    ensures r.Some? ==> StartsWith(r.value, "Sub-process failed with exit code")
  {
    if code != 0 && throwOnError then Some("Sub-process failed with exit code" + IntToString(code)) else None
  }

  // ---------------------------------------------------------------------
  // escapeRegExp
  // ---------------------------------------------------------------------

  /** The characters `escapeRegExp` escapes: `.*+?^${}()|[]\`. */
  predicate IsRegExpSpecial(c: char)
  {
    c == '.' || c == '*' || c == '+' || c == '?' || c == '^' || c == '$' || c == '{' || c == '}' ||
    c == '(' || c == ')' || c == '|' || c == '[' || c == ']' || c == '\\'
  }

  function CountSpecial(s: string): nat
  {
    if |s| == 0 then 0 else (if IsRegExpSpecial(s[0]) then 1 else 0) + CountSpecial(s[1..])
  }

  /** `escapeRegExp(text)`: a backslash before every special character. */
  function EscapeRegExp(text: string): (r: string)
    ensures |r| == |text| + CountSpecial(text)
    ensures CountSpecial(text) == 0 ==> r == text
  {
    if |text| == 0 then ""
    else (if IsRegExpSpecial(text[0]) then ['\\', text[0]] else [text[0]]) + EscapeRegExp(text[1..])
  }

  /** Escaping works character by character, so it distributes over
      concatenation. */
  lemma {:induction false} EscapeConcat(a: string, b: string)
    ensures EscapeRegExp(a + b) == EscapeRegExp(a) + EscapeRegExp(b)
    decreases |a|
  {
    if |a| > 0 {
      assert (a + b)[0] == a[0] && (a + b)[1..] == a[1..] + b;
      EscapeConcat(a[1..], b);
    } else {
      assert a + b == b;
    }
  }

  /** Escaping adds only backslashes: a character other than a backslash
      is in the escaped text only if it was in the text. */
  lemma {:induction false} EscapeNoChar(text: string, c: char)
    requires c != '\\' && NoChar(text, c)
    ensures NoChar(EscapeRegExp(text), c)
    decreases |text|
  {
    if |text| > 0 {
      EscapeNoChar(text[1..], c);
    }
  }

  /** How a regular expression reads escaped text: a backslash stands for
      the character after it. */
  function UnescapeRegExp(s: string): (r: string)
    decreases |s|
  {
    if |s| == 0 then ""
    else if s[0] == '\\' && |s| >= 2 then [s[1]] + UnescapeRegExp(s[2..])
    else [s[0]] + UnescapeRegExp(s[1..])
  }

  /** The escaped text stands for exactly the original text. */
  lemma {:induction false} UnescapeEscape(text: string)
    ensures UnescapeRegExp(EscapeRegExp(text)) == text
    decreases |text|
  {
    if |text| > 0 {
      UnescapeEscape(text[1..]);
      var rest := EscapeRegExp(text[1..]);
      if IsRegExpSpecial(text[0]) {
        assert EscapeRegExp(text) == ['\\', text[0]] + rest;
        assert (['\\', text[0]] + rest)[2..] == rest;
      } else {
        assert EscapeRegExp(text) == [text[0]] + rest;
        assert ([text[0]] + rest)[1..] == rest;
      }
    }
  }

  /** In the escaped text no special character stands unescaped: each one
      directly follows a backslash that itself is not such an escape. */
  lemma {:induction false} EscapedSpecialsArePaired(text: string, i: nat)
    requires i < |text|
    ensures IsRegExpSpecial(text[i]) ==>
      var e := EscapeRegExp(text);
      var j := i + CountSpecial(text[..i]);
      j + 1 < |e| && e[j] == '\\' && e[j + 1] == text[i]
    decreases i
  {
    var e := EscapeRegExp(text);
    var head := if IsRegExpSpecial(text[0]) then ['\\', text[0]] else [text[0]];
    assert e == head + EscapeRegExp(text[1..]);
    if i > 0 {
      EscapedSpecialsArePaired(text[1..], i - 1);
      assert text[..i] == [text[0]] + text[1..][..i - 1];
      assert CountSpecial(text[..i]) == (if IsRegExpSpecial(text[0]) then 1 else 0) + CountSpecial(text[1..][..i - 1]);
    } else {
      assert text[..0] == [];
    }
  }

  // ---------------------------------------------------------------------
  // escapeShellArgs: the repeat helper
  // ---------------------------------------------------------------------

  /** `s` written `n` times. */
  function RepeatSpec(s: string, n: nat): string
  {
    if n == 0 then "" else s + RepeatSpec(s, n - 1)
  }

  lemma {:induction false} RepeatAdd(s: string, a: nat, b: nat)
    ensures RepeatSpec(s, a + b) == RepeatSpec(s, a) + RepeatSpec(s, b)
    decreases a
  {
    if a > 0 {
      RepeatAdd(s, a - 1, b);
      assert a + b - 1 == (a - 1) + b;
    }
  }

  lemma {:induction false} RepeatDouble(s: string, m: nat)
    ensures RepeatSpec(s, 2 * m) == RepeatSpec(s + s, m)
    decreases m
  {
    if m > 0 {
      RepeatDouble(s, m - 1);
      RepeatAdd(s, 2, 2 * (m - 1));
      assert RepeatSpec(s, 2) == s + s;
    }
  }

  /** One round of the doubling loop: the low bit of `n` decides whether
      `s` is appended, and the rest is `n / 2` copies of `s + s`. */
  lemma RepeatHalve(s: string, n: nat)
    requires n > 0
    ensures RepeatSpec(s, n) == (if n % 2 == 1 then s else "") + RepeatSpec(if n > 1 then s + s else s, n / 2)
  {
    if n % 2 == 1 {
      RepeatAdd(s, 1, n - 1);
      RepeatDouble(s, (n - 1) / 2);
      assert RepeatSpec(s, 1) == s;
      assert RepeatSpec(s, 0) == "";
    } else {
      RepeatDouble(s, n / 2);
      assert "" + RepeatSpec(s, n) == RepeatSpec(s, n);
    }
  }

  /** `repeat(s, n)`: repeated doubling, appending `s` for each set bit of `n`. */
  method Repeat(s0: string, n0: nat) returns (result: string)
    ensures result == RepeatSpec(s0, n0)
  {
    result := "";
    var s := s0;
    var n := n0;
    while n > 0
      invariant result + RepeatSpec(s, n) == RepeatSpec(s0, n0)
      decreases n
    {
      RepeatHalve(s, n);
      ghost var next := RepeatSpec(if n > 1 then s + s else s, n / 2);
      if n % 2 == 1 {
        assert (result + s) + next == result + (s + next);
        result := result + s;
      } else {
        assert "" + next == next;
      }
      if n > 1 {
        s := s + s;
      }
      n := n / 2;
    }
  }

  // ---------------------------------------------------------------------
  // escapeShellArgs: POSIX quoting
  // ---------------------------------------------------------------------

  /** Characters that POSIX quoting leaves alone: `[A-Za-z0-9_/:=-]`. */
  predicate IsShellSafe(c: char)
  {
    IsLetter(c) || IsDigit(c) || c == '_' || c == '/' || c == ':' || c == '=' || c == '-'
  }

  predicate AllShellSafe(s: string) { forall i :: 0 <= i < |s| ==> IsShellSafe(s[i]) }

  /** `s.replace(/'/g, "'\\''")`: every single quote closes the quoted text,
      adds an escaped quote and reopens. */
  function QuoteQuotes(s: string): (r: string)
  {
    if |s| == 0 then ""
    else (if s[0] == '\'' then "'\\''" else [s[0]]) + QuoteQuotes(s[1..])
  }

  /** `s.replace(/^(?:'')+/g, "")`: empty quote pairs at the start removed. */
  function StripLeadingPairs(s: string): (r: string)
    ensures EndsWith(s, r)
    decreases |s|
  {
    if |s| >= 2 && s[0] == '\'' && s[1] == '\'' then StripLeadingPairs(s[2..]) else s
  }

  /** `\'''`, an escaped quote followed by an empty quoted string. */
  const EscapedQuoteAndPair: string := "\\'''"
  /** `\'`, an escaped quote. */
  const EscapedQuote: string := "\\'"

  /** One argument as the POSIX branch of `escapeShellArgs` writes it. */
  function PosixEscape(s: string): (r: string)
    ensures AllShellSafe(s) ==> r == s
  {
    if AllShellSafe(s) then s
    else ReplaceAll(StripLeadingPairs("'" + QuoteQuotes(s) + "'"), EscapedQuoteAndPair, EscapedQuote)
  }

  /** Where a POSIX shell is while reading a word. */
  datatype Quoting = Plain | Quoted | Escaped

  /** One character read by the shell: the new state and the text it adds. */
  function ShellStep(q: Quoting, c: char): (Quoting, string)
  {
    match q
    case Plain => if c == '\\' then (Escaped, "") else if c == '\'' then (Quoted, "") else (Plain, [c])
    case Quoted => if c == '\'' then (Plain, "") else (Quoted, [c])
    case Escaped => (Plain, [c])
  }

  /** Text read by the shell from state `q`: the final state and the word. */
  function ShellRun(q: Quoting, s: string): (Quoting, string)
    decreases |s|
  {
    if |s| == 0 then (q, "")
    else
      var step := ShellStep(q, s[0]);
      var rest := ShellRun(step.0, s[1..]);
      (rest.0, step.1 + rest.1)
  }

  /** The word a POSIX shell reads from `s`, if all quotes are closed; an
      empty text is no word at all. */
  function ShellWord(s: string): Option<string>
  {
    var (q, out) := ShellRun(Plain, s);
    if s == "" || q != Plain then None else Some(out)
  }

  lemma {:induction false} ShellRunConcat(q: Quoting, a: string, b: string)
    ensures ShellRun(q, a + b) ==
      (ShellRun(ShellRun(q, a).0, b).0, ShellRun(q, a).1 + ShellRun(ShellRun(q, a).0, b).1)
    decreases |a|
  {
    if |a| > 0 {
      assert (a + b)[0] == a[0];
      assert (a + b)[1..] == a[1..] + b;
      var st := ShellStep(q, a[0]);
      ShellRunConcat(st.0, a[1..], b);
      var ra := ShellRun(st.0, a[1..]);
      var rb := ShellRun(ra.0, b);
      assert ShellRun(q, a) == (ra.0, st.1 + ra.1);
      assert ShellRun(q, a + b) == (rb.0, st.1 + (ra.1 + rb.1));
      assert st.1 + (ra.1 + rb.1) == (st.1 + ra.1) + rb.1;
    } else {
      assert a + b == b;
      assert ShellRun(q, a) == (q, "");
      assert "" + ShellRun(q, b).1 == ShellRun(q, b).1;
    }
  }

  lemma {:induction false} ShellRunSafe(s: string)
    requires AllShellSafe(s)
    ensures ShellRun(Plain, s) == (Plain, s)
    decreases |s|
  {
    if |s| > 0 {
      assert IsShellSafe(s[0]);
      assert AllShellSafe(s[1..]) by {
        forall i | 0 <= i < |s[1..]| ensures IsShellSafe(s[1..][i]) { assert s[1..][i] == s[i + 1]; }
      }
      ShellRunSafe(s[1..]);
      assert s == [s[0]] + s[1..];
    }
  }

  /** Inside single quotes, the quoted text reads back as the original. */
  lemma {:induction false} ShellRunQuoted(s: string, t: string)
    ensures ShellRun(Quoted, QuoteQuotes(s) + t) == (ShellRun(Quoted, t).0, s + ShellRun(Quoted, t).1)
    decreases |s|
  {
    if |s| > 0 {
      var rest := QuoteQuotes(s[1..]) + t;
      ShellRunQuoted(s[1..], t);
      if s[0] == '\'' {
        assert QuoteQuotes(s) + t == "'\\''" + rest;
        ShellRunQuotedQuote(rest);
      } else {
        assert QuoteQuotes(s) + t == [s[0]] + rest;
        ShellRunChar(Quoted, s[0], rest);
      }
      var tt := ShellRun(Quoted, t);
      assert s + tt.1 == [s[0]] + (s[1..] + tt.1);
    } else {
      assert QuoteQuotes(s) + t == t;
      assert s + ShellRun(Quoted, t).1 == ShellRun(Quoted, t).1;
    }
  }

  /** `'\''` inside single quotes reads as one quote and stays quoted. */
  lemma ShellRunQuotedQuote(rest: string)
    ensures ShellRun(Quoted, "'\\''" + rest) == (ShellRun(Quoted, rest).0, "'" + ShellRun(Quoted, rest).1)
  {
    var x := "'\\''" + rest;
    assert x[1..] == "\\''" + rest;
    assert x[1..][1..] == "''" + rest;
    assert x[1..][1..][1..] == "'" + rest;
    assert x[1..][1..][1..][1..] == rest;
    var r := ShellRun(Quoted, rest);
    assert ShellRun(Plain, x[1..][1..][1..]) == (r.0, "" + r.1);
    assert "" + r.1 == r.1;
    assert ShellRun(Escaped, x[1..][1..]) == (r.0, "'" + r.1);
    assert ShellRun(Plain, x[1..]) == (r.0, "" + ("'" + r.1));
    assert ShellRun(Quoted, x) == (r.0, "" + ("" + ("'" + r.1)));
    assert "" + ("" + ("'" + r.1)) == "'" + r.1;
  }

  lemma ShellRunPair(x: string)
    requires |x| >= 2 && x[0] == '\'' && x[1] == '\''
    ensures ShellRun(Plain, x) == ShellRun(Plain, x[2..])
  {
    assert x[1..][1..] == x[2..];
    var r := ShellRun(Plain, x[2..]);
    assert ShellRun(Quoted, x[1..]) == (r.0, "" + r.1);
    assert "" + r.1 == r.1;
    assert "" + ("" + r.1) == r.1;
  }

  lemma {:induction false} StripLeadingPairsMeaning(x: string)
    ensures ShellRun(Plain, StripLeadingPairs(x)) == ShellRun(Plain, x)
    decreases |x|
  {
    if |x| >= 2 && x[0] == '\'' && x[1] == '\'' {
      StripLeadingPairsMeaning(x[2..]);
      ShellRunPair(x);
    }
  }

  /** `\'''` and `\'` take the shell from any state to the same state with
      the same text. */
  lemma SameEffect(q: Quoting)
    ensures ShellRun(q, EscapedQuoteAndPair) == ShellRun(q, EscapedQuote)
  {
    var p, r := EscapedQuoteAndPair, EscapedQuote;
    assert p == "\\" + ("'" + ("'" + ("'" + "")));
    assert r == "\\" + ("'" + "");
    ShellRunChar(q, '\\', "'" + ("'" + ("'" + "")));
    ShellRunChar(q, '\\', "'" + "");
    var q1 := ShellStep(q, '\\').0;
    ShellRunChar(q1, '\'', "'" + ("'" + ""));
    ShellRunChar(q1, '\'', "");
    var q2 := ShellStep(q1, '\'').0;
    ShellRunChar(q2, '\'', "'" + "");
    var q3 := ShellStep(q2, '\'').0;
    ShellRunChar(q3, '\'', "");
    assert ShellStep(q3, '\'').0 == q2;
    assert ShellStep(q2, '\'').1 == "" && ShellStep(q3, '\'').1 == "";
    assert ShellRun(q2, "") == (q2, "");
    var ob, o1 := ShellStep(q, '\\').1, ShellStep(q1, '\'').1;
    assert ShellRun(q3, "'" + "") == (q2, "" + "");
    assert ShellRun(q2, "'" + ("'" + "")) == (q2, "" + ("" + ""));
    assert ShellRun(q1, "'" + ("'" + ("'" + ""))) == (q2, o1 + ("" + ("" + "")));
    assert ShellRun(q1, "'" + "") == (q2, o1 + "");
    assert o1 + ("" + ("" + "")) == o1 + "";
  }

  /** Reading a character and then the rest of the text. */
  lemma ShellRunChar(q: Quoting, c: char, t: string)
    ensures ShellRun(q, [c] + t) ==
      (ShellRun(ShellStep(q, c).0, t).0, ShellStep(q, c).1 + ShellRun(ShellStep(q, c).0, t).1)
  {
    assert ([c] + t)[1..] == t;
  }

  lemma {:induction false} ReplaceAllMeaning(q: Quoting, x: string)
    ensures ShellRun(q, ReplaceAll(x, EscapedQuoteAndPair, EscapedQuote)) == ShellRun(q, x)
    decreases |x|
  {
    var p, r := EscapedQuoteAndPair, EscapedQuote;
    var i := IndexOf(x, p);
    if i != -1 {
      var a, rest := x[..i], x[i + |p|..];
      assert x == a + p + rest;
      assert ReplaceAll(x, p, r) == a + r + ReplaceAll(rest, p, r);
      var q2 := ShellRun(ShellRun(q, a).0, p).0;
      ReplaceAllMeaning(q2, rest);
      ReplaceOnce(q, a, rest, ReplaceAll(rest, p, r));
    }
  }

  /** Replacing one escaped quote and pair by the escaped quote alone, with
      tails the shell reads the same way, reads the same. */
  lemma ReplaceOnce(q: Quoting, a: string, rest: string, rest': string)
    requires var q2 := ShellRun(ShellRun(q, a).0, EscapedQuoteAndPair).0; ShellRun(q2, rest') == ShellRun(q2, rest)
    ensures ShellRun(q, a + EscapedQuote + rest') == ShellRun(q, a + EscapedQuoteAndPair + rest)
  {
    var p, r := EscapedQuoteAndPair, EscapedQuote;
    var q1 := ShellRun(q, a).0;
    SameEffect(q1);
    ShellRunConcat(q, a + p, rest);
    ShellRunConcat(q, a, p);
    ShellRunConcat(q, a + r, rest');
    ShellRunConcat(q, a, r);
  }

  /** A POSIX shell reads every non-empty escaped argument back as the
      original text. */
  lemma PosixEscapeRoundTrip(s: string)
    requires s != ""
    ensures ShellWord(PosixEscape(s)) == Some(s)
  {
    if AllShellSafe(s) {
      ShellRunSafe(s);
    } else {
      var quoted := "'" + QuoteQuotes(s) + "'";
      assert quoted == ['\''] + (QuoteQuotes(s) + "'");
      ShellRunChar(Plain, '\'', QuoteQuotes(s) + "'");
      ShellRunQuoted(s, "'");
      assert "'" == ['\''] + "";
      ShellRunChar(Quoted, '\'', "");
      assert ShellRun(Quoted, "'") == (Plain, "");
      assert "" + (s + "") == s;
      StripLeadingPairsMeaning(quoted);
      ReplaceAllMeaning(Plain, StripLeadingPairs(quoted));
    }
  }

  /** An empty argument is passed through as empty text, so the shell sees
      no word for it at all. */
  lemma PosixEscapeDropsEmpty()
    ensures PosixEscape("") == "" && ShellWord(PosixEscape("")).None?
  {
  }

  // ---------------------------------------------------------------------
  // escapeShellArgs: Windows quoting
  // ---------------------------------------------------------------------

  /** `/[\s\\"]/`: arguments with white space, a backslash or a double quote
      get quoted on Windows. */
  predicate NeedsWinQuoting(s: string)
  {
    exists i :: 0 <= i < |s| && (IsWhiteSpace(s[i]) || s[i] == '\\' || s[i] == '"')
  }

  /** The quoted body after the opening quote, with `b` backslashes read but
      not yet written: backslashes are doubled before a double quote and
      before the closing quote, and kept as they are before anything else. */
  function WinBody(s: string, b: nat): string
    decreases |s|
  {
    if |s| == 0 then RepeatSpec("\\", 2 * b) + "\""
    else if s[0] == '\\' then WinBody(s[1..], b + 1)
    else if s[0] == '"' then RepeatSpec("\\", 2 * b) + "\\\"" + WinBody(s[1..], 0)
    else RepeatSpec("\\", b) + [s[0]] + WinBody(s[1..], 0)
  }

  /** One argument as the Windows branch of `escapeShellArgs` writes it. */
  function WinEscape(s: string): string
  {
    if NeedsWinQuoting(s) then "\"" + WinBody(s, 0) else s
  }

  /** The Windows branch's character loop with its `backslashes` counter and
      `flushBackslashes` helper. */
  method QuoteWinArg(s: string) returns (rep: string)
    ensures rep == "\"" + WinBody(s, 0)
  {
    var backslashes: nat := 0;
    rep := "\"";
    var i := 0;
    while i < |s|
      invariant 0 <= i <= |s|
      invariant rep + WinBody(s[i..], backslashes) == "\"" + WinBody(s, 0)
    {
      var c := s[i];
      assert s[i..][1..] == s[i + 1..];
      if c == '\\' {
        backslashes := backslashes + 1;
      } else if c == '"' {
        var flushed := Repeat("\\", 2 * backslashes);
        rep := rep + flushed;
        backslashes := 0;
        rep := rep + "\\\"";
      } else {
        var flushed := Repeat("\\", backslashes);
        rep := rep + flushed;
        backslashes := 0;
        rep := rep + [c];
      }
      i := i + 1;
    }
    var flushed := Repeat("\\", 2 * backslashes);
    rep := rep + flushed;
    rep := rep + "\"";
  }

  /** How the Microsoft C runtime reads one argument: `inQuote` says whether
      a double quote is open and `b` counts backslashes read but not yet
      resolved; a double quote after `2n` backslashes gives `n` backslashes
      and toggles quoting, after `2n+1` it gives `n` backslashes and a
      literal quote. White space outside quotes would end the argument,
      which gives `None`. */
  function WinDecode(inQuote: bool, b: nat, s: string): Option<string>
    decreases |s|
  {
    if |s| == 0 then Some(RepeatSpec("\\", b))
    else if s[0] == '\\' then WinDecode(inQuote, b + 1, s[1..])
    else if s[0] == '"' then
      match WinDecode(if b % 2 == 0 then !inQuote else inQuote, 0, s[1..])
      case Some(rest) => Some(RepeatSpec("\\", b / 2) + (if b % 2 == 0 then "" else "\"") + rest)
      case None => None
    else if !inQuote && IsWhiteSpace(s[0]) then None
    else
      match WinDecode(inQuote, 0, s[1..])
      case Some(rest) => Some(RepeatSpec("\\", b) + [s[0]] + rest)
      case None => None
  }

  lemma {:induction false} WinDecodeBackslashes(inQuote: bool, b: nat, m: nat, t: string)
    ensures WinDecode(inQuote, b, RepeatSpec("\\", m) + t) == WinDecode(inQuote, b + m, t)
    decreases m
  {
    if m > 0 {
      var x := RepeatSpec("\\", m) + t;
      assert x == "\\" + (RepeatSpec("\\", m - 1) + t);
      assert x[1..] == RepeatSpec("\\", m - 1) + t;
      WinDecodeBackslashes(inQuote, b + 1, m - 1, t);
    } else {
      assert RepeatSpec("\\", 0) + t == t;
    }
  }

  /** Reading the quoted body back gives the pending backslashes and the text. */
  lemma {:induction false} WinDecodeBody(s: string, b: nat)
    ensures WinDecode(true, 0, WinBody(s, b)) == Some(RepeatSpec("\\", b) + s)
    decreases |s|
  {
    if |s| == 0 {
      WinDecodeClose(b);
      assert RepeatSpec("\\", b) + s == RepeatSpec("\\", b);
    } else if s[0] == '\\' {
      WinDecodeBody(s[1..], b + 1);
      WinBodyBackslash(s, b);
    } else {
      WinDecodeBody(s[1..], 0);
      assert RepeatSpec("\\", 0) + s[1..] == s[1..];
      if s[0] == '"' {
        WinBodyQuote(s, b);
      } else {
        WinBodyOther(s, b);
      }
    }
  }

  /** A backslash joins the pending ones. */
  lemma WinBodyBackslash(s: string, b: nat)
    requires |s| > 0 && s[0] == '\\'
    requires WinDecode(true, 0, WinBody(s[1..], b + 1)) == Some(RepeatSpec("\\", b + 1) + s[1..])
    ensures WinDecode(true, 0, WinBody(s, b)) == Some(RepeatSpec("\\", b) + s)
  {
    RepeatAdd("\\", b, 1);
    assert RepeatSpec("\\", 1) == "\\";
    assert s == "\\" + s[1..];
    assert (RepeatSpec("\\", b) + "\\") + s[1..] == RepeatSpec("\\", b) + s;
  }

  /** A quote ends the pending backslashes, doubled, and is escaped. */
  lemma WinBodyQuote(s: string, b: nat)
    requires |s| > 0 && s[0] == '"'
    requires WinDecode(true, 0, WinBody(s[1..], 0)) == Some(s[1..])
    ensures WinDecode(true, 0, WinBody(s, b)) == Some(RepeatSpec("\\", b) + s)
  {
    WinBodyAtQuote(s, b);
    WinDecodeQuote(b, WinBody(s[1..], 0), s[1..]);
    HeadBack(RepeatSpec("\\", b), s);
  }

  lemma WinBodyAtQuote(s: string, b: nat)
    requires |s| > 0 && s[0] == '"'
    ensures WinBody(s, b) == RepeatSpec("\\", 2 * b) + "\\\"" + WinBody(s[1..], 0)
  {
  }

  /** Putting the first character back in front of the rest. */
  lemma HeadBack(p: string, s: string)
    requires |s| > 0
    ensures p + [s[0]] + s[1..] == p + s
  {
    assert [s[0]] + s[1..] == s;
  }

  /** Any other character ends the pending backslashes as they are. */
  lemma WinBodyOther(s: string, b: nat)
    requires |s| > 0 && s[0] != '\\' && s[0] != '"'
    requires WinDecode(true, 0, WinBody(s[1..], 0)) == Some(s[1..])
    ensures WinDecode(true, 0, WinBody(s, b)) == Some(RepeatSpec("\\", b) + s)
  {
    WinBodyAtOther(s, b);
    WinDecodeOther(b, s[0], WinBody(s[1..], 0), s[1..]);
    HeadBack(RepeatSpec("\\", b), s);
  }

  lemma WinBodyAtOther(s: string, b: nat)
    requires |s| > 0 && s[0] != '\\' && s[0] != '"'
    ensures WinBody(s, b) == RepeatSpec("\\", b) + [s[0]] + WinBody(s[1..], 0)
  {
  }

  lemma WinDecodeClose(b: nat)
    ensures WinDecode(true, 0, WinBody("", b)) == Some(RepeatSpec("\\", b))
  {
    WinDecodeBackslashes(true, 0, 2 * b, "\"");
    assert "\""[1..] == "";
    assert (2 * b) / 2 == b && (2 * b) % 2 == 0;
    assert RepeatSpec("\\", b) + "" + "" == RepeatSpec("\\", b);
  }

  /** One character read inside quotes after `b` pending backslashes. */
  lemma WinDecodeChar(b: nat, c: char, rest: string)
    requires c != '\\'
    ensures WinDecode(true, b, [c] + rest) ==
      match WinDecode(if c == '"' && b % 2 == 0 then false else true, 0, rest)
      case Some(r) =>
        Some(if c == '"' then RepeatSpec("\\", b / 2) + (if b % 2 == 0 then "" else "\"") + r
             else RepeatSpec("\\", b) + [c] + r)
      case None => None
  {
    assert ([c] + rest)[0] == c && ([c] + rest)[1..] == rest;
  }

  /** An escaped double quote after `2b` doubled backslashes reads back as
      `b` backslashes and a quote. */
  lemma WinDecodeQuote(b: nat, rest: string, rs: string)
    requires WinDecode(true, 0, rest) == Some(rs)
    ensures WinDecode(true, 0, RepeatSpec("\\", 2 * b) + "\\\"" + rest) == Some(RepeatSpec("\\", b) + "\"" + rs)
  {
    var x := "\"" + rest;
    assert RepeatSpec("\\", 2 * b) + "\\\"" + rest == RepeatSpec("\\", 2 * b + 1) + x by {
      RepeatAdd("\\", 2 * b, 1);
      assert RepeatSpec("\\", 1) == "\\";
    }
    WinDecodeBackslashes(true, 0, 2 * b + 1, x);
    assert x == ['"'] + rest;
    WinDecodeChar(2 * b + 1, '"', rest);
    assert (2 * b + 1) / 2 == b && (2 * b + 1) % 2 == 1;
  }

  /** Any other character after `b` backslashes reads back as it is. */
  lemma WinDecodeOther(b: nat, c: char, rest: string, rs: string)
    requires c != '"' && c != '\\'
    requires WinDecode(true, 0, rest) == Some(rs)
    ensures WinDecode(true, 0, RepeatSpec("\\", b) + [c] + rest) == Some(RepeatSpec("\\", b) + [c] + rs)
  {
    var x := [c] + rest;
    assert RepeatSpec("\\", b) + [c] + rest == RepeatSpec("\\", b) + x;
    WinDecodeBackslashes(true, 0, b, x);
    WinDecodeChar(b, c, rest);
  }

  lemma {:induction false} WinDecodePlain(s: string)
    requires !NeedsWinQuoting(s)
    ensures WinDecode(false, 0, s) == Some(s)
    decreases |s|
  {
    if |s| > 0 {
      assert !IsWhiteSpace(s[0]) && s[0] != '\\' && s[0] != '"';
      assert !NeedsWinQuoting(s[1..]) by {
        forall i | 0 <= i < |s[1..]| ensures !(IsWhiteSpace(s[1..][i]) || s[1..][i] == '\\' || s[1..][i] == '"') {
          assert s[1..][i] == s[i + 1];
        }
      }
      WinDecodePlain(s[1..]);
      assert RepeatSpec("\\", 0) == "";
      assert WinDecode(false, 0, s) == Some(RepeatSpec("\\", 0) + [s[0]] + s[1..]);
      assert RepeatSpec("\\", 0) + [s[0]] + s[1..] == s;
    }
  }

  /** The argument the C runtime reads from `s`; empty text is none. */
  function WinArg(s: string): Option<string>
  {
    if s == "" then None else WinDecode(false, 0, s)
  }

  /** The C runtime reads every non-empty Windows-escaped argument back as
      the original. */
  lemma WinEscapeRoundTrip(s: string)
    requires s != ""
    ensures WinArg(WinEscape(s)) == Some(s)
  {
    if NeedsWinQuoting(s) {
      var x := "\"" + WinBody(s, 0);
      assert x[0] == '"' && x[1..] == WinBody(s, 0);
      WinDecodeBody(s, 0);
      assert RepeatSpec("\\", 0) == "";
      assert RepeatSpec("\\", 0) + s == s;
      assert WinDecode(false, 0, x) == Some(RepeatSpec("\\", 0) + "" + s);
      assert RepeatSpec("\\", 0) + "" + s == s;
    } else {
      WinDecodePlain(s);
    }
  }

  /** One argument escaped for the platform's shell. */
  function ShellEscaped(win32: bool, a: string): string
  {
    if win32 then WinEscape(a) else PosixEscape(a)
  }

  /** The platform's shell reads an escaped non-empty argument back as the
      argument. */
  lemma ShellEscapedRoundTrip(win32: bool, a: string)
    requires a != ""
    ensures win32 ==> WinArg(ShellEscaped(win32, a)) == Some(a)
    ensures !win32 ==> ShellWord(ShellEscaped(win32, a)) == Some(a)
  {
    if win32 { WinEscapeRoundTrip(a); } else { PosixEscapeRoundTrip(a); }
  }

  /** `escapeShellArgs(asString, ...args)`: each argument escaped for the
      platform's shell; the joined text is what `asString` returns. */
  method EscapeShellArgs(win32: bool, args: seq<string>) returns (ret: seq<string>, joined: string)
    ensures |ret| == |args|
    ensures forall i :: 0 <= i < |args| ==> ret[i] == ShellEscaped(win32, args[i])
    ensures !win32 ==> forall i :: 0 <= i < |args| && args[i] != "" ==> ShellWord(ret[i]) == Some(args[i])
    ensures win32 ==> forall i :: 0 <= i < |args| && args[i] != "" ==> WinArg(ret[i]) == Some(args[i])
    ensures joined == Join(ret, " ")
  {
    ret := [];
    var i := 0;
    while i < |args|
      invariant 0 <= i <= |args|
      invariant |ret| == i
      invariant forall k :: 0 <= k < i ==> ret[k] == ShellEscaped(win32, args[k])
    {
      var s := args[i];
      if win32 {
        if NeedsWinQuoting(s) {
          s := QuoteWinArg(s);
        }
      } else {
        s := PosixEscape(s);
      }
      assert s == ShellEscaped(win32, args[i]);
      ret := ret + [s];
      i := i + 1;
    }
    forall k | 0 <= k < |args| && args[k] != ""
      ensures (!win32 ==> ShellWord(ret[k]) == Some(args[k])) && (win32 ==> WinArg(ret[k]) == Some(args[k]))
    {
      ShellEscapedRoundTrip(win32, args[k]);
    }
    joined := Join(ret, " ");
  }

  // ---------------------------------------------------------------------
  // Version helpers
  // ---------------------------------------------------------------------

  /** `getVersionSystem(version)`: an empty version, or one that stays
      valid semver once cleaned, is "semver"; anything else "incremental". */
  function GetVersionSystem(version: string): (r: string)
    ensures r == "semver" || r == "incremental"
  {
    if version == "" || Semver.CleansToValid(version) then "semver" else "incremental"
  }

  /** A well-formed version's own text is classified "semver". */
  lemma VersionTextIsSemver(v: Semver.Version)
    requires Semver.WellFormed(v) && |Semver.Format(v)| <= Semver.MaxLength
    ensures GetVersionSystem(Semver.Format(v)) == "semver"
  {
    var s := Semver.Format(v);
    FormatCleans(v);
    Semver.ParseFormat(v);
    CleanValidIsSemver(s, s);
  }

  /** A formatted version comes out of `clean` unchanged. */
  lemma FormatCleans(v: Semver.Version)
    requires Semver.WellFormed(v) && |Semver.Format(v)| <= Semver.MaxLength
    ensures Semver.Clean(Semver.Format(v)) == Some(Semver.Format(v))
  {
    var s := Semver.Format(v);
    Semver.TrimFormat(v);
    Semver.StripEqVNone(s);
    Semver.ParseFormat(v);
  }

  /** Text that cleans to a valid version is classified "semver". */
  lemma CleanValidIsSemver(s: string, c: string)
    requires s != "" && Semver.Clean(s) == Some(c) && Semver.Parse(c).Some?
    ensures GetVersionSystem(s) == "semver"
  {
  }

  /** A plain number is classified "incremental": it has no dots, so it is
      not a version even after cleaning. */
  lemma NumberTextIsIncremental(s: string)
    requires |s| > 0 && AllDigits(s)
    ensures GetVersionSystem(s) == "incremental"
  {
    NumberTextNotClean(s);
    UncleanIsIncremental(s);
  }

  /** A plain number does not survive `clean`. */
  lemma NumberTextNotClean(s: string)
    requires |s| > 0 && AllDigits(s)
    ensures Semver.Clean(s).None?
  {
    assert IsDigit(s[0]) && IsDigit(s[|s| - 1]);
    TrimUnchanged(s);
    Semver.StripEqVNone(s);
    NumberTextNotVersion(s);
  }

  lemma UncleanIsIncremental(s: string)
    requires s != "" && Semver.Clean(s).None?
    ensures GetVersionSystem(s) == "incremental"
  {
  }

  lemma NumberTextNotVersion(s: string)
    requires |s| > 0 && AllDigits(s)
    ensures Semver.Parse(s).None?
  {
    assert IsDigit(s[0]) && IsDigit(s[|s| - 1]);
    TrimUnchanged(s);
    Semver.SectionsPlain(s);
    Semver.SplitPlain(s, '.');
    Semver.ParseSectionsShort(s, None, None);
  }

  /** JavaScript's `parseInt(a, 10) > parseInt(b)`: false when either is `NaN`. */
  predicate IntGreater(a: Option<int>, b: Option<int>)
  {
    a.Some? && b.Some? && a.value > b.value
  }

  /** The incremental rule of `validateVersion`. */
  predicate IncrementalValid(version: string, lastVersion: string)
  {
    IsNumeric(version) &&
    (lastVersion == "" || !IsNumeric(lastVersion) || IntGreater(ParseInt10(version), ParseInt(lastVersion)))
  }

  /** The semver rule of `validateVersion`; `gt` throws for an invalid last
      version. */
  function SemverValid(version: string, lastVersion: string): (r: Result<bool>)
    ensures r.Err? <==> Semver.Parse(version).Some? && lastVersion != "" && Semver.Parse(lastVersion).None?
    ensures r == Ok(true) <==>
      Semver.Parse(version).Some? &&
      (lastVersion == "" ||
       (Semver.Parse(lastVersion).Some? && Semver.Cmp(Semver.Parse(lastVersion).value, Semver.Parse(version).value) < 0))
  {
    if Semver.Valid(version).None? then Ok(false)
    else if lastVersion == "" then Ok(true)
    else Semver.Gt(version, lastVersion)
  }

  /** `validateVersion(version, system, lastVersion)`. An empty
      `lastVersion` or `system` stands for an absent one. */
  function ValidateVersion(version: string, system: string, lastVersion: string): (r: Result<bool>)
    ensures system == "incremental" ==> r == Ok(IncrementalValid(version, lastVersion))
    ensures system != "incremental" && system != "" && system != "auto" ==> r == SemverValid(version, lastVersion)
    ensures (system == "" || system == "auto") ==>
      (r.Err? <==> SemverValid(version, lastVersion).Err?) &&
      (r.Ok? ==> r.value == (SemverValid(version, lastVersion) == Ok(true) || IncrementalValid(version, lastVersion)))
  {
    if system == "" || system == "auto" then
      match SemverValid(version, lastVersion)
      case Err(m) => Err(m)
      case Ok(b) => Ok(b || IncrementalValid(version, lastVersion))
    else if system != "incremental" then SemverValid(version, lastVersion)
    else Ok(IncrementalValid(version, lastVersion))
  }

  /** A version produced by `inc` from the last version passes the semver
      check against it. */
  lemma IncPassesValidation(last: string, release: string)
    requires Semver.Parse(last).Some? && Semver.IsReleaseType(release) && release != "pre"
    requires var w := Semver.IncVersion(Semver.Parse(last).value, release, "").value;
      Semver.WellFormed(w) && |Semver.Format(w)| <= Semver.MaxLength
    ensures ValidateVersion(Semver.Inc(last, release, "").value, "semver", last) == Ok(true)
  {
    var v := Semver.Parse(last).value;
    var w := Semver.IncVersion(v, release, "").value;
    Semver.IncIncreases(v, release, "");
    GreaterPassesValidation(last, w);
  }

  /** Any well-formed version above the last one passes the semver check. */
  lemma GreaterPassesValidation(last: string, w: Semver.Version)
    requires Semver.Parse(last).Some?
    requires Semver.WellFormed(w) && |Semver.Format(w)| <= Semver.MaxLength
    requires Semver.Cmp(w, Semver.Parse(last).value) == 1
    ensures ValidateVersion(Semver.Format(w), "semver", last) == Ok(true)
  {
    Semver.ParseFormat(w);
    Semver.CmpAntisym(w, Semver.Parse(last).value);
  }

  /** The next incremental number passes the incremental check against the
      last one, and the last one does not pass against the next. */
  lemma NextNumberPassesValidation(n: nat)
    ensures ValidateVersion(NatToString(n + 1), "incremental", NatToString(n)) == Ok(true)
    ensures ValidateVersion(NatToString(n), "incremental", NatToString(n + 1)) == Ok(false)
  {
    var a, b := NatToString(n), NatToString(n + 1);
    DigitsOfNat(n);
    DigitsOfNat(n + 1);
    NumbersCompare(b, a);
    NumbersCompare(a, b);
  }

  /** Between two plain numbers the incremental check compares their
      values. */
  lemma NumbersCompare(version: string, lastVersion: string)
    requires |version| > 0 && AllDigits(version) && |lastVersion| > 0 && AllDigits(lastVersion)
    ensures ValidateVersion(version, "incremental", lastVersion) == Ok(DigitsValue(version) > DigitsValue(lastVersion))
  {
    ParseIntOfDigits(version);
    ParseIntOfDigits(lastVersion);
    DigitsAreNumeric(version);
    DigitsAreNumeric(lastVersion);
    IncrementalOfReadings(version, lastVersion, DigitsValue(version), DigitsValue(lastVersion));
  }

  /** Two numeric texts compare by their `parseInt` readings. */
  lemma IncrementalOfReadings(version: string, lastVersion: string, a: int, b: int)
    requires IsNumeric(version) && IsNumeric(lastVersion)
    requires ParseInt10(version) == Some(a) && ParseInt(lastVersion) == Some(b)
    ensures ValidateVersion(version, "incremental", lastVersion) == Ok(a > b)
  {
  }


  /** `shortVersion(version)`: at most the first three dot-separated parts. */
  function ShortVersion(version: string): (r: string)
    ensures StartsWith(version, r)
    ensures |Split(version, '.')| <= 3 ==> r == version
    ensures |Split(version, '.')| > 3 ==> Split(r, '.') == Split(version, '.')[..3]
  {
    if version == "" then ""
    else if LastIndexOfChar(version, '.') == -1 then
      NoCharIndex(version, '.');
      version
    else
      var parts := Split(version, '.');
      if |parts| <= 3 then version
      else
        ShortVersionPrefix(version);
        parts[0] + "." + parts[1] + "." + parts[2]
  }

  lemma ShortVersionPrefix(version: string)
    requires |Split(version, '.')| > 3
    ensures var p := Split(version, '.');
      StartsWith(version, p[0] + "." + p[1] + "." + p[2]) &&
      Split(p[0] + "." + p[1] + "." + p[2], '.') == p[..3]
  {
    var p := Split(version, '.');
    assert StartsWith(version, p[0] + "." + p[1] + "." + p[2]) by {
      JoinSplit(version, '.');
      JoinThree(p);
    }
    assert Split(p[0] + "." + p[1] + "." + p[2], '.') == p[..3] by {
      JoinFirstThree(p);
      SplitNoChar(version, '.');
      SplitJoin(p[..3], '.');
    }
  }

  lemma JoinFirstThree(p: seq<string>)
    requires |p| >= 3
    ensures Join(p[..3], ".") == p[0] + "." + p[1] + "." + p[2]
  {
    var q := p[..3];
    assert q[1..][1..] == [p[2]];
    assert Join(q[1..], ".") == p[1] + "." + p[2];
  }

  lemma JoinThree(p: seq<string>)
    requires |p| > 3
    ensures StartsWith(Join(p, "."), p[0] + "." + p[1] + "." + p[2])
  {
    var j3 := Join(p[3..], ".");
    assert p[1..][1..] == p[2..];
    assert p[2..][1..] == p[3..];
    assert Join(p[2..], ".") == p[2] + "." + j3;
    assert Join(p[1..], ".") == p[1] + "." + (p[2] + "." + j3);
    assert Join(p, ".") == p[0] + "." + (p[1] + "." + (p[2] + "." + j3));
    var pre := p[0] + "." + p[1] + "." + p[2];
    assert Join(p, ".") == pre + ("." + j3);
  }

  /** `textWithEllipses(text, maxlength)` with 0 for an absent `maxlength`:
      text longer than the limit is cut to `maxlength - 3` characters and
      `"..."` is appended. */
  function TextWithEllipses(text: string, maxlength: int): (r: string)
    ensures text == "" || maxlength == 0 || |text| <= maxlength ==> r == text
    ensures text != "" && maxlength != 0 && |text| > maxlength ==>
      EndsWith(r, "...") && StartsWith(text, r[..|r| - 3]) &&
      |r| == (if maxlength < 3 then 3 else maxlength)
  {
    if text != "" && maxlength != 0 && |text| > maxlength then
      var cut := if maxlength - 3 < 0 then 0 else maxlength - 3;
      var r := text[..cut] + "...";
      assert r[..|r| - 3] == text[..cut];
      r
    else text
  }

  // ---------------------------------------------------------------------
  // replaceVersionTag
  // ---------------------------------------------------------------------

  /** Length of the opening `---` or `$(` at the start of `s`, or 0. */
  function OpenLen(s: string): nat
  {
    if StartsWith(s, "---") then 3 else if StartsWith(s, "$(") then 2 else 0
  }

  /** Length of the closing `---` or `)` at the start of `s`, or 0. */
  function CloseLen(s: string): nat
  {
    if StartsWith(s, "---") then 3 else if StartsWith(s, ")") then 1 else 0
  }

  /** Length of the tag `(---|$()NAME(---|))` at the start of `s`, if any. */
  function TagAt(s: string, name: string): (r: Option<nat>)
    ensures r.Some? ==> r.value <= |s| && |name| < r.value && Contains(s, name)
  {
    var open := OpenLen(s);
    if open == 0 || !StartsWith(s[open..], name) then None
    else
      var close := CloseLen(s[open + |name|..]);
      if close == 0 then None
      else
        assert OccursAt(s, name, open) by { assert s[open..][..|name|] == s[open..open + |name|]; }
        Some(open + |name| + close)
  }

  /** `s.replace(/(?:---|\$\()NAME(?:---|\))/g, value)`: every tag, found
      left to right, replaced by the value. */
  function ReplaceTag(s: string, name: string, value: string): (r: string)
    decreases |s|
  {
    if |s| == 0 then ""
    else match TagAt(s, name)
      case Some(n) => value + ReplaceTag(s[n..], name, value)
      case None => [s[0]] + ReplaceTag(s[1..], name, value)
  }

  /** `replaceVersionTag(context, text)`: `VERSION` and `NEXTVERSION` tags
      become the next version, `LASTVERSION` tags the last version, which
      is the text `undefined` when there is no last release. */
  function ReplaceVersionTag(text: string, nextVersion: string, lastVersion: Option<string>): string
  {
    ReplaceTag(ReplaceTag(ReplaceTag(text, "VERSION", nextVersion), "NEXTVERSION", nextVersion), "LASTVERSION", Shown(lastVersion))
  }

  /** Text without the tag name is left unchanged. */
  lemma {:induction false} ReplaceTagAbsent(s: string, name: string, value: string)
    requires !Contains(s, name)
    ensures ReplaceTag(s, name, value) == s
    decreases |s|
  {
    if |s| > 0 {
      assert !Contains(s[1..], name) by {
        forall k | 0 <= k <= |s[1..]| ensures !OccursAt(s[1..], name, k) {
          OccursShift(s, name, k, 1);
        }
      }
      ReplaceTagAbsent(s[1..], name, value);
      assert s == [s[0]] + s[1..];
    }
  }

  /** Text with no `VERSION` in it passes `replaceVersionTag` unchanged. */
  lemma ReplaceVersionTagNoTag(text: string, nextVersion: string, lastVersion: Option<string>)
    requires !Contains(text, "VERSION")
    ensures ReplaceVersionTag(text, nextVersion, lastVersion) == text
  {
    ReplaceTagAbsent(text, "VERSION", nextVersion);
    ContainsWithin(text, "NEXTVERSION", "VERSION", 4);
    ReplaceTagAbsent(text, "NEXTVERSION", nextVersion);
    ContainsWithin(text, "LASTVERSION", "VERSION", 4);
    ReplaceTagAbsent(text, "LASTVERSION", Shown(lastVersion));
  }

  lemma ContainsWithin(s: string, big: string, small: string, at: nat)
    requires at + |small| <= |big| && big[at..at + |small|] == small
    requires !Contains(s, small)
    ensures !Contains(s, big)
  {
    forall k | 0 <= k <= |s| ensures OccursAt(s, big, k) ==> OccursAt(s, small, k + at) && k + at <= |s| {
      OccursWithin(s, big, small, at, k);
    }
  }

  lemma OccursWithin(s: string, big: string, small: string, at: nat, k: int)
    requires at + |small| <= |big| && big[at..at + |small|] == small
    ensures OccursAt(s, big, k) ==> OccursAt(s, small, k + at) && k + at <= |s|
  {
    if OccursAt(s, big, k) {
      var w := s[k..k + |big|];
      assert w == big;
      var u := s[k + at..k + at + |small|];
      forall j | 0 <= j < |small| ensures u[j] == small[j] {
        assert w[at + j] == s[k + at + j];
        assert big[at..at + |small|][j] == big[at + j];
      }
      assert u == small;
    }
  }

  /** The tag `$(NAME)`, or `---NAME---` when `dashes`. */
  function Tag(name: string, dashes: bool): string
  {
    Opener(dashes) + (name + Closer(dashes))
  }

  function Opener(dashes: bool): string { if dashes then "---" else "$(" }
  function Closer(dashes: bool): string { if dashes then "---" else ")" }

  /** Whether a tag of `name` could open at `k`: `---` or `$(` followed by
      the first letter of the name. */
  predicate OpensTag(s: string, name: string, k: nat)
  {
    |name| > 0 &&
    ((k + 3 < |s| && s[k] == '-' && s[k + 1] == '-' && s[k + 2] == '-' && s[k + 3] == name[0]) ||
     (k + 2 < |s| && s[k] == '$' && s[k + 1] == '(' && s[k + 2] == name[0]))
  }

  /** Text in which no tag can open: no `$` and no `-`. */
  predicate OpenerFree(s: string)
  {
    NoChar(s, '$') && NoChar(s, '-')
  }

  /** No `$` and never two `-` in a row, as in a version such as
      `1.2.0-beta.1`. */
  predicate SingleDashes(s: string)
  {
    NoChar(s, '$') && forall i :: 0 <= i < |s| - 1 && s[i] == '-' ==> s[i + 1] != '-'
  }

  lemma NoTagHere(s: string, name: string, k: nat)
    requires k < |s| && |name| > 0 && !OpensTag(s, name, k)
    ensures TagAt(s[k..], name).None?
  {
    var t := s[k..];
    if StartsWith(t, "---") {
      assert t[0] == s[k] && t[1] == s[k + 1] && t[2] == s[k + 2];
      if k + 3 < |s| {
        assert t[3..][0] == s[k + 3];
      }
    } else if StartsWith(t, "$(") {
      assert t[0] == s[k] && t[1] == s[k + 1];
      if k + 2 < |s| {
        assert t[2..][0] == s[k + 2];
      }
    }
  }

  /** The tag finder of `name`, as a value. */
  function TagFinder(name: string): string -> Option<nat>
  {
    x => TagAt(x, name)
  }

  /** A global `replace` driven by a tag finder `at`: each tag it reports,
      left to right, replaced by the value. */
  function ReplaceWith(s: string, at: string -> Option<nat>, value: string): string
    decreases |s|
  {
    if |s| == 0 then ""
    else if at(s).Some? && 0 < at(s).value <= |s| then value + ReplaceWith(s[at(s).value..], at, value)
    else [s[0]] + ReplaceWith(s[1..], at, value)
  }

  /** `ReplaceTag` is the replacement driven by the tag finder of `name`. */
  lemma {:induction false} ReplaceTagWith(s: string, name: string, value: string)
    ensures ReplaceTag(s, name, value) == ReplaceWith(s, TagFinder(name), value)
    decreases |s|
  {
    if |s| > 0 {
      assert TagFinder(name)(s) == TagAt(s, name);
      match TagAt(s, name)
      case Some(n) => ReplaceTagWith(s[n..], name, value);
      case None => ReplaceTagWith(s[1..], name, value);
    }
  }

  /** Over a stretch where the finder reports no tag, the text is copied. */
  lemma {:induction false} WalkWith(s: string, at: string -> Option<nat>, value: string, i: nat)
    requires i <= |s|
    requires forall k :: 0 <= k < i ==> at(s[k..]).None?
    ensures ReplaceWith(s, at, value) == s[..i] + ReplaceWith(s[i..], at, value)
    decreases i
  {
    if i > 0 {
      var t := s[1..];
      assert s[0..] == s;
      forall k | 0 <= k < i - 1 ensures at(t[k..]).None? {
        assert t[k..] == s[k + 1..];
      }
      WalkWith(t, at, value, i - 1);
      assert t[i - 1..] == s[i..];
      assert s[..i] == [s[0]] + t[..i - 1];
    }
  }

  /** Over a stretch where no tag opens, `replace` copies the text. */
  lemma ReplaceTagWalk(s: string, name: string, value: string, i: nat)
    requires i <= |s| && |name| > 0
    requires forall k :: 0 <= k < i ==> !OpensTag(s, name, k)
    ensures ReplaceTag(s, name, value) == s[..i] + ReplaceTag(s[i..], name, value)
  {
    var at := TagFinder(name);
    forall k | 0 <= k < i ensures at(s[k..]).None? {
      NoTagHere(s, name, k);
    }
    WalkWith(s, at, value, i);
    ReplaceTagWith(s, name, value);
    ReplaceTagWith(s[i..], name, value);
  }

  /** `replace` copies a prefix in which no tag opens. */
  lemma ReplaceTagPrefix(a: string, u: string, name: string, value: string)
    requires OpenerFree(a) && |name| > 0
    ensures ReplaceTag(a + u, name, value) == a + ReplaceTag(u, name, value)
  {
    var s := a + u;
    forall k | 0 <= k < |a| ensures !OpensTag(s, name, k) {
      assert s[k] == a[k];
    }
    ReplaceTagWalk(s, name, value, |a|);
    assert s[..|a|] == a && s[|a|..] == u;
  }

  /** Text in which no tag of `name` opens is left as it is. */
  lemma ReplaceTagNone(s: string, name: string, value: string)
    requires |name| > 0
    requires forall k :: 0 <= k < |s| ==> !OpensTag(s, name, k)
    ensures ReplaceTag(s, name, value) == s
  {
    ReplaceTagWalk(s, name, value, |s|);
    assert s[..|s|] == s;
  }

  /** A tag of `name` at the start is replaced by the value. */
  lemma ReplaceTagHit(name: string, dashes: bool, b: string, value: string)
    requires |name| > 0 && NoChar(name, '-') && NoChar(name, ')')
    ensures ReplaceTag(Tag(name, dashes) + b, name, value) == value + ReplaceTag(b, name, value)
  {
    var t := Tag(name, dashes);
    TagAtTag(name, dashes, b);
    ReplaceTagWith(t + b, name, value);
    ReplaceTagWith(b, name, value);
    assert (t + b)[|t|..] == b;
  }

  /** The tag finder reports the whole tag. */
  lemma TagAtTag(name: string, dashes: bool, b: string)
    requires |name| > 0 && NoChar(name, '-') && NoChar(name, ')')
    ensures TagFinder(name)(Tag(name, dashes) + b) == Some(|Tag(name, dashes)|)
  {
    var o := Opener(dashes);
    var c := Closer(dashes);
    var s := Tag(name, dashes) + b;
    assert s == o + (name + (c + b));
    OpenLenOf(dashes, name + (c + b));
    Glue(o, name + (c + b));
    Glue(name, c + b);
    assert s[|o|..][|name|..] == s[|o| + |name|..];
    CloseLenOf(dashes, b);
  }

  lemma OpenLenOf(dashes: bool, r: string)
    ensures OpenLen(Opener(dashes) + r) == |Opener(dashes)|
  {
    var s := Opener(dashes) + r;
    Glue(Opener(dashes), r);
    assert s[0] == Opener(dashes)[0];
  }

  lemma CloseLenOf(dashes: bool, r: string)
    ensures CloseLen(Closer(dashes) + r) == |Closer(dashes)|
  {
    var s := Closer(dashes) + r;
    Glue(Closer(dashes), r);
    assert s[0] == Closer(dashes)[0];
  }

  /** A concatenation starts with its first part and goes on with the
      second. */
  lemma Glue(p: string, r: string)
    ensures StartsWith(p + r, p) && (p + r)[|p|..] == r
  {
    assert (p + r)[..|p|] == p;
  }

  /** No tag of `other` opens inside a tag of another name. */
  lemma OtherTagOpensNone(name: string, dashes: bool, b: string, other: string)
    requires |name| > 0 && |other| > 0 && AllLetters(name) && name[0] != other[0]
    requires OpenerFree(b) && (dashes && |b| > 0 ==> b[0] != other[0])
    ensures forall j :: 0 <= j < |Tag(name, dashes)| ==> !OpensTag(Tag(name, dashes) + b, other, j)
  {
    var t := Tag(name, dashes);
    var u := t + b;
    var open := if dashes then 3 else 2;
    forall j | 0 <= j < |t| ensures !OpensTag(u, other, j) {
      assert u[open] == name[0];
      if j >= open && j < open + |name| {
        assert u[j] == name[j - open];
      } else if dashes && j >= open + |name| {
        assert u[j] == '-';
        if |b| > 0 {
          assert u[|t|] == b[0];
        }
      } else if !dashes && j > 0 {
        assert u[j] == '(' || u[j] == ')';
      }
    }
  }

  /** No tag opens in `a + n + b` once the tag between `a` and `b` was
      replaced by `n`. */
  lemma NoneOpensAround(a: string, n: string, b: string, other: string)
    requires OpenerFree(a) && SingleDashes(n) && OpenerFree(b) && |other| > 0
    ensures forall k :: 0 <= k < |a + n + b| ==> !OpensTag(a + n + b, other, k)
  {
    var s := a + n + b;
    forall k | 0 <= k < |s| ensures !OpensTag(s, other, k) {
      if k < |a| {
        assert s[k] == a[k];
      } else if k < |a| + |n| {
        assert s[k] == n[k - |a|];
        if k + 1 < |a| + |n| {
          assert s[k + 1] == n[k + 1 - |a|];
        } else if k + 1 < |s| {
          assert s[k + 1] == b[0];
        }
      } else {
        assert s[k] == b[k - |a| - |n|];
      }
    }
  }

  /** No tag of `other` opens in `a + Tag(name) + b`. */
  lemma NoneOpensInTagged(a: string, name: string, dashes: bool, b: string, other: string)
    requires |name| > 0 && |other| > 0 && AllLetters(name) && name[0] != other[0]
    requires OpenerFree(a) && OpenerFree(b) && (dashes && |b| > 0 ==> b[0] != other[0])
    ensures forall k :: 0 <= k < |a + Tag(name, dashes) + b| ==> !OpensTag(a + Tag(name, dashes) + b, other, k)
  {
    var t := Tag(name, dashes);
    var s := a + t + b;
    OtherTagOpensNone(name, dashes, b, other);
    assert s == a + (t + b);
    forall k | 0 <= k < |s| ensures !OpensTag(s, other, k) {
      if k < |a| {
        assert s[k] == a[k];
      } else if k < |a| + |t| {
        assert !OpensTag(t + b, other, k - |a|);
        OpensShift(a, t + b, other, k - |a|);
      } else {
        assert s[k] == b[k - |a| - |t|];
      }
    }
  }

  lemma OpensShift(a: string, u: string, other: string, j: nat)
    ensures OpensTag(a + u, other, |a| + j) == OpensTag(u, other, j)
  {
    var s := a + u;
    if j < |u| { assert s[|a| + j] == u[j]; }
    if j + 1 < |u| { assert s[|a| + j + 1] == u[j + 1]; }
    if j + 2 < |u| { assert s[|a| + j + 2] == u[j + 2]; }
    if j + 3 < |u| { assert s[|a| + j + 3] == u[j + 3]; }
  }

  /** `replace` over `a + Tag(name) + b` puts the value in the tag's place,
      when no tag opens in `a` or `b`. */
  lemma ReplaceTagOnce(a: string, name: string, dashes: bool, b: string, value: string)
    requires |name| > 0 && AllLetters(name)
    requires OpenerFree(a) && OpenerFree(b)
    ensures ReplaceTag(a + Tag(name, dashes) + b, name, value) == a + value + b
  {
    var t := Tag(name, dashes);
    assert a + t + b == a + (t + b);
    ReplacePrefixWith(a, t + b, name, value);
    ReplaceHitWith(name, dashes, b, value);
    ReplaceFreeWith(b, name, value);
  }

  lemma ReplacePrefixWith(a: string, u: string, name: string, value: string)
    requires |name| > 0 && OpenerFree(a)
    ensures ReplaceTag(a + u, name, value) == a + ReplaceWith(u, TagFinder(name), value)
  {
    ReplaceTagWith(a + u, name, value);
    FreeHasNoTag(a + u, name, |a|);
    WalkWith(a + u, TagFinder(name), value, |a|);
    assert (a + u)[..|a|] == a && (a + u)[|a|..] == u;
  }

  lemma ReplaceHitWith(name: string, dashes: bool, b: string, value: string)
    requires |name| > 0 && AllLetters(name)
    ensures ReplaceWith(Tag(name, dashes) + b, TagFinder(name), value) == value + ReplaceWith(b, TagFinder(name), value)
  {
    assert NoChar(name, '-') && NoChar(name, ')') by {
      forall i | 0 <= i < |name| ensures IsLetter(name[i]) { }
    }
    TagAtTag(name, dashes, b);
    assert (Tag(name, dashes) + b)[|Tag(name, dashes)|..] == b;
  }

  lemma ReplaceFreeWith(b: string, name: string, value: string)
    requires |name| > 0 && OpenerFree(b)
    ensures ReplaceWith(b, TagFinder(name), value) == b
  {
    assert b[..|b|] == b;
    FreeHasNoTag(b, name, |b|);
    WalkWith(b, TagFinder(name), value, |b|);
    assert b[|b|..] == "";
  }

  /** The tag finder reports nothing in a prefix with no `$` or `-`. */
  lemma FreeHasNoTag(s: string, name: string, i: nat)
    requires i <= |s| && |name| > 0
    requires OpenerFree(s[..i])
    ensures forall k :: 0 <= k < i ==> TagFinder(name)(s[k..]).None?
  {
    forall k | 0 <= k < i ensures TagFinder(name)(s[k..]).None? {
      assert s[..i][k] == s[k];
      NoTagHere(s, name, k);
    }
  }

  /** A `VERSION` tag between tag-free texts becomes the next version. */
  lemma ReplaceVersionTagVersion(a: string, b: string, dashes: bool, nextVersion: string, lastVersion: Option<string>)
    requires OpenerFree(a) && OpenerFree(b) && SingleDashes(nextVersion)
    ensures ReplaceVersionTag(a + Tag("VERSION", dashes) + b, nextVersion, lastVersion) == a + nextVersion + b
  {
    ReplaceTagOnce(a, "VERSION", dashes, b, nextVersion);
    NoneOpensAround(a, nextVersion, b, "NEXTVERSION");
    ReplaceTagNone(a + nextVersion + b, "NEXTVERSION", nextVersion);
    NoneOpensAround(a, nextVersion, b, "LASTVERSION");
    ReplaceTagNone(a + nextVersion + b, "LASTVERSION", Shown(lastVersion));
  }

  /** A `NEXTVERSION` tag between tag-free texts becomes the next version;
      after `---NEXTVERSION---` the text must not go on with a tag name,
      which the closing dashes would open. */
  lemma ReplaceVersionTagNext(a: string, b: string, dashes: bool, nextVersion: string, lastVersion: Option<string>)
    requires OpenerFree(a) && OpenerFree(b) && SingleDashes(nextVersion)
    requires dashes && |b| > 0 ==> b[0] != 'V'
    ensures ReplaceVersionTag(a + Tag("NEXTVERSION", dashes) + b, nextVersion, lastVersion) == a + nextVersion + b
  {
    var s := a + Tag("NEXTVERSION", dashes) + b;
    NoneOpensInTagged(a, "NEXTVERSION", dashes, b, "VERSION");
    ReplaceTagNone(s, "VERSION", nextVersion);
    ReplaceTagOnce(a, "NEXTVERSION", dashes, b, nextVersion);
    NoneOpensAround(a, nextVersion, b, "LASTVERSION");
    ReplaceTagNone(a + nextVersion + b, "LASTVERSION", Shown(lastVersion));
  }

  /** A `LASTVERSION` tag between tag-free texts becomes the last version,
      or `undefined` without one. */
  lemma ReplaceVersionTagLast(a: string, b: string, dashes: bool, nextVersion: string, lastVersion: Option<string>)
    requires OpenerFree(a) && OpenerFree(b)
    requires dashes && |b| > 0 ==> b[0] != 'V' && b[0] != 'N'
    ensures ReplaceVersionTag(a + Tag("LASTVERSION", dashes) + b, nextVersion, lastVersion) == a + Shown(lastVersion) + b
  {
    var s := a + Tag("LASTVERSION", dashes) + b;
    NoneOpensInTagged(a, "LASTVERSION", dashes, b, "VERSION");
    ReplaceTagNone(s, "VERSION", nextVersion);
    NoneOpensInTagged(a, "LASTVERSION", dashes, b, "NEXTVERSION");
    ReplaceTagNone(s, "NEXTVERSION", nextVersion);
    ReplaceTagOnce(a, "LASTVERSION", dashes, b, Shown(lastVersion));
  }

  // ---------------------------------------------------------------------
  // properCase
  // ---------------------------------------------------------------------

  /** Whether `/(?:^\w|[A-Z]|\b\w)/` matches the character at `i`: an
      upper-case letter, or a word character that starts a word. */
  predicate ProperMatched(name: string, i: nat)
    requires i < |name|
  {
    IsUpper(name[i]) || (IsWordChar(name[i]) && (i == 0 || !IsWordChar(name[i - 1])))
  }

  /** The callback's choice: upper case at the start and after a space
      (unless it is the last character), lower case elsewhere. */
  predicate ProperUpper(name: string, i: nat)
    requires i < |name|
  {
    !(i != 0 && (i >= |name| - 1 || name[i - 1] != ' '))
  }

  function ProperChar(name: string, i: nat): char
    requires i < |name|
  {
    if !ProperMatched(name, i) then name[i]
    else if ProperUpper(name, i) then UpperChar(name[i]) else LowerChar(name[i])
  }

  /** `properCase(name)`: words capitalised, other matched letters lowered. */
  function ProperCase(name: string): (r: string)
    ensures |r| == |name|
    ensures forall i :: 0 <= i < |name| ==> r[i] == ProperChar(name, i)
  {
    seq(|name|, i requires 0 <= i < |name| => ProperChar(name, i))
  }

  lemma CaseKeepsWordChar(c: char)
    ensures IsWordChar(UpperChar(c)) == IsWordChar(c) && IsWordChar(LowerChar(c)) == IsWordChar(c)
    ensures (c == ' ') == (UpperChar(c) == ' ') && (c == ' ') == (LowerChar(c) == ' ')
    ensures !IsUpper(LowerChar(c)) && UpperChar(UpperChar(c)) == UpperChar(c) && LowerChar(LowerChar(c)) == LowerChar(c)
  {
  }

  /** Proper-casing twice is proper-casing once. */
  lemma ProperCaseIdempotent(name: string)
    ensures ProperCase(ProperCase(name)) == ProperCase(name)
  {
    var r := ProperCase(name);
    forall i | 0 <= i < |name| ensures ProperChar(r, i) == r[i] {
      CaseKeepsWordChar(name[i]);
      if i > 0 { CaseKeepsWordChar(name[i - 1]); }
      assert IsWordChar(r[i]) == IsWordChar(name[i]);
      assert i > 0 ==> IsWordChar(r[i - 1]) == IsWordChar(name[i - 1]) && ((r[i - 1] == ' ') == (name[i - 1] == ' '));
      assert ProperUpper(r, i) == ProperUpper(name, i);
    }
    assert ProperCase(r) == r;
  }

  /** The quirk of the last character: a one-letter last word stays lower
      case, so `"a b"` becomes `"A b"`. */
  lemma ProperCaseLastLetter()
    ensures ProperCase("a b") == "A b"
  {
    var r := ProperCase("a b");
    assert r[0] == 'A' && r[1] == ' ' && r[2] == 'b';
  }
}
