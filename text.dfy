/** The JavaScript string operations the release engine relies on, stated over
    `seq<char>`: character classes, `indexOf`, `replace` of the first
    occurrence, global literal replacement, `split`/`join`, `trim` and ASCII
    case mapping. */
module Text {
  import opened Wrappers

  // ---------------------------------------------------------------------
  // Character classes
  // ---------------------------------------------------------------------

  predicate IsDigit(c: char) { '0' <= c <= '9' }
  predicate IsUpper(c: char) { 'A' <= c <= 'Z' }
  predicate IsLower(c: char) { 'a' <= c <= 'z' }
  predicate IsLetter(c: char) { IsUpper(c) || IsLower(c) }
  /** `\w` of a JavaScript regular expression. */
  predicate IsWordChar(c: char) { IsLetter(c) || IsDigit(c) || c == '_' }
  /** Line terminators, where `.` stops and a multiline `^` may start. */
  predicate IsLineTerminator(c: char)
  {
    c == '\n' || c == '\r' || c == '\U{2028}' || c == '\U{2029}'
  }
  /** The characters `String.prototype.trim` removes: white space (the
      space separators of Unicode category Zs, tab, vertical tab, form feed,
      no-break space, byte-order mark) and line terminators. */
  predicate IsWhiteSpace(c: char)
  {
    c == ' ' || c == '\t' || c == '\U{000B}' || c == '\U{000C}' || c == '\U{00A0}' ||
    c == '\U{FEFF}' || c == '\U{1680}' || ('\U{2000}' <= c <= '\U{200A}') ||
    c == '\U{202F}' || c == '\U{205F}' || c == '\U{3000}' ||
    IsLineTerminator(c)
  }

  predicate AllDigits(s: string) { forall i :: 0 <= i < |s| ==> IsDigit(s[i]) }
  predicate AllLetters(s: string) { forall i :: 0 <= i < |s| ==> IsLetter(s[i]) }
  predicate NoChar(s: string, c: char) { forall i :: 0 <= i < |s| ==> s[i] != c }

  /** How JavaScript renders an optional string in a template literal or a
      replacement: an absent value becomes the text `undefined`. */
  function Shown(v: Option<string>): (r: string)
    ensures v.Some? ==> r == v.value
    ensures v.None? ==> r == "undefined"
  {
    if v.Some? then v.value else "undefined"
  }

  /** The platform line separator; the model fixes the POSIX one. */
  const EOL: string := "\n"

  // ---------------------------------------------------------------------
  // Searching
  // ---------------------------------------------------------------------

  predicate StartsWith(s: string, p: string) { |p| <= |s| && s[..|p|] == p }
  predicate EndsWith(s: string, p: string) { |p| <= |s| && s[|s| - |p|..] == p }
  predicate OccursAt(s: string, sub: string, i: int) { 0 <= i && i + |sub| <= |s| && s[i..i + |sub|] == sub }
  predicate Contains(s: string, sub: string) { exists i | 0 <= i <= |s| :: OccursAt(s, sub, i) }

  /** `s.indexOf(sub, from)`: the first occurrence at or after `from`, or -1. */
  function IndexOfFrom(s: string, sub: string, from: nat): (r: int)
    requires from <= |s|
    ensures r == -1 || (from <= r && OccursAt(s, sub, r))
    ensures r == -1 ==> forall k :: from <= k ==> !OccursAt(s, sub, k)
    ensures r != -1 ==> forall k :: from <= k < r ==> !OccursAt(s, sub, k)
    decreases |s| - from
  {
    if from + |sub| > |s| then -1
    else if s[from..from + |sub|] == sub then from
    else IndexOfFrom(s, sub, from + 1)
  }

  /** `s.indexOf(sub)`. */
  function IndexOf(s: string, sub: string): (r: int)
    ensures r == -1 <==> !Contains(s, sub)
    ensures r != -1 ==> OccursAt(s, sub, r) && forall k :: 0 <= k < r ==> !OccursAt(s, sub, k)
  {
    var r := IndexOfFrom(s, sub, 0);
    assert r != -1 ==> OccursAt(s, sub, r);
    r
  }

  /** `s.lastIndexOf(c)` for a one-character needle. */
  function LastIndexOfChar(s: string, c: char): (r: int)
    ensures -1 <= r < |s|
    ensures r != -1 ==> s[r] == c
    ensures forall k :: r < k < |s| ==> s[k] != c
  {
    if |s| == 0 then -1
    else if s[|s| - 1] == c then |s| - 1
    else LastIndexOfChar(s[..|s| - 1], c)
  }

  lemma OccursShift(s: string, sub: string, k: nat, d: nat)
    requires d <= |s|
    ensures OccursAt(s[d..], sub, k) <==> OccursAt(s, sub, k + d)
  {
    if 0 <= k && k + |sub| <= |s| - d {
      assert s[d..][k..k + |sub|] == s[k + d..k + d + |sub|];
    }
  }

  // ---------------------------------------------------------------------
  // Replacement
  // ---------------------------------------------------------------------

  /** `s.replace(pat, rep)` with a string pattern: only the first occurrence
      is replaced (the replacement is taken literally). */
  function ReplaceFirst(s: string, pat: string, rep: string): (r: string)
    ensures !Contains(s, pat) ==> r == s
    ensures Contains(s, pat) ==>
      var i := IndexOf(s, pat); r == s[..i] + rep + s[i + |pat|..] && |r| == |s| - |pat| + |rep|
  {
    var i := IndexOf(s, pat);
    if i == -1 then s else s[..i] + rep + s[i + |pat|..]
  }

  /** Removing a pattern the text starts with leaves the rest. */
  lemma ReplaceFirstPrefix(p: string, x: string)
    requires |p| > 0
    ensures ReplaceFirst(p + x, p, "") == x
  {
    assert OccursAt(p + x, p, 0);
    assert (p + x)[|p|..] == x;
  }

  /** `s.replace(/pat/g, rep)` for a literal, non-empty pattern: every
      non-overlapping occurrence from left to right. */
  function ReplaceAll(s: string, pat: string, rep: string): (r: string)
    requires |pat| > 0
    ensures !Contains(s, pat) ==> r == s
    decreases |s|
  {
    var i := IndexOf(s, pat);
    if i == -1 then s else s[..i] + rep + ReplaceAll(s[i + |pat|..], pat, rep)
  }

  /** A character absent from `a` is first found right after `a`. */
  lemma FirstCharAfter(a: string, c: char, b: string)
    requires NoChar(a, c)
    ensures IndexOf(a + [c] + b, [c]) == |a|
  {
    var s := a + [c] + b;
    assert OccursAt(s, [c], |a|) by { assert s[|a|..|a| + 1] == [c]; }
    forall k | 0 <= k < |a| ensures !OccursAt(s, [c], k) {
      assert s[k] == a[k];
    }
  }

  /** The text splits around the first occurrence of a character. */
  lemma SplitAtFirstChar(s: string, c: char, i: nat)
    requires IndexOf(s, [c]) == i
    ensures i < |s| && s == s[..i] + [c] + s[i + 1..] && NoChar(s[..i], c)
  {
    assert OccursAt(s, [c], i);
    assert s[i] == c by { assert s[i..i + 1] == [c]; }
    forall k | 0 <= k < i ensures s[k] != c {
      assert !OccursAt(s, [c], k);
      assert s[k..k + 1] == [s[k]];
    }
  }

  /** A text without the character does not contain it as a substring. */
  lemma NoCharNotContains(s: string, c: char)
    ensures NoChar(s, c) <==> !Contains(s, [c])
  {
    if NoChar(s, c) {
      NoCharIndex(s, c);
    } else {
      var k :| 0 <= k < |s| && s[k] == c;
      assert s[k..k + 1] == [c];
      assert OccursAt(s, [c], k);
    }
  }

  /** A text with exactly one occurrence of the pattern, and none that
      starts before it, has just that one replaced. */
  lemma ReplaceAllSingle(a: string, pat: string, rep: string, b: string)
    requires |pat| > 0 && !Contains(b, pat)
    requires forall k :: 0 <= k < |a| ==> !OccursAt(a + pat + b, pat, k)
    ensures ReplaceAll(a + pat + b, pat, rep) == a + rep + b
  {
    var s := a + pat + b;
    assert OccursAt(s, pat, |a|) by { assert s[|a|..|a| + |pat|] == pat; }
    assert IndexOf(s, pat) == |a|;
    assert s[..|a|] == a && s[|a| + |pat|..] == b;
  }

  /** `s.replace(/c/g, "")`: every occurrence of one character removed. */
  function RemoveChar(s: string, c: char): (r: string)
    ensures |r| <= |s|
  {
    if |s| == 0 then ""
    else if s[0] == c then RemoveChar(s[1..], c)
    else [s[0]] + RemoveChar(s[1..], c)
  }

  /** What is left holds no `c` and only characters of `s`, and a string
      without `c` is left as it is. */
  lemma {:induction false} RemoveCharFacts(s: string, c: char)
    ensures NoChar(RemoveChar(s, c), c)
    ensures NoChar(s, c) ==> RemoveChar(s, c) == s
    ensures forall i :: 0 <= i < |RemoveChar(s, c)| ==> RemoveChar(s, c)[i] in s
    decreases |s|
  {
    if |s| > 0 {
      var t := s[1..];
      RemoveCharFacts(t, c);
      var r := RemoveChar(s, c);
      var rt := RemoveChar(t, c);
      if s[0] == c {
        assert r == rt;
        forall i | 0 <= i < |r| ensures r[i] in s { assert rt[i] in t; }
      } else {
        assert r == [s[0]] + rt;
        forall i | 0 < i < |r| ensures r[i] in s { assert r[i] == rt[i - 1]; assert rt[i - 1] in t; }
        if NoChar(s, c) {
          assert NoChar(t, c);
        }
      }
    }
  }

  lemma ReplaceAllNoPattern(s: string, pat: string, rep: string)
    requires |pat| > 0 && !Contains(rep, pat) && |rep| < |pat|
    ensures |ReplaceAll(s, pat, rep)| <= |s|
    decreases |s|
  {
    var i := IndexOf(s, pat);
    if i != -1 {
      ReplaceAllNoPattern(s[i + |pat|..], pat, rep);
    }
  }

  // ---------------------------------------------------------------------
  // Split and join on one separator character
  // ---------------------------------------------------------------------

  /** `s.split(c)`: the pieces between separators; never empty. */
  function Split(s: string, c: char): (r: seq<string>)
    ensures |r| >= 1
    decreases |s|
  {
    var i := IndexOf(s, [c]);
    if i == -1 then [s]
    else [s[..i]] + Split(s[i + 1..], c)
  }

  /** No piece of a split holds the separator. */
  lemma {:induction false} SplitNoChar(s: string, c: char)
    ensures forall k :: 0 <= k < |Split(s, c)| ==> NoChar(Split(s, c)[k], c)
    decreases |s|
  {
    var i := IndexOf(s, [c]);
    CharIndex(s, c);
    if i != -1 {
      SplitNoChar(s[i + 1..], c);
      var q := [s[..i]] + Split(s[i + 1..], c);
      assert Split(s, c) == q;
      forall k | 0 < k < |q| ensures q[k] == Split(s[i + 1..], c)[k - 1] { }
    }
  }

  /** Where `indexOf` finds one character: there, and not before. */
  lemma CharIndex(s: string, c: char)
    ensures var i := IndexOf(s, [c]);
      (i == -1 ==> NoChar(s, c)) && (i != -1 ==> 0 <= i < |s| && s[i] == c && NoChar(s[..i], c))
  {
    var i := IndexOf(s, [c]);
    if i == -1 {
      forall k | 0 <= k < |s| ensures s[k] != c { assert s[k..k + 1] == [s[k]]; assert !OccursAt(s, [c], k); }
    } else {
      assert s[i..i + 1] == [c];
      forall k | 0 <= k < i ensures s[..i][k] != c { assert s[k..k + 1] == [s[k]]; assert !OccursAt(s, [c], k); }
    }
  }

  /** `parts.join(sep)`. */
  function Join(parts: seq<string>, sep: string): (r: string)
    ensures |parts| == 1 ==> r == parts[0]
    decreases |parts|
  {
    if |parts| == 0 then ""
    else if |parts| == 1 then parts[0]
    else parts[0] + sep + Join(parts[1..], sep)
  }

  /** Splitting on a character and joining with it gives back the string. */
  lemma {:induction false} JoinSplit(s: string, c: char)
    ensures Join(Split(s, c), [c]) == s
    decreases |s|
  {
    var i := IndexOf(s, [c]);
    if i != -1 {
      var rest := s[i + 1..];
      var parts := Split(rest, c);
      var q := [s[..i]] + parts;
      assert Split(s, c) == q;
      JoinSplit(rest, c);
      assert q[1..] == parts;
      assert Join(q, [c]) == s[..i] + [c] + Join(parts, [c]);
      SplitAround(s, i, c);
    }
  }

  /** Replacing every occurrence of a character is joining the pieces
      between them with the replacement. */
  lemma {:induction false} ReplaceCharJoinsSplit(s: string, c: char, rep: string)
    ensures ReplaceAll(s, [c], rep) == Join(Split(s, c), rep)
    decreases |s|
  {
    var i := IndexOf(s, [c]);
    if i != -1 {
      var rest := s[i + 1..];
      ReplaceCharJoinsSplit(rest, c, rep);
      var q := [s[..i]] + Split(rest, c);
      assert Split(s, c) == q && q[1..] == Split(rest, c);
    }
  }

  lemma SplitAround(s: string, i: nat, c: char)
    requires i < |s| && s[i..i + 1] == [c]
    ensures s == s[..i] + [c] + s[i + 1..]
  {
    assert s[i] == c;
  }

  /** Joining pieces free of the separator and splitting again gives the pieces back. */
  lemma {:induction false} SplitJoin(parts: seq<string>, c: char)
    requires |parts| >= 1
    requires forall k :: 0 <= k < |parts| ==> NoChar(parts[k], c)
    ensures Split(Join(parts, [c]), c) == parts
    decreases |parts|
  {
    var p0 := parts[0];
    if |parts| == 1 {
      NoCharIndex(p0, c);
    } else {
      var rest := Join(parts[1..], [c]);
      var s := p0 + [c] + rest;
      assert Join(parts, [c]) == s;
      assert OccursAt(s, [c], |p0|) by { assert s[|p0|..|p0| + 1] == [c]; }
      forall k | 0 <= k < |p0| ensures !OccursAt(s, [c], k) {
        assert s[k..k + 1] == [p0[k]];
      }
      assert IndexOf(s, [c]) == |p0|;
      assert s[..|p0|] == p0;
      assert s[|p0| + 1..] == rest;
      SplitJoin(parts[1..], c);
    }
  }

  lemma NoCharIndex(s: string, c: char)
    requires NoChar(s, c)
    ensures IndexOf(s, [c]) == -1
  {
    forall i | 0 <= i < |s| ensures !OccursAt(s, [c], i) {
      assert s[i..i + 1] == [s[i]];
    }
  }

  // ---------------------------------------------------------------------
  // Trimming and case mapping
  // ---------------------------------------------------------------------

  /** Number of leading white-space characters. */
  function LeadingSpace(s: string): (n: nat)
    ensures n <= |s|
    ensures forall k :: 0 <= k < n ==> IsWhiteSpace(s[k])
    ensures n == |s| || !IsWhiteSpace(s[n])
  {
    if |s| == 0 || !IsWhiteSpace(s[0]) then 0 else 1 + LeadingSpace(s[1..])
  }

  /** Number of trailing white-space characters. */
  function TrailingSpace(s: string): (n: nat)
    ensures n <= |s|
    ensures forall k :: |s| - n <= k < |s| ==> IsWhiteSpace(s[k])
    ensures n == |s| || !IsWhiteSpace(s[|s| - n - 1])
  {
    if |s| == 0 || !IsWhiteSpace(s[|s| - 1]) then 0 else 1 + TrailingSpace(s[..|s| - 1])
  }

  lemma TrimLeftUnchanged(s: string)
    requires |s| > 0 && !IsWhiteSpace(s[0])
    ensures TrimLeft(s) == s
  {
    assert LeadingSpace(s) == 0;
  }

  lemma TrimUnchanged(s: string)
    requires |s| > 0 && !IsWhiteSpace(s[0]) && !IsWhiteSpace(s[|s| - 1])
    ensures Trim(s) == s
  {
    assert TrailingSpace(s) == 0;
    assert TrimRight(s) == s;
    TrimLeftUnchanged(s);
  }

  /** `s.trimLeft()`. */
  function TrimLeft(s: string): (r: string)
    ensures |r| <= |s| && EndsWith(s, r)
    ensures r == [] || !IsWhiteSpace(r[0])
  {
    s[LeadingSpace(s)..]
  }

  /** `s.trimRight()`. */
  function TrimRight(s: string): (r: string)
    ensures |r| <= |s| && StartsWith(s, r)
    ensures r == [] || !IsWhiteSpace(r[|r| - 1])
  {
    s[..|s| - TrailingSpace(s)]
  }

  /** `s.trim()`. */
  function Trim(s: string): (r: string)
    ensures |r| <= |s|
    ensures r == [] || (!IsWhiteSpace(r[0]) && !IsWhiteSpace(r[|r| - 1]))
  {
    TrimLeft(TrimRight(s))
  }

  function UpperChar(c: char): char { if IsLower(c) then (c as int - 32) as char else c }
  function LowerChar(c: char): char { if IsUpper(c) then (c as int + 32) as char else c }

  /** `s.toUpperCase()` on ASCII letters. */
  function ToUpper(s: string): (r: string)
    ensures |r| == |s| && forall k :: 0 <= k < |s| ==> r[k] == UpperChar(s[k])
  {
    seq(|s|, k requires 0 <= k < |s| => UpperChar(s[k]))
  }

  /** `s.toLowerCase()` on ASCII letters. */
  function ToLower(s: string): (r: string)
    ensures |r| == |s| && forall k :: 0 <= k < |s| ==> r[k] == LowerChar(s[k])
  {
    seq(|s|, k requires 0 <= k < |s| => LowerChar(s[k]))
  }

  /** Equality of strings ignoring ASCII case (a regular expression's `i` flag). */
  predicate EqualsIgnoreCase(a: string, b: string) { ToLower(a) == ToLower(b) }

  // ---------------------------------------------------------------------
  // Numbers as text
  // ---------------------------------------------------------------------

  function DigitValue(c: char): nat requires IsDigit(c) { c as int - '0' as int }

  /** The value of a run of decimal digits. */
  function DigitsValue(s: string): nat
    requires AllDigits(s)
    decreases |s|
  {
    if |s| == 0 then 0 else DigitsValue(s[..|s| - 1]) * 10 + DigitValue(s[|s| - 1])
  }

  /** The decimal representation of a natural number, without leading zeros. */
  function NatToString(n: nat): (r: string)
    ensures |r| >= 1 && AllDigits(r)
    ensures |r| > 1 ==> r[0] != '0'
    decreases n
  {
    if n < 10 then [('0' as int + n) as char]
    else NatToString(n / 10) + [('0' as int + n % 10) as char]
  }

  /** Reading back a printed number gives the number. */
  lemma {:induction false} DigitsOfNat(n: nat)
    ensures DigitsValue(NatToString(n)) == n
    decreases n
  {
    if n >= 10 {
      DigitsOfNat(n / 10);
      var s := NatToString(n);
      assert s[..|s| - 1] == NatToString(n / 10);
    }
  }

  /** `String(i)` for an integer. */
  function IntToString(i: int): (r: string)
    ensures |r| >= 1
  {
    if i < 0 then "-" + NatToString(-i) else NatToString(i)
  }

  // ---------------------------------------------------------------------
  // Scanning for fixed patterns
  // ---------------------------------------------------------------------

  /** The length of the run of characters of a class starting at `p`: what
      a greedy `[class]*` consumes there. */
  function Span(s: string, p: nat, cls: char -> bool): (n: nat)
    requires p <= |s|
    ensures p + n <= |s|
    decreases |s| - p
  {
    if p == |s| || !cls(s[p]) then 0 else 1 + Span(s, p + 1, cls)
  }

  /** The run `Span` measures is made of class characters and stops at the
      end of the text or at the first character outside the class. */
  lemma {:induction false} SpanRun(s: string, p: nat, cls: char -> bool)
    requires p <= |s|
    ensures forall k :: p <= k < p + Span(s, p, cls) ==> cls(s[k])
    ensures p + Span(s, p, cls) < |s| ==> !cls(s[p + Span(s, p, cls)])
    decreases |s| - p
  {
    if p < |s| && cls(s[p]) {
      SpanRun(s, p + 1, cls);
    }
  }

  /** A recogniser `at` matches at `p` when it yields an end within the text. */
  predicate Hit(s: string, at: (string, nat) -> Option<nat>, p: nat)
  {
    p <= |s| && at(s, p).Some? && p <= at(s, p).value <= |s|
  }

  /** The leftmost match at or after `from`, as start and end: what a
      regular expression's first match (`match(...)[0]`) finds. */
  function FirstMatch(s: string, at: (string, nat) -> Option<nat>, from: nat): (r: Option<(nat, nat)>)
    requires from <= |s|
    ensures r.Some? ==> from <= r.value.0 <= r.value.1 <= |s| && Hit(s, at, r.value.0) && at(s, r.value.0) == Some(r.value.1)
    ensures r.Some? ==> forall p :: from <= p < r.value.0 ==> !Hit(s, at, p)
    ensures r.None? ==> forall p :: from <= p <= |s| ==> !Hit(s, at, p)
    decreases |s| - from
  {
    if Hit(s, at, from) then Some((from, at(s, from).value))
    else if from == |s| then None
    else FirstMatch(s, at, from + 1)
  }

  /** The characters of a text, each as a one-character string. */
  function Chars(s: string): (r: seq<string>)
    ensures |r| == |s| && forall i :: 0 <= i < |s| ==> r[i] == [s[i]]
  {
    seq(|s|, i requires 0 <= i < |s| => [s[i]])
  }

  /** The characters of a text one character longer. */
  lemma CharsSnoc(s: string, n: nat)
    requires 1 <= n <= |s|
    ensures Chars(s[..n]) == Chars(s[..n - 1]) + [[s[n - 1]]]
  {
    var l := Chars(s[..n]);
    var r := Chars(s[..n - 1]) + [[s[n - 1]]];
    assert |l| == |r|;
    forall i | 0 <= i < |l| ensures l[i] == r[i] {
      if i < n - 1 {
        assert r[i] == [s[..n - 1][i]];
      }
    }
  }

  /** Joining one more piece puts the separator before it. */
  lemma {:induction false} JoinAppend(parts: seq<string>, x: string, sep: string)
    requires |parts| >= 1
    ensures Join(parts + [x], sep) == Join(parts, sep) + sep + x
    decreases |parts|
  {
    if |parts| > 1 {
      JoinAppend(parts[1..], x, sep);
      assert (parts + [x])[1..] == parts[1..] + [x];
    } else {
      assert (parts + [x])[1..] == [x];
    }
  }
}
