/** The fixed regular expressions of the changelog and commit parser, as
    hand-written recognisers: the scoped and unscoped commit-message
    grammars (global, multiline, case-insensitive), the skipped-commit
    pattern, the markdown version-section header and the issue reference
    list. Each recogniser follows the backtracking order of the JavaScript
    engine: greedy runs that cannot give characters back usefully are taken
    whole, lazy bodies stop at the first position where the lookahead
    holds. */
module Regexes {
  import opened Wrappers
  import opened Text

  // ---------------------------------------------------------------------
  // Character classes and anchors
  // ---------------------------------------------------------------------

  /** A multiline `^`: the start of the text or just after a line terminator. */
  predicate LineStart(s: string, p: nat)
  {
    p <= |s| && (p == 0 || IsLineTerminator(s[p - 1]))
  }

  /** `[\r\n]`. */
  predicate IsCrLf(c: char) { c == '\r' || c == '\n' }

  /** `[ ]`. */
  predicate IsBlank(c: char) { c == ' ' }

  /** `[a-z0-9-_. ]` under the `i` flag: the scope of a commit header. */
  predicate IsScopeChar(c: char)
  {
    IsLetter(c) || IsDigit(c) || c == '-' || c == '_' || c == '.' || c == ' '
  }

  /** `[a-z0-9\- ]` under the `i` flag: the scope of the header that ends
      the previous body. It has no `_` and no `.`. */
  predicate IsBoundaryScopeChar(c: char)
  {
    IsLetter(c) || IsDigit(c) || c == '-' || c == ' '
  }

  /** Two characters match under the `i` flag; only ASCII letters fold. */
  predicate SameIgnoreCase(c: char, d: char) { LowerChar(c) == LowerChar(d) }

  /** `w` occurs at `p` ignoring case. */
  predicate OccursAtIgnoreCase(s: string, w: string, p: nat)
  {
    p + |w| <= |s| && forall k {:trigger w[k]} :: 0 <= k < |w| ==> SameIgnoreCase(s[p + k], w[k])
  }

  /** The first position at or after `from` where `ok` holds: where a lazy
      `[^]*?` followed by a lookahead stops. */
  function FirstWhere(s: string, from: nat, ok: (string, nat) -> bool): (r: Option<nat>)
    requires from <= |s|
    ensures r.Some? ==> from <= r.value <= |s|
    decreases |s| - from
  {
    if ok(s, from) then Some(from)
    else if from == |s| then None
    else FirstWhere(s, from + 1, ok)
  }

  /** The position `FirstWhere` finds satisfies `ok` and nothing before
      it does; nothing at all does when it finds none. */
  lemma {:induction false} FirstWhereFirst(s: string, from: nat, ok: (string, nat) -> bool)
    requires from <= |s|
    ensures FirstWhere(s, from, ok).Some? ==> ok(s, FirstWhere(s, from, ok).value)
    ensures FirstWhere(s, from, ok).Some? ==> forall q :: from <= q < FirstWhere(s, from, ok).value ==> !ok(s, q)
    ensures FirstWhere(s, from, ok).None? ==> forall q :: from <= q <= |s| ==> !ok(s, q)
    decreases |s| - from
  {
    if !ok(s, from) && from < |s| {
      FirstWhereFirst(s, from + 1, ok);
    }
  }

  // ---------------------------------------------------------------------
  // Commit headers: `type(scope):` and `type:`
  // ---------------------------------------------------------------------

  /** Where a header's type and scope end and where the text after its
      colon starts. An unscoped header has `scopeEnd == typeEnd`. */
  datatype Header = Header(typeEnd: nat, scopeEnd: nat, next: nat)

  /** `[a-z]+\([cls]*\)[ ]*:` at `p`, ignoring case. The type and the scope
      are greedy runs that end where the next literal must stand, so no
      backtracking can change them. */
  function ScopedHeader(s: string, p: nat, cls: char -> bool): (r: Option<Header>)
    requires p <= |s|
    ensures r.Some? ==> p < r.value.typeEnd < r.value.scopeEnd < r.value.next <= |s|
    ensures r.Some? ==> s[r.value.typeEnd] == '(' && s[r.value.scopeEnd] == ')' && s[r.value.next - 1] == ':'
  {
    var t := p + Span(s, p, IsLetter);
    if t == p || t == |s| || s[t] != '(' then None
    else
      var e := t + 1 + Span(s, t + 1, cls);
      if e == |s| || s[e] != ')' then None
      else
        var c := e + 1 + Span(s, e + 1, IsBlank);
        if c == |s| || s[c] != ':' then None
        else Some(Header(t, e, c + 1))
  }

  /** The type and the scope of a scoped header are greedy runs: the
      type is the longest run of letters at `p`, the scope the longest run
      of the scope class after the parenthesis. */
  lemma ScopedHeaderSpans(s: string, p: nat, cls: char -> bool)
    requires p <= |s| && ScopedHeader(s, p, cls).Some?
    ensures var h := ScopedHeader(s, p, cls).value;
      h.typeEnd == p + Span(s, p, IsLetter) && h.scopeEnd == h.typeEnd + 1 + Span(s, h.typeEnd + 1, cls)
  {
  }

  /** `[a-z]+[ ]*:` at `p`, ignoring case. */
  function UnscopedHeader(s: string, p: nat): (r: Option<Header>)
    requires p <= |s|
    ensures r.Some? ==> p < r.value.typeEnd == r.value.scopeEnd < r.value.next <= |s|
    ensures r.Some? ==> s[r.value.next - 1] == ':'
  {
    var t := p + Span(s, p, IsLetter);
    if t == p then None
    else
      var c := t + Span(s, t, IsBlank);
      if c == |s| || s[c] != ':' then None
      else Some(Header(t, t, c + 1))
  }

  /** The type of an unscoped header is the longest run of letters at `p`. */
  lemma UnscopedHeaderSpan(s: string, p: nat)
    requires p <= |s| && UnscopedHeader(s, p).Some?
    ensures UnscopedHeader(s, p).value.typeEnd == p + Span(s, p, IsLetter)
  {
  }

  /** The sentinel appended to every message, matched ignoring case. */
  const EndMessage: string := "ENDMESSAGE"

  /** The lookahead ending a scoped body: a line break followed by another
      scoped header, or the sentinel. */
  predicate ScopedBoundary(s: string, q: nat)
  {
    q <= |s| &&
    (OccursAtIgnoreCase(s, EndMessage, q) ||
     (q < |s| && IsCrLf(s[q]) && ScopedHeader(s, q + Span(s, q, IsCrLf), IsBoundaryScopeChar).Some?))
  }

  /** The lookahead ending an unscoped body: a line break followed by
      another `type:` header, or the sentinel. */
  predicate UnscopedBoundary(s: string, q: nat)
  {
    q <= |s| &&
    (OccursAtIgnoreCase(s, EndMessage, q) ||
     (q < |s| && IsCrLf(s[q]) && UnscopedHeader(s, q + Span(s, q, IsCrLf)).Some?))
  }

  /** A match: where it starts and ends, the text between (group 0) and
      its capture groups. */
  datatype Match = Match(start: nat, end: nat, text: string, groups: seq<string>)

  datatype Grammar =
    | Scoped     // CHANGELOG_MULTI_SUBJECT_SCOPE: groups type, scope, body
    | Unscoped   // CHANGELOG_MULTI_SUBJECT: groups type, body

  function HeaderAt(g: Grammar, s: string, p: nat): Option<Header>
    requires p <= |s|
  {
    if g.Scoped? then ScopedHeader(s, p, IsScopeChar) else UnscopedHeader(s, p)
  }

  function Boundary(g: Grammar): (string, nat) -> bool
  {
    if g.Scoped? then ScopedBoundary else UnscopedBoundary
  }

  /** Where the body starts: after the colon and the blanks that follow it
      (`[ ]*` is greedy and the lazy body can always grow instead). */
  function BodyStart(s: string, next: nat): (b: nat)
    requires 0 < next <= |s|
    ensures next <= b <= |s|
  {
    next + Span(s, next, IsBlank)
  }

  /** The grammar matched at exactly `p`. */
  function MatchAt(g: Grammar, s: string, p: nat): (r: Option<Match>)
    ensures r.Some? ==> r.value.start == p < r.value.end <= |s|
    ensures r.Some? ==> |r.value.groups| == (if g.Scoped? then 3 else 2)
  {
    if p > |s| || !LineStart(s, p) then None
    else
      var h := HeaderAt(g, s, p);
      if h.None? then None
      else
        var b := BodyStart(s, h.value.next);
        var q := FirstWhere(s, b, Boundary(g));
        if q.None? then None
        else Some(Assemble(g, s, p, h.value, b, q.value))
  }

  /** The match from `p` to `e` with the header `h` and the body from `b`:
      groups type, scope (scoped grammar only) and body. */
  function Assemble(g: Grammar, s: string, p: nat, h: Header, b: nat, e: nat): (m: Match)
    requires p <= h.typeEnd <= |s| && p <= e && b <= e <= |s|
    requires g.Scoped? ==> h.typeEnd < h.scopeEnd <= |s|
    ensures m.start == p && m.end == e && |m.groups| == (if g.Scoped? then 3 else 2)
  {
    if g.Scoped? then Match(p, e, s[p..e], [s[p..h.typeEnd], s[h.typeEnd + 1..h.scopeEnd], s[b..e]])
    else Match(p, e, s[p..e], [s[p..h.typeEnd], s[b..e]])
  }

  /** A recogniser whose matches start where they are tried and are never
      empty, so a global search always moves on. */
  ghost predicate Advances(at: (string, nat) -> Option<Match>, s: string)
  {
    forall p: nat :: at(s, p).Some? ==> at(s, p).value.start == p < at(s, p).value.end <= |s|
  }

  /** `regex.exec(s)` with `lastIndex == from`: the leftmost match at or
      after `from`. */
  function ExecWith(at: (string, nat) -> Option<Match>, s: string, from: nat): (r: Option<Match>)
    requires Advances(at, s)
    ensures r.Some? ==> from <= r.value.start < r.value.end <= |s| && at(s, r.value.start) == r
    decreases |s| + 1 - from
  {
    if from > |s| then None
    else if at(s, from).Some? then at(s, from)
    else ExecWith(at, s, from + 1)
  }

  /** The match `exec` finds is the leftmost one: nothing matches between
      `from` and its start, and nothing at all when it finds none. */
  lemma {:induction false} ExecWithLeftmost(at: (string, nat) -> Option<Match>, s: string, from: nat, p: nat)
    requires Advances(at, s) && from <= p
    requires ExecWith(at, s, from).Some? ==> p < ExecWith(at, s, from).value.start
    ensures at(s, p).None?
    decreases |s| + 1 - from
  {
    if from <= |s| && at(s, from).None? && from < p {
      ExecWithLeftmost(at, s, from + 1, p);
    }
  }

  /** Every match the `while ((match = regex.exec(text)) !== null)` loop
      visits, starting from `lastIndex == from`: each search resumes where
      the previous match ended. */
  function AllWith(at: (string, nat) -> Option<Match>, s: string, from: nat): seq<Match>
    requires Advances(at, s)
    decreases |s| + 1 - from
  {
    match ExecWith(at, s, from)
    case None => []
    case Some(m) => [m] + AllWith(at, s, m.end)
  }

  /** Each match the loop visits lies after `from` and is the recogniser's
      match at its start. */
  lemma {:induction false} AllWithFound(at: (string, nat) -> Option<Match>, s: string, from: nat, i: nat)
    requires Advances(at, s) && i < |AllWith(at, s, from)|
    ensures var m := AllWith(at, s, from)[i];
      from <= m.start < m.end <= |s| && at(s, m.start) == Some(m)
    decreases |s| + 1 - from
  {
    var m := ExecWith(at, s, from).value;
    if i > 0 {
      AllWithFound(at, s, m.end, i - 1);
    }
  }

  /** The commit grammar as a recogniser. */
  function Recogniser(g: Grammar): (string, nat) -> Option<Match>
  {
    (s: string, p: nat) => MatchAt(g, s, p)
  }

  lemma RecogniserAdvances(g: Grammar, s: string)
    ensures Advances(Recogniser(g), s)
  {
    forall p: nat | Recogniser(g)(s, p).Some?
      ensures Recogniser(g)(s, p).value.start == p < Recogniser(g)(s, p).value.end <= |s|
    {
      assert Recogniser(g)(s, p) == MatchAt(g, s, p);
    }
  }

  /** The matches of a commit grammar's `exec` loop. */
  function AllMatches(g: Grammar, s: string, from: nat): (r: seq<Match>)
    ensures FitsAll(g, s, r)
  {
    RecogniserAdvances(g, s);
    var r := AllWith(Recogniser(g), s, from);
    assert FitsAll(g, s, r) by {
      forall i | 0 <= i < |r| ensures Fits(g, s, r[i]) {
        AllWithFound(Recogniser(g), s, from, i);
      }
    }
    r
  }

  /** The bounds and group count every match of a grammar has. */
  predicate Fits(g: Grammar, s: string, m: Match)
  {
    m.start < m.end <= |s| && |m.groups| == (if g.Scoped? then 3 else 2)
  }

  /** Every match of a run fits the grammar. */
  predicate FitsAll(g: Grammar, s: string, ms: seq<Match>)
  {
    forall i :: 0 <= i < |ms| ==> Fits(g, s, ms[i])
  }

  /** Each match the loop visits is the grammar's match at its start. */
  lemma AllMatchesAreMatches(g: Grammar, s: string, from: nat, i: nat)
    requires i < |AllMatches(g, s, from)|
    ensures MatchAt(g, s, AllMatches(g, s, from)[i].start) == Some(AllMatches(g, s, from)[i])
  {
    RecogniserAdvances(g, s);
    var r := AllWith(Recogniser(g), s, from);
    AllWithFound(Recogniser(g), s, from, i);
    assert Recogniser(g)(s, r[i].start) == Some(r[i]);
  }

  // ---------------------------------------------------------------------
  // What the commit grammars accept
  // ---------------------------------------------------------------------

  /** A match of either grammar starts a line, its type is a non-empty run
      of letters, its body follows the colon and the blanks after it, and
      the body stops at the first boundary: the match ends at the shortest
      body the lookahead allows. */
  lemma MatchShape(g: Grammar, s: string, p: nat)
    requires MatchAt(g, s, p).Some?
    ensures var m := MatchAt(g, s, p).value;
      LineStart(s, p) && Layout(s, p, m.groups[0], m.groups[|m.groups| - 1], m.end) &&
      Boundary(g)(s, m.end)
  {
    MatchAtParts(g, s, p);
    var h := HeaderAt(g, s, p).value;
    var b := BodyStart(s, h.next);
    AssembledLayout(g, s, p, h, b, FirstWhere(s, b, Boundary(g)).value);
    FoundOk(s, b, Boundary(g));
  }

  /** A match is assembled from the header at its start, the body start
      after that header, and the first boundary after the body start. */
  lemma MatchAtParts(g: Grammar, s: string, p: nat)
    requires MatchAt(g, s, p).Some?
    ensures p <= |s| && LineStart(s, p) && HeaderAt(g, s, p).Some?
    ensures var h := HeaderAt(g, s, p).value;
      0 < h.next <= |s| && var b := BodyStart(s, h.next);
      FirstWhere(s, b, Boundary(g)).Some? &&
      MatchAt(g, s, p).value == Assemble(g, s, p, h, b, FirstWhere(s, b, Boundary(g)).value)
  {
  }

  /** The layout of an assembled match. */
  lemma AssembledLayout(g: Grammar, s: string, p: nat, h: Header, b: nat, e: nat)
    requires p <= |s| && HeaderAt(g, s, p) == Some(h) && 0 < h.next <= |s|
    requires b == BodyStart(s, h.next) && b <= e <= |s|
    ensures var m := Assemble(g, s, p, h, b, e);
      Layout(s, p, m.groups[0], m.groups[|m.groups| - 1], e)
  {
    var m := Assemble(g, s, p, h, b, e);
    assert h.typeEnd == p + Span(s, p, IsLetter) by {
      if g.Scoped? {
        ScopedHeaderSpans(s, p, IsScopeChar);
      } else {
        UnscopedHeaderSpan(s, p);
      }
    }
    BodyShape(s, p, h, b, m.groups[0], m.groups[|m.groups| - 1], e);
  }

  /** The layout of a match from `p` to `e` with type `ty` and body `body`:
      the type is a non-empty run of letters at `p`, and the body ends the
      match right after the colon or a blank. */
  predicate Layout(s: string, p: nat, ty: string, body: string, e: nat)
  {
    var b := e - |body|;
    e <= |s| && |ty| > 0 && AllLetters(ty) && p + |ty| <= |s| && s[p..p + |ty|] == ty &&
    p < b && s[b..e] == body && (s[b - 1] == ':' || s[b - 1] == ' ')
  }

  /** The layout facts of a match, over an abstract header and body. */
  lemma BodyShape(s: string, p: nat, h: Header, b: nat, ty: string, body: string, e: nat)
    requires p < h.typeEnd < h.next <= b <= e <= |s| && s[h.next - 1] == ':'
    requires h.typeEnd == p + Span(s, p, IsLetter) && b == h.next + Span(s, h.next, IsBlank)
    requires ty == s[p..h.typeEnd] && body == s[b..e]
    ensures Layout(s, p, ty, body, e)
  {
    SpanRun(s, p, IsLetter);
    SpanRun(s, h.next, IsBlank);
    forall k | 0 <= k < |ty| ensures IsLetter(ty[k]) {
      assert ty[k] == s[p + k];
    }
    if b > h.next {
      assert IsBlank(s[b - 1]);
    }
  }

  /** The body stops at the first boundary: no position inside it is one,
      so the match ends at the shortest body the lookahead allows. */
  lemma MatchStopsFirst(g: Grammar, s: string, p: nat, q: nat)
    requires MatchAt(g, s, p).Some?
    requires var m := MatchAt(g, s, p).value; m.end - |m.groups[|m.groups| - 1]| <= q < m.end
    ensures !Boundary(g)(s, q)
  {
    MatchAtParts(g, s, p);
    var h := HeaderAt(g, s, p).value;
    var b := BodyStart(s, h.next);
    StopsAt(s, b, Boundary(g), MatchAt(g, s, p).value.end, q);
  }

  /** The position `FirstWhere` finds satisfies `ok`. */
  lemma FoundOk(s: string, from: nat, ok: (string, nat) -> bool)
    requires from <= |s| && FirstWhere(s, from, ok).Some?
    ensures ok(s, FirstWhere(s, from, ok).value)
  {
    FirstWhereFirst(s, from, ok);
  }

  /** No position before the one `FirstWhere` finds satisfies `ok`. */
  lemma StopsAt(s: string, from: nat, ok: (string, nat) -> bool, e: nat, q: nat)
    requires from <= |s| && FirstWhere(s, from, ok) == Some(e) && from <= q < e
    ensures !ok(s, q)
  {
    FirstWhereFirst(s, from, ok);
  }

  /** How a scoped match lays out in the text: `type(scope)`, then the
      colon and blanks, then the body up to the end of the match. */
  predicate ScopedParts(s: string, m: Match)
  {
    |m.groups| == 3 &&
    var p, ty, sc, body := m.start, m.groups[0], m.groups[1], m.groups[2];
    p + |ty| + |sc| + 2 < m.end - |body| && m.end <= |s| &&
    |ty| > 0 && AllLetters(ty) && AllScopeChars(sc) &&
    s[p..p + |ty|] == ty && s[p + |ty|] == '(' && s[p + |ty| + 1..p + |ty| + 1 + |sc|] == sc &&
    s[p + |ty| + 1 + |sc|] == ')' && s[m.end - |body|..m.end] == body && m.text == s[p..m.end]
  }

  /** `[a-z0-9-_. ]*`. */
  predicate AllScopeChars(t: string)
  {
    forall k :: 0 <= k < |t| ==> IsScopeChar(t[k])
  }

  lemma ScopedMatchParts(s: string, m: Match)
    requires MatchAt(Scoped, s, m.start) == Some(m)
    ensures ScopedParts(s, m)
  {
    var p := m.start;
    MatchAtParts(Scoped, s, p);
    var h := HeaderAt(Scoped, s, p).value;
    var b := BodyStart(s, h.next);
    ScopedAssembled(s, p, h, b, FirstWhere(s, b, Boundary(Scoped)).value);
  }

  /** The layout of an assembled scoped match. */
  lemma ScopedAssembled(s: string, p: nat, h: Header, b: nat, e: nat)
    requires p <= |s| && ScopedHeader(s, p, IsScopeChar) == Some(h) && 0 < h.next <= |s|
    requires b == BodyStart(s, h.next) && b <= e <= |s|
    ensures ScopedParts(s, Assemble(Scoped, s, p, h, b, e))
  {
    ScopedHeaderSpans(s, p, IsScopeChar);
    LettersRun(s, p, h.typeEnd);
    ScopeRun(s, h.typeEnd + 1, h.scopeEnd);
    HeaderParts(s, p, h, b, e, Assemble(Scoped, s, p, h, b, e));
  }

  /** The layout of a match built from a scoped header and a body end. */
  lemma HeaderParts(s: string, p: nat, h: Header, b: nat, e: nat, m: Match)
    requires p < h.typeEnd < h.scopeEnd < h.next <= b <= e <= |s|
    requires s[h.typeEnd] == '(' && s[h.scopeEnd] == ')' && s[h.next - 1] == ':'
    requires AllLetters(s[p..h.typeEnd]) && AllScopeChars(s[h.typeEnd + 1..h.scopeEnd])
    requires m == Assemble(Scoped, s, p, h, b, e)
    ensures ScopedParts(s, m)
  {
    var ty, sc, body := s[p..h.typeEnd], s[h.typeEnd + 1..h.scopeEnd], s[b..e];
    assert m.start == p && m.end == e && m.groups == [ty, sc, body] && m.text == s[p..e];
    assert h.next - 1 != h.scopeEnd;
  }

  /** A greedy run of letters is all letters. */
  lemma LettersRun(s: string, a: nat, e: nat)
    requires a <= |s| && e == a + Span(s, a, IsLetter)
    ensures AllLetters(s[a..e])
  {
    SpanRun(s, a, IsLetter);
    var t := s[a..e];
    forall k | 0 <= k < |t| ensures IsLetter(t[k]) {
      assert t[k] == s[a + k];
    }
  }

  /** A greedy run of scope characters is all scope characters. */
  lemma ScopeRun(s: string, a: nat, e: nat)
    requires a <= |s| && e == a + Span(s, a, IsScopeChar)
    ensures AllScopeChars(s[a..e])
  {
    SpanRun(s, a, IsScopeChar);
    var t := s[a..e];
    forall k | 0 <= k < |t| ensures IsScopeChar(t[k]) {
      assert t[k] == s[a + k];
    }
  }

  /** A scoped header whose scope holds only `[a-z0-9\- ]` after a line
      break ends the body before it. */
  lemma PlainScopeIsBoundary(s: string, q: nat, h: Header)
    requires q < |s| && IsCrLf(s[q])
    requires ScopedHeader(s, q + Span(s, q, IsCrLf), IsScopeChar) == Some(h)
    requires forall k :: h.typeEnd < k < h.scopeEnd ==> IsBoundaryScopeChar(s[k])
    ensures ScopedBoundary(s, q)
  {
    var r := q + Span(s, q, IsCrLf);
    NarrowScope(s, r, h);
  }

  /** The same header read with the narrower scope class, when its scope
      fits that class. */
  lemma NarrowScope(s: string, r: nat, h: Header)
    requires r <= |s| && ScopedHeader(s, r, IsScopeChar) == Some(h)
    requires forall k :: h.typeEnd < k < h.scopeEnd ==> IsBoundaryScopeChar(s[k])
    ensures ScopedHeader(s, r, IsBoundaryScopeChar) == Some(h)
  {
    SpanOfClass(s, h.typeEnd + 1, h.scopeEnd, IsBoundaryScopeChar);
  }

  /** A scoped header whose scope holds `_` or `.` after a line break does
      not end the body before it: that paragraph is absorbed into the
      previous body (unless the sentinel stands there). */
  lemma OddScopeIsAbsorbed(s: string, q: nat, h: Header, k: nat)
    requires q < |s| && IsCrLf(s[q]) && !OccursAtIgnoreCase(s, EndMessage, q)
    requires ScopedHeader(s, q + Span(s, q, IsCrLf), IsScopeChar) == Some(h)
    requires h.typeEnd < k < h.scopeEnd && (s[k] == '_' || s[k] == '.')
    ensures !ScopedBoundary(s, q)
  {
    var r := q + Span(s, q, IsCrLf);
    NoNarrowScope(s, r, h, k);
  }

  /** A scope holding `_` or `.` does not fit the narrower class. */
  lemma NoNarrowScope(s: string, r: nat, h: Header, k: nat)
    requires r <= |s| && ScopedHeader(s, r, IsScopeChar) == Some(h)
    requires h.typeEnd < k < h.scopeEnd && (s[k] == '_' || s[k] == '.')
    ensures ScopedHeader(s, r, IsBoundaryScopeChar).None?
  {
    ScopedHeaderSpans(s, r, IsScopeChar);
    var a := h.typeEnd + 1;
    var e := a + Span(s, a, IsBoundaryScopeChar);
    SpanStopsBefore(s, a, k, IsBoundaryScopeChar);
    InRun(s, a, e, IsScopeChar);
    assert s[e] != ')';
  }

  /** A run of a class stops at or before a character outside it. */
  lemma SpanStopsBefore(s: string, a: nat, k: nat, cls: char -> bool)
    requires a <= k < |s| && !cls(s[k])
    ensures a + Span(s, a, cls) <= k
  {
    SpanRun(s, a, cls);
  }

  /** A position inside a run holds a character of the class. */
  lemma InRun(s: string, a: nat, j: nat, cls: char -> bool)
    requires a <= |s| && a <= j < a + Span(s, a, cls)
    ensures cls(s[j])
  {
    SpanRun(s, a, cls);
  }

  /** A span of a class that covers a stretch of class characters ending
      at a character outside it stops exactly there. */
  lemma {:induction false} SpanOfClass(s: string, p: nat, e: nat, cls: char -> bool)
    requires p <= e < |s| && !cls(s[e])
    requires forall k :: p <= k < e ==> cls(s[k])
    ensures Span(s, p, cls) == e - p
    decreases e - p
  {
    if p < e {
      SpanOfClass(s, p + 1, e, cls);
    }
  }

  /** The sentinel ends every body, whatever its case: a message that
      contains it in the middle of a body loses the rest of that body. */
  lemma SentinelEndsBody(g: Grammar, s: string, p: nat, q: nat)
    requires MatchAt(g, s, p).Some?
    requires var m := MatchAt(g, s, p).value; m.end - |m.groups[|m.groups| - 1]| <= q <= |s|
    requires OccursAtIgnoreCase(s, EndMessage, q)
    ensures MatchAt(g, s, p).value.end <= q
  {
    assert Boundary(g)(s, q) by {
      assert if g.Scoped? then ScopedBoundary(s, q) else UnscopedBoundary(s, q);
    }
    if q < MatchAt(g, s, p).value.end {
      MatchStopsFirst(g, s, p, q);
      assert false;
    }
  }

  // ---------------------------------------------------------------------
  // CHANGELOG_SKIPPED_COMMIT: ` *(?:chore?|progress?|style?|project?|ci|tests?) ?[:(]`
  // ---------------------------------------------------------------------

  /** The words the skip pattern accepts, each optional final letter
      written out. */
  const SkipWords: seq<string> :=
    ["chore", "chor", "progress", "progres", "style", "styl", "project", "projec", "ci", "tests", "test"]

  /** What must follow a skip word: an optional blank, then `:` or `(`. */
  predicate SkipTail(s: string, q: nat)
  {
    (q < |s| && (s[q] == ':' || s[q] == '(')) ||
    (q + 1 < |s| && s[q] == ' ' && (s[q + 1] == ':' || s[q + 1] == '('))
  }

  /** The pattern matches with its word at `p` (the leading blanks it
      allows only move the start of the match). */
  predicate SkippedAt(s: string, p: nat)
  {
    exists w :: w in SkipWords && OccursAtIgnoreCase(s, w, p) && SkipTail(s, p + |w|)
  }

  /** `CHANGELOG_SKIPPED_COMMIT.test(s)`: unanchored, so the word may
      stand anywhere. */
  predicate IsSkippedCommit(s: string)
  {
    exists p :: 0 <= p <= |s| && SkippedAt(s, p)
  }

  /** A subject that is one of the skip words, in any case, is skipped
      when written as `subject: `, the form the changelog checks, and the
      word may stand in the middle of a longer text. */
  lemma SkipWordSkipped(a: string, w: string, b: string)
    requires w in SkipWords
    ensures IsSkippedCommit(a + ToUpper(w) + ": " + b)
  {
    var s := a + ToUpper(w) + ": " + b;
    forall k | 0 <= k < |w| ensures SameIgnoreCase(s[|a| + k], w[k]) {
      assert s[|a| + k] == UpperChar(w[k]);
      UpperSame(w[k]);
    }
    assert SkipTail(s, |a| + |w|) by {
      assert s[|a| + |w|] == ':';
    }
    assert SkippedAt(s, |a|);
  }

  /** Upper-casing keeps a character equal to itself under the `i` flag. */
  lemma UpperSame(c: char)
    ensures SameIgnoreCase(UpperChar(c), c)
  {
  }

  /** The blank between the word and `(` is optional. */
  lemma SkipWordBeforeParen(a: string, w: string, b: string)
    requires w in SkipWords
    ensures IsSkippedCommit(a + w + " (" + b)
  {
    var t := a + w + " (" + b;
    forall k | 0 <= k < |w| ensures SameIgnoreCase(t[|a| + k], w[k]) {
      assert t[|a| + k] == w[k];
    }
    assert SkipTail(t, |a| + |w|) by {
      assert t[|a| + |w|] == ' ' && t[|a| + |w| + 1] == '(';
    }
    assert SkippedAt(t, |a|);
  }

  // ---------------------------------------------------------------------
  // CHANGELOG_MD_VERSION_SECTION(versionText)
  // ---------------------------------------------------------------------

  /** `[0-9a-zA-Z\-\.]`. */
  predicate IsVersionChar(c: char) { IsLetter(c) || IsDigit(c) || c == '-' || c == '.' }

  /** `[a-zA-Z0-9 ,:\/\.]`. */
  predicate IsDateChar(c: char) { IsLetter(c) || IsDigit(c) || c == ' ' || c == ',' || c == ':' || c == '/' || c == '.' }

  /** Where the version of a section header starts and ends and where the
      header (with the line breaks after it) ends. */
  datatype SectionHeader = SectionHeader(versionStart: nat, versionEnd: nat, end: nat)

  /** `^## <versionText> \[([0-9a-zA-Z\-\.]{3,})\] {0,1}\([a-zA-Z0-9 ,:\/\.]+\)[\r\n]+`
      at `p`, with the version text taken literally. */
  function MdHeaderAt(s: string, p: nat, versionText: string): (r: Option<SectionHeader>)
    requires p <= |s|
    ensures r.Some? ==> p < r.value.versionStart && r.value.versionStart + 3 <= r.value.versionEnd < r.value.end <= |s|
    ensures r.Some? ==> LineStart(s, p) && OccursAt(s, "## " + versionText + " [", p)
    ensures r.Some? ==> s[r.value.versionEnd] == ']' && IsCrLf(s[r.value.end - 1])
  {
    var lead := "## " + versionText + " [";
    if !LineStart(s, p) || !OccursAt(s, lead, p) then None
    else
      var v0 := p + |lead|;
      var v1 := v0 + Span(s, v0, IsVersionChar);
      if v1 < v0 + 3 || v1 == |s| || s[v1] != ']' then None
      else
        var d := if v1 + 1 < |s| && s[v1 + 1] == ' ' then v1 + 2 else v1 + 1;
        if d >= |s| || s[d] != '(' then None
        else
          var d1 := d + 1 + Span(s, d + 1, IsDateChar);
          if d1 == d + 1 || d1 == |s| || s[d1] != ')' then None
          else
            var e := d1 + 1 + Span(s, d1 + 1, IsCrLf);
            if e == d1 + 1 then None
            else
              SpanRun(s, d1 + 1, IsCrLf);
              Some(SectionHeader(v0, v1, e))
  }

  /** The version group of a section header is made of `[0-9a-zA-Z\-\.]`. */
  lemma MdHeaderVersion(s: string, p: nat, versionText: string)
    requires p <= |s| && MdHeaderAt(s, p, versionText).Some?
    ensures var h := MdHeaderAt(s, p, versionText).value;
      forall k :: h.versionStart <= k < h.versionEnd ==> IsVersionChar(s[k])
  {
    SpanRun(s, p + |"## " + versionText + " ["|, IsVersionChar);
  }

  /** The lookahead ending a section body: `stop` at the start of a line,
      or the end marker. */
  predicate SectionStop(s: string, q: nat, stop: string)
  {
    q <= |s| && ((LineStart(s, q) && OccursAt(s, stop, q)) || OccursAt(s, "###END###", q))
  }

  function StopAt(stop: string): (string, nat) -> bool
  {
    (t: string, q: nat) => SectionStop(t, q, stop)
  }

  /** A version section at `p` whose lazy body ends where `stop` starts a
      line: groups version and body. */
  function SectionAt(s: string, p: nat, versionText: string, stop: string): (r: Option<Match>)
    ensures r.Some? ==> r.value.start == p < r.value.end <= |s| && |r.value.groups| == 2
  {
    if p > |s| then None
    else
      match MdHeaderAt(s, p, versionText)
      case None => None
      case Some(h) =>
        match FirstWhere(s, h.end, StopAt(stop))
        case None => None
        case Some(q) => Some(Match(p, q, s[p..q], [s[h.versionStart..h.versionEnd], s[h.end..q]]))
  }

  /** The pattern as written: its lookahead is `^<versionText>`, so a
      following `## <versionText> ...` header never ends the body. */
  function MdSectionAsWritten(s: string, p: nat, versionText: string): (r: Option<Match>)
    ensures r.Some? ==> p <= |s| && MdHeaderAt(s, p, versionText).Some? && r.value.start == p
    ensures r.Some? ==> SectionStop(s, r.value.end, versionText)
    ensures r.Some? ==> forall k :: MdHeaderAt(s, p, versionText).value.end <= k < r.value.end ==>
      !SectionStop(s, k, versionText)
  {
    SectionAtStops(s, p, versionText, versionText);
    SectionAt(s, p, versionText, versionText)
  }

  /** The lookahead the markdown layout calls for: the next `## <versionText>`
      header. */
  function MdSection(s: string, p: nat, versionText: string): (r: Option<Match>)
    ensures r.Some? ==> p <= |s| && MdHeaderAt(s, p, versionText).Some? && r.value.start == p
    ensures r.Some? ==> SectionStop(s, r.value.end, "## " + versionText)
    ensures r.Some? ==> forall k :: MdHeaderAt(s, p, versionText).value.end <= k < r.value.end ==>
      !SectionStop(s, k, "## " + versionText)
  {
    SectionAtStops(s, p, versionText, "## " + versionText);
    SectionAt(s, p, versionText, "## " + versionText)
  }

  /** A section found ends at the first stop after its header. */
  lemma SectionAtStops(s: string, p: nat, versionText: string, stop: string)
    ensures var r := SectionAt(s, p, versionText, stop);
      r.Some? ==> (p <= |s| && MdHeaderAt(s, p, versionText).Some? && SectionStop(s, r.value.end, stop) &&
        forall k :: MdHeaderAt(s, p, versionText).value.end <= k < r.value.end ==> !SectionStop(s, k, stop))
  {
    if p <= |s| && MdHeaderAt(s, p, versionText).Some? {
      var h := MdHeaderAt(s, p, versionText).value;
      var f := StopAt(stop);
      FirstWhereFirst(s, h.end, f);
      var q := FirstWhere(s, h.end, f);
      if q.Some? {
        assert SectionAt(s, p, versionText, stop).value.end == q.value;
        assert f(s, q.value);
        forall k | h.end <= k < q.value ensures !SectionStop(s, k, stop) {
          assert !f(s, k);
        }
      }
    }
  }

  /** As written, a section never ends right before the next section's
      header line (for a version text that does not itself start with `#`):
      the body runs on into the following sections. */
  lemma AsWrittenSwallowsNextSection(s: string, p: nat, versionText: string, q: nat)
    requires MdSectionAsWritten(s, p, versionText).Some?
    requires |versionText| > 0 && versionText[0] != '#'
    requires q <= |s| && OccursAt(s, "## " + versionText, q)
    ensures MdSectionAsWritten(s, p, versionText).value.end != q
  {
    FoundOk(s, MdHeaderAt(s, p, versionText).value.end, StopAt(versionText));
    HeaderLineNoStop(s, versionText, q);
  }

  /** A `## <versionText>` line is not where `^<versionText>` or the end
      marker stands. */
  lemma HeaderLineNoStop(s: string, versionText: string, q: nat)
    requires |versionText| > 0 && versionText[0] != '#'
    requires q <= |s| && OccursAt(s, "## " + versionText, q)
    ensures !SectionStop(s, q, versionText)
  {
    assert s[q] == ("## " + versionText)[0] == '#';
    assert s[q + 2] == ("## " + versionText)[2] == ' ';
  }

  /** With the intended lookahead a section ends at the next section's
      header line when nothing stops it earlier. */
  lemma SectionEndsAtNextHeader(s: string, p: nat, versionText: string, q: nat)
    requires MdSection(s, p, versionText).Some?
    requires MdHeaderAt(s, p, versionText).value.end <= q <= |s|
    requires LineStart(s, q) && OccursAt(s, "## " + versionText, q)
    requires forall k :: MdHeaderAt(s, p, versionText).value.end <= k < q ==> !SectionStop(s, k, "## " + versionText)
    ensures MdSection(s, p, versionText).value.end == q
  {
    var f := StopAt("## " + versionText);
    var h := MdHeaderAt(s, p, versionText).value;
    assert f(s, q);
    forall k | h.end <= k < q ensures !f(s, k) {
    }
    FirstWhereIs(s, h.end, f, q);
  }

  /** `FirstWhere` finds the first position where `ok` holds. */
  lemma {:induction false} FirstWhereIs(s: string, from: nat, ok: (string, nat) -> bool, q: nat)
    requires from <= q <= |s| && ok(s, q)
    requires forall k :: from <= k < q ==> !ok(s, k)
    ensures FirstWhere(s, from, ok) == Some(q)
    decreases q - from
  {
    if from < q {
      FirstWhereIs(s, from + 1, ok, q);
    }
  }

  // ---------------------------------------------------------------------
  // ISSUES: group 1, an issue keyword and its `#<digits>` references
  // ---------------------------------------------------------------------

  /** The keyword alternatives in the order the engine tries them: each
      optional letter is first taken, then left out. */
  const IssueKeywords: seq<string> := [
    "bugs", "bug", "issues", "issue",
    "closeds", "closed", "closes", "close",
    "fixeds", "fixed", "fixes", "fixe", "fixds", "fixd", "fixs", "fix",
    "resolveds", "resolved", "resolves", "resolve",
    "refs", "ref", "references", "reference"]

  /** The length of one separator `&nbsp;`, ` ` or a line break at `q`, or
      0 when none stands there. */
  function SepLength(s: string, q: nat): (n: nat)
    ensures q + n <= |s| || n == 0
  {
    if OccursAtIgnoreCase(s, "&nbsp;", q) then 6
    else if q < |s| && (s[q] == ' ' || IsCrLf(s[q])) then 1
    else 0
  }

  /** Past a greedy run of separators. */
  function SkipSeps(s: string, q: nat): (r: nat)
    requires q <= |s|
    ensures q <= r <= |s|
    decreases |s| - q
  {
    var n := SepLength(s, q);
    if n == 0 then q else SkipSeps(s, q + n)
  }

  /** `<separators>#[0-9]+` at `q`: where the reference's digits end. */
  function RefAt(s: string, q: nat): (r: Option<nat>)
    requires q <= |s|
    ensures r.Some? ==> q < r.value <= |s|
  {
    var a := SkipSeps(s, q);
    if a < |s| && s[a] == '#' && Span(s, a + 1, IsDigit) > 0 then Some(a + 1 + Span(s, a + 1, IsDigit))
    else None
  }

  /** A reference ends with a digit. */
  lemma RefAtDigit(s: string, q: nat)
    requires q <= |s| && RefAt(s, q).Some?
    ensures IsDigit(s[RefAt(s, q).value - 1])
  {
    var a := SkipSeps(s, q);
    InRun(s, a + 1, a + Span(s, a + 1, IsDigit), IsDigit);
  }

  /** `<separators>,<separators>#[0-9]+` at `q`: where that further
      reference's digits end. */
  function NextRef(s: string, q: nat): (r: Option<nat>)
    requires q <= |s|
    ensures r.Some? ==> q < r.value <= |s|
  {
    var a := SkipSeps(s, q);
    if a < |s| && s[a] == ',' then RefAt(s, a + 1) else None
  }

  /** A further reference ends with a digit. */
  lemma NextRefDigit(s: string, q: nat)
    requires q <= |s| && NextRef(s, q).Some?
    ensures IsDigit(s[NextRef(s, q).value - 1])
  {
    RefAtDigit(s, SkipSeps(s, q) + 1);
  }

  /** `(?:<separators>,<separators>#[0-9]+)*`, greedy: past every further
      reference. */
  function MoreRefs(s: string, q: nat): (r: nat)
    requires q <= |s|
    ensures q <= r <= |s|
    decreases |s| - q
  {
    match NextRef(s, q)
    case None => q
    case Some(e) => MoreRefs(s, e)
  }

  /** The further references, when there are any, end with a digit. */
  lemma {:induction false} MoreRefsDigit(s: string, q: nat)
    requires q <= |s| && MoreRefs(s, q) > q
    ensures IsDigit(s[MoreRefs(s, q) - 1])
    decreases |s| - q
  {
    var e := NextRef(s, q).value;
    if MoreRefs(s, e) > e {
      MoreRefsDigit(s, e);
    } else {
      NextRefDigit(s, q);
    }
  }

  /** The first keyword, in the engine's order, that is followed by a
      reference. */
  function KeywordFrom(s: string, k: nat, words: seq<string>, i: nat): (r: Option<nat>)
    requires k <= |s| && i <= |words|
    ensures r.Some? ==> i <= r.value < |words|
    decreases |words| - i
  {
    if i == |words| then None
    else
      var w := words[i];
      if OccursAtIgnoreCase(s, w, k) && k + |w| <= |s| && RefAt(s, k + |w|).Some? then Some(i)
      else KeywordFrom(s, k, words, i + 1)
  }

  /** The keyword `KeywordFrom` picks stands at `k` with a reference after
      it. */
  lemma {:induction false} KeywordFromFound(s: string, k: nat, words: seq<string>, i: nat)
    requires k <= |s| && i <= |words| && KeywordFrom(s, k, words, i).Some?
    ensures var w := words[KeywordFrom(s, k, words, i).value];
      OccursAtIgnoreCase(s, w, k) && k + |w| <= |s| && RefAt(s, k + |w|).Some?
    decreases |words| - i
  {
    var w := words[i];
    if !(OccursAtIgnoreCase(s, w, k) && k + |w| <= |s| && RefAt(s, k + |w|).Some?) {
      KeywordFromFound(s, k, words, i + 1);
    }
  }

  /** The alternatives are tried in order: no keyword before the one
      `KeywordFrom` picks stands at `k` with a reference after it. */
  lemma {:induction false} KeywordFromFirst(s: string, k: nat, words: seq<string>, i: nat, j: nat)
    requires k <= |s| && i <= |words| && KeywordFrom(s, k, words, i).Some?
    requires i <= j < KeywordFrom(s, k, words, i).value
    ensures !(OccursAtIgnoreCase(s, words[j], k) && k + |words[j]| <= |s| && RefAt(s, k + |words[j]|).Some?)
    decreases |words| - i
  {
    if i < j {
      KeywordFromFirst(s, k, words, i + 1, j);
    }
  }

  /** A keyword of `words` at `k` with its references: where they end. */
  function KeywordGroupAt(s: string, k: nat, words: seq<string>): (r: Option<nat>)
    requires k <= |s|
    ensures r.Some? ==> k < r.value <= |s|
  {
    match KeywordFrom(s, k, words, 0)
    case None => None
    case Some(i) => RefsAfter(s, k + |words[i]|)
  }

  /** The first reference at `q` and the further ones after it: where they
      end. */
  function RefsAfter(s: string, q: nat): (r: Option<nat>)
    ensures r.Some? ==> q < r.value <= |s|
  {
    if q <= |s| then
      match RefAt(s, q)
      case None => None
      case Some(e) => Some(MoreRefs(s, e))
    else None
  }

  /** References after `q` start with one `#` reference and end with a
      digit. */
  lemma RefsAfterShape(s: string, q: nat)
    requires RefsAfter(s, q).Some?
    ensures q <= |s| && RefAt(s, q).Some? && IsDigit(s[RefsAfter(s, q).value - 1])
  {
    RefAtDigit(s, q);
    GroupEnd(s, RefAt(s, q).value, RefsAfter(s, q).value);
  }

  /** Group 1 of ISSUES when the keyword stands at `k`: where it ends. */
  function IssueGroupAt(s: string, k: nat): Option<nat>
    requires k <= |s|
  {
    KeywordGroupAt(s, k, IssueKeywords)
  }

  /** The group starts with the keyword `KeywordFrom` picks, holds at least
      one `#` reference after it and ends with a digit. */
  lemma KeywordGroupShape(s: string, k: nat, words: seq<string>)
    requires k <= |s| && KeywordGroupAt(s, k, words).Some?
    ensures KeywordFrom(s, k, words, 0).Some?
    ensures var e, w := KeywordGroupAt(s, k, words).value, words[KeywordFrom(s, k, words, 0).value];
      IsDigit(s[e - 1]) && OccursAtIgnoreCase(s, w, k) && k + |w| < e && RefAt(s, k + |w|).Some?
  {
    var i := KeywordFrom(s, k, words, 0).value;
    RefsAfterShape(s, k + |words[i]|);
    KeywordFromFound(s, k, words, 0);
  }

  /** The references after the first one end with a digit, the first one
      included when there are no others. */
  lemma GroupEnd(s: string, e: nat, r: nat)
    requires 0 < e <= |s| && IsDigit(s[e - 1]) && r == MoreRefs(s, e)
    ensures e <= r && IsDigit(s[r - 1])
  {
    if r > e {
      MoreRefsDigit(s, e);
    }
  }

  /** Group 1 of ISSUES starts with an issue keyword (any case), the first
      in the engine's order that has a reference after it, holds at least
      one `#` reference after the keyword, and ends with a digit. */
  lemma IssueGroupShape(s: string, k: nat)
    requires k <= |s| && IssueGroupAt(s, k).Some?
    ensures KeywordFrom(s, k, IssueKeywords, 0).Some?
    ensures var e, w := IssueGroupAt(s, k).value, IssueKeywords[KeywordFrom(s, k, IssueKeywords, 0).value];
      IsDigit(s[e - 1]) && OccursAtIgnoreCase(s, w, k) && k + |w| < e && RefAt(s, k + |w|).Some?
  {
    KeywordGroupShape(s, k, IssueKeywords);
  }
}
