/** The markdown changelog (`ChangelogMd`): the section text built from the
    commits of a release, the header line of a section, reading a section
    or the latest version back out of the file, and the list of subjects
    of an HTML-rendered section. */
module ChangelogMd {
  import opened Wrappers
  import opened Text
  import opened Regexes
  import Utils
  import Commits

  type Commit = Commits.Commit

  /** The helpers of the changelog base class that this file calls and that
      are not part of this model: whether a `"<subject>: "` text is one to
      leave out, the heading of a subject, and the final clean-up of an
      entry. */
  datatype Helpers = Helpers(isSkipped: string -> bool, formatSubject: string -> string, clean: string -> string)

  /** One `commitMsgMap` entry: a commit type and whether commits of that
      type go into the changelog. */
  datatype MsgMapEntry = MsgMapEntry(kind: string, included: bool)

  // ---------------------------------------------------------------------
  // createSectionFromCommits: one entry
  // ---------------------------------------------------------------------

  /** A later line of a multi-line body: the trimmed line behind a tab, or
      behind two when the line was indented by two spaces or a tab. */
  function LaterLine(line: string): string
  {
    (if StartsWith(line, "  ") || StartsWith(line, "\t") then "\t" else "") + "\t" + Trim(line)
  }

  /** Lines each behind a line break, as `render` writes them. */
  function Joined(render: string -> string, lines: seq<string>): string
    decreases |lines|
  {
    if |lines| == 0 then "" else Joined(render, lines[..|lines| - 1]) + EOL + render(lines[|lines| - 1])
  }

  /** Lines as `render` writes them, one per element. */
  function Mapped(render: string -> string, lines: seq<string>): (r: seq<string>)
    ensures |r| == |lines| && forall k :: 0 <= k < |lines| ==> r[k] == render(lines[k])
  {
    seq(|lines|, k requires 0 <= k < |lines| => render(lines[k]))
  }

  /** The text of a list item's body: a one-line body and a line break, or
      the first line followed by the re-indented later lines. */
  function BodyText(body: string): string
  {
    if IndexOf(body, EOL) == -1 then body + EOL
    else var lines := Split(body, '\n'); lines[0] + Joined(LaterLine, lines[1..]) + EOL
  }

  /** The body branch of `formatCommitPart`. */
  method FormatBody(body: string) returns (text: string)
    ensures text == BodyText(body)
  {
    if IndexOf(body, EOL) == -1 {
      return body + EOL;
    }
    text := FormatLines(Split(body, '\n'));
    text := text + EOL;
  }

  /** The multi-line loop of `formatCommitPart`: the first line, then each
      later one re-indented behind a line break. */
  method FormatLines(lines: seq<string>) returns (text: string)
    requires |lines| >= 1
    ensures text == lines[0] + Joined(LaterLine, lines[1..])
  {
    text := lines[0];
    var i := 1;
    while i < |lines|
      invariant 1 <= i <= |lines|
      invariant text == lines[0] + Joined(LaterLine, lines[1..i])
    {
      text := AppendLine(text, lines[i]);
      JoinedSnoc(LaterLine, lines, i);
      Regroup(lines[0], Joined(LaterLine, lines[1..i]), EOL, LaterLine(lines[i]));
      i := i + 1;
    }
    assert lines[1..i] == lines[1..];
  }

  /** One turn of the multi-line loop. */
  method AppendLine(text0: string, line: string) returns (text: string)
    ensures text == text0 + EOL + LaterLine(line)
  {
    text := text0 + EOL;
    if StartsWith(line, "  ") || StartsWith(line, "\t") {
      text := text + "\t";
    }
    text := text + "\t" + Trim(line);
    Regroup4(text0 + EOL, if StartsWith(line, "  ") || StartsWith(line, "\t") then "\t" else "", "\t", Trim(line));
  }

  lemma Assoc3(a: string, b: string, c: string)
    ensures (a + b) + c == a + (b + c)
  {
  }

  lemma Regroup4(a: string, b: string, c: string, d: string)
    ensures a + b + c + d == a + (b + c + d)
  {
  }

  lemma Regroup(a: string, b: string, c: string, d: string)
    ensures (a + b) + c + d == a + (b + c + d)
  {
  }

  lemma JoinedSnoc(render: string -> string, lines: seq<string>, i: nat)
    requires 1 <= i < |lines|
    ensures Joined(render, lines[1..i + 1]) == Joined(render, lines[1..i]) + EOL + render(lines[i])
  {
    assert lines[1..i + 1][..i - 1] == lines[1..i];
  }

  /** Whether a `commitMsgMap` entry leaves a subject out. */
  predicate Excluded(msgMap: seq<MsgMapEntry>, subject: string)
  {
    exists i :: 0 <= i < |msgMap| && ToLower(subject) == msgMap[i].kind && !msgMap[i].included
  }

  /** The `commitMsgMap` loop of `formatCommitPart`. */
  method IsExcluded(msgMap: seq<MsgMapEntry>, subject: string) returns (doContinue: bool)
    ensures doContinue == Excluded(msgMap, subject)
  {
    doContinue := false;
    for i := 0 to |msgMap|
      invariant doContinue == exists k :: 0 <= k < i && ToLower(subject) == msgMap[k].kind && !msgMap[k].included
    {
      if ToLower(subject) == msgMap[i].kind && !msgMap[i].included {
        doContinue := true;
      }
    }
  }

  /** The subject a typed commit is filed under: lower case, trimmed. */
  function SubjectOf(subject: string): string
  {
    Trim(ToLower(subject))
  }

  /** The bold scope label in front of an entry, when the scope has any
      text left once lower-cased, trimmed and proper-cased. */
  function ScopeLabel(scope: Option<string>): string
  {
    var sc := ScopeText(scope);
    if sc != "" then "**" + sc + ":** " else ""
  }

  /** A truthy scope lower-cased, trimmed and proper-cased. */
  function ScopeText(scope: Option<string>): string
  {
    if Commits.Truthy(scope) then Utils.ProperCase(Trim(ToLower(scope.value))) else ""
  }

  /** The heading of a run of entries with one subject. */
  function Heading(h: Helpers, subject: string): string
  {
    EOL + "### " + h.formatSubject(subject) + EOL + EOL
  }

  /** How one commit is rendered: as a plain list item when it has no
      subject, not at all when its subject is left out, or as an item filed
      under its subject, with a heading when the subject differs from the
      last one rendered. */
  datatype Entry =
    | Untyped(text: string)
    | Dropped
    | Typed(subject: string, heading: bool, scopeLabel: string, body: string)

  /** What `formatCommitPart` decides for one commit, given the last
      subject rendered. */
  function Classify(h: Helpers, msgMap: seq<MsgMapEntry>, last: string, subject: Option<string>, scope: Option<string>, body: string): (e: Entry)
    ensures e.Untyped? <==> !Commits.Truthy(subject)
    ensures e.Untyped? ==> e.text == "- " + body
    ensures e.Dropped? <==> (Commits.Truthy(subject) &&
      (h.isSkipped(SubjectOf(subject.value) + ": ") || Excluded(msgMap, SubjectOf(subject.value))))
    ensures e.Typed? ==> e.subject == SubjectOf(subject.value) && (e.heading <==> e.subject != last)
    ensures e.Typed? ==> e.scopeLabel == ScopeLabel(scope) && e.body == body
  {
    if !Commits.Truthy(subject) then Untyped("- " + body)
    else
      var subj := SubjectOf(subject.value);
      if h.isSkipped(subj + ": ") || Excluded(msgMap, subj) then Dropped
      else Typed(subj, subj != last, ScopeLabel(scope), body)
  }

  /** The list item of a typed entry. */
  function Item(scopeLabel: string, bodyText: string): (r: string)
    ensures StartsWith(r, "- ") && |r| >= 2 + |bodyText|
  {
    var r := "- " + scopeLabel + bodyText;
    assert r[..2] == "- ";
    r
  }

  /** The text an entry renders as. */
  function EntryText(h: Helpers, e: Entry): string
  {
    match e
    case Untyped(text) => text
    case Dropped => ""
    case Typed(subject, heading, scopeLabel, body) =>
      var item := Item(scopeLabel, BodyText(body));
      h.clean(if heading then Heading(h, subject) + item else item)
  }

  /** The last subject once an entry is rendered: a typed entry's subject,
      otherwise unchanged. */
  function NextLast(e: Entry, last: string): string
  {
    if e.Typed? then e.subject else last
  }

  /** `formatCommitPart`: the rendered text and the new last subject. */
  method FormatCommitPart(h: Helpers, msgMap: seq<MsgMapEntry>, last: string, subject: Option<string>, scope: Option<string>, body: string)
    returns (part: string, newLast: string)
    ensures var e := Classify(h, msgMap, last, subject, scope, body);
      part == EntryText(h, e) && newLast == NextLast(e, last)
  {
    ghost var e := Classify(h, msgMap, last, subject, scope, body);
    if !Commits.Truthy(subject) {
      assert e == Untyped("- " + body);
      return "- " + body, last;
    }
    var subj := SubjectOf(subject.value);
    var sc := ScopeText(scope);
    if h.isSkipped(subj + ": ") {
      assert e == Dropped;
      return "", last;
    }
    var doContinue := IsExcluded(msgMap, subj);
    if doContinue {
      assert e == Dropped;
      return "", last;
    }
    assert e == Typed(subj, subj != last, ScopeLabel(scope), body);
    var fmt := "- ";
    if sc != "" {
      fmt := fmt + "**" + sc + ":** ";
      Regroup4("- ", "**", sc, ":** ");
    }
    assert fmt == "- " + ScopeLabel(scope);
    var text := FormatBody(body);
    fmt := fmt + text;
    assert fmt == Item(ScopeLabel(scope), text);
    if subj != last {
      fmt := EOL + "### " + h.formatSubject(subj) + EOL + EOL + fmt;
    }
    part, newLast := h.clean(fmt), subj;
  }

  // ---------------------------------------------------------------------
  // createSectionFromCommits: the whole section
  // ---------------------------------------------------------------------

  /** The text the commits render as, in order, starting from a last
      subject; commits without a body are passed over. */
  function Render(h: Helpers, msgMap: seq<MsgMapEntry>, commits: seq<Commit>, last: string): string
    decreases |commits|
  {
    if |commits| == 0 then ""
    else
      var c := commits[0];
      if c.messageBody == "" then Render(h, msgMap, commits[1..], last)
      else
        var e := Classify(h, msgMap, last, c.subject, c.scope, c.messageBody);
        EntryText(h, e) + Render(h, msgMap, commits[1..], NextLast(e, last))
  }

  /** `createSectionFromCommits`: every commit with a body rendered in
      turn, the whole trimmed; no commits give no text. */
  method CreateSectionFromCommits(h: Helpers, msgMap: seq<MsgMapEntry>, commits: seq<Commit>) returns (section: string)
    ensures section == Trim(Render(h, msgMap, commits, ""))
    ensures |commits| == 0 ==> section == ""
  {
    if |commits| == 0 {
      return "";
    }
    var tmpCommits := RenderCommits(h, msgMap, commits);
    section := Trim(tmpCommits);
  }

  /** The loop of `createSectionFromCommits`: each commit's part appended
      in turn, the last subject carried from one commit to the next. */
  method RenderCommits(h: Helpers, msgMap: seq<MsgMapEntry>, commits: seq<Commit>) returns (tmpCommits: string)
    ensures tmpCommits == Render(h, msgMap, commits, "")
  {
    tmpCommits := "";
    var lastSubject := "";
    ghost var goal := Render(h, msgMap, commits, "");
    assert commits[0..] == commits;
    var i := 0;
    while i < |commits|
      invariant 0 <= i <= |commits|
      invariant tmpCommits + Render(h, msgMap, commits[i..], lastSubject) == goal
    {
      assert commits[i..] == [commits[i]] + commits[i + 1..];
      tmpCommits, lastSubject := AppendCommit(h, msgMap, commits[i], commits[i + 1..], tmpCommits, lastSubject, goal);
      i := i + 1;
    }
    assert commits[i..] == [];
    assert tmpCommits + "" == tmpCommits;
  }

  /** One turn of the commit loop: a commit without a body is passed over,
      any other has its part appended and may change the last subject. */
  method AppendCommit(h: Helpers, msgMap: seq<MsgMapEntry>, c: Commit, rest: seq<Commit>, text: string, last: string,
                      ghost goal: string) returns (text': string, last': string)
    requires text + Render(h, msgMap, [c] + rest, last) == goal
    ensures text' + Render(h, msgMap, rest, last') == goal
  {
    RenderFirst(h, msgMap, [c] + rest, last);
    assert ([c] + rest)[0] == c && ([c] + rest)[1..] == rest;
    if c.messageBody == "" {
      return text, last;
    }
    var part;
    part, last' := FormatCommitPart(h, msgMap, last, c.subject, c.scope, c.messageBody);
    text' := text + part;
    Assoc3(text, part, Render(h, msgMap, rest, last'));
  }

  /** The first commit's part of the text. */
  lemma RenderFirst(h: Helpers, msgMap: seq<MsgMapEntry>, commits: seq<Commit>, last: string)
    requires |commits| > 0
    ensures var c := commits[0];
      var e := Classify(h, msgMap, last, c.subject, c.scope, c.messageBody);
      Render(h, msgMap, commits, last) ==
        if c.messageBody == "" then Render(h, msgMap, commits[1..], last)
        else EntryText(h, e) + Render(h, msgMap, commits[1..], NextLast(e, last))
  {
  }

  /** The commits that have a body. */
  function WithBody(commits: seq<Commit>): (r: seq<Commit>)
    ensures forall k :: 0 <= k < |r| ==> r[k].messageBody != ""
    decreases |commits|
  {
    if |commits| == 0 then []
    else if commits[0].messageBody == "" then WithBody(commits[1..])
    else [commits[0]] + WithBody(commits[1..])
  }

  /** Commits without a body contribute nothing, not even to which subject
      was rendered last. */
  lemma {:induction false} BodilessIgnored(h: Helpers, msgMap: seq<MsgMapEntry>, commits: seq<Commit>, last: string)
    ensures Render(h, msgMap, commits, last) == Render(h, msgMap, WithBody(commits), last)
    decreases |commits|
  {
    if |commits| > 0 {
      var c := commits[0];
      if c.messageBody == "" {
        BodilessIgnored(h, msgMap, commits[1..], last);
      } else {
        var e := Classify(h, msgMap, last, c.subject, c.scope, c.messageBody);
        BodilessIgnored(h, msgMap, commits[1..], NextLast(e, last));
        var w := [c] + WithBody(commits[1..]);
        assert w[0] == c && w[1..] == WithBody(commits[1..]);
      }
    }
  }

  /** A typed entry sets the last subject, so the next commit filed under
      the same subject gets no heading of its own. */
  lemma SameSubjectSharesHeading(h: Helpers, msgMap: seq<MsgMapEntry>, last: string,
                                 s1: string, scope1: Option<string>, body1: string,
                                 s2: string, scope2: Option<string>, body2: string)
    requires Classify(h, msgMap, last, Some(s1), scope1, body1).Typed?
    requires s2 != "" && SubjectOf(s2) == SubjectOf(s1)
    ensures var e1 := Classify(h, msgMap, last, Some(s1), scope1, body1);
      var e2 := Classify(h, msgMap, NextLast(e1, last), Some(s2), scope2, body2);
      e2.Typed? && !e2.heading
  {
  }

  /** Case does not matter to how a subject or scope is rendered. */
  lemma CaseIgnored(h: Helpers, msgMap: seq<MsgMapEntry>, last: string, subject: string, scope: string, body: string)
    ensures Classify(h, msgMap, last, Some(ToUpper(subject)), Some(ToUpper(scope)), body)
         == Classify(h, msgMap, last, Some(subject), Some(scope), body)
  {
    SubjectCaseIgnored(subject);
    ScopeCaseIgnored(scope);
    ClassifySame(h, msgMap, last, Some(ToUpper(subject)), Some(subject), Some(ToUpper(scope)), Some(scope), body);
  }

  lemma SubjectCaseIgnored(subject: string)
    ensures Commits.Truthy(Some(ToUpper(subject))) == Commits.Truthy(Some(subject))
    ensures SubjectOf(ToUpper(subject)) == SubjectOf(subject)
  {
    LowerOfUpper(subject);
  }

  lemma ScopeCaseIgnored(scope: string)
    ensures ScopeLabel(Some(ToUpper(scope))) == ScopeLabel(Some(scope))
  {
    LowerOfUpper(scope);
    assert ScopeText(Some(ToUpper(scope))) == ScopeText(Some(scope));
  }

  /** Subjects filed alike and scopes labelled alike are classified alike. */
  lemma ClassifySame(h: Helpers, msgMap: seq<MsgMapEntry>, last: string, s1: Option<string>, s2: Option<string>,
                     scope1: Option<string>, scope2: Option<string>, body: string)
    requires Commits.Truthy(s1) == Commits.Truthy(s2)
    requires Commits.Truthy(s1) ==> SubjectOf(s1.value) == SubjectOf(s2.value)
    requires ScopeLabel(scope1) == ScopeLabel(scope2)
    ensures Classify(h, msgMap, last, s1, scope1, body) == Classify(h, msgMap, last, s2, scope2, body)
  {
  }

  lemma LowerOfUpper(s: string)
    ensures ToLower(ToUpper(s)) == ToLower(s)
  {
    forall k | 0 <= k < |s| ensures LowerChar(UpperChar(s[k])) == LowerChar(s[k]) {
      Utils.CaseKeepsWordChar(s[k]);
    }
  }

  /** The lines of a rendered body are the body's lines: the first as it
      was, each later one trimmed behind its tabs, then the empty rest
      after the closing line break. */
  lemma BodyTextLines(body: string)
    ensures var lines := Split(body, '\n');
      Split(BodyText(body), '\n') == [lines[0]] + Mapped(LaterLine, lines[1..]) + [""]
  {
    var lines := Split(body, '\n');
    SplitNoChar(body, '\n');
    LaterLinesNoBreak();
    if IndexOf(body, EOL) == -1 {
      CharIndex(body, '\n');
      assert lines == [body];
      assert lines[1..] == [];
      JoinedRoundTrip(LaterLine, lines);
      assert BodyText(body) == lines[0] + Joined(LaterLine, lines[1..]) + EOL;
    } else {
      JoinedRoundTrip(LaterLine, lines);
    }
  }

  /** Joining lines free of line breaks with line breaks, and a closing
      one, and splitting again gives back the lines with an empty rest. */
  lemma JoinedRoundTrip(render: string -> string, lines: seq<string>)
    requires |lines| >= 1 && forall k :: 0 <= k < |lines| ==> NoChar(lines[k], '\n')
    requires forall x :: NoChar(x, '\n') ==> NoChar(render(x), '\n')
    ensures Split(lines[0] + Joined(render, lines[1..]) + EOL, '\n') == [lines[0]] + Mapped(render, lines[1..]) + [""]
  {
    var init := [lines[0]] + Mapped(render, lines[1..]);
    var parts := init + [""];
    JoinedJoin(render, lines[0], lines[1..]);
    JoinAppend(init, "", EOL);
    assert Join(parts, EOL) == lines[0] + Joined(render, lines[1..]) + EOL;
    forall k | 0 <= k < |parts| ensures NoChar(parts[k], '\n') {
      if 0 < k < |parts| - 1 {
        assert parts[k] == render(lines[k]);
      }
    }
    SplitJoin(parts, '\n');
  }

  /** Re-indented lines are still single lines. */
  lemma LaterLinesNoBreak()
    ensures forall x :: NoChar(x, '\n') ==> NoChar(LaterLine(x), '\n')
  {
    forall x | NoChar(x, '\n') ensures NoChar(LaterLine(x), '\n') {
      LaterLineNoBreak(x);
    }
  }

  lemma LaterLineNoBreak(line: string)
    requires NoChar(line, '\n')
    ensures NoChar(LaterLine(line), '\n')
  {
    var tabs := if StartsWith(line, "  ") || StartsWith(line, "\t") then "\t" else "";
    TrimNoChar(line, '\n');
    assert NoChar(tabs, '\n') && NoChar("\t", '\n') by { TabNoBreak(); }
    NoCharConcat3(tabs, "\t", Trim(line), '\n');
  }

  lemma TabNoBreak()
    ensures NoChar("\t", '\n') && NoChar("", '\n')
  {
    assert "\t"[0] == '\t';
  }

  lemma NoCharConcat3(a: string, b: string, c: string, x: char)
    requires NoChar(a, x) && NoChar(b, x) && NoChar(c, x)
    ensures NoChar(a + b + c, x)
  {
  }

  /** Trimming removes characters, it adds none. */
  lemma TrimNoChar(s: string, c: char)
    requires NoChar(s, c)
    ensures NoChar(Trim(s), c)
  {
    var r := TrimRight(s);
    assert r == s[..|r|];
    SliceNoChar(s, 0, |r|, c);
    assert s[0..|r|] == r;
    var t := TrimLeft(r);
    assert t == r[|r| - |t|..];
    SliceNoChar(r, |r| - |t|, |r|, c);
    assert r[|r| - |t|..|r|] == t;
  }

  lemma SliceNoChar(s: string, i: nat, j: nat, c: char)
    requires i <= j <= |s| && NoChar(s, c)
    ensures NoChar(s[i..j], c)
  {
    forall k | 0 <= k < j - i ensures s[i..j][k] != c {
      assert s[i..j][k] == s[i + k];
    }
  }

  /** The first line and the later lines, joined with line breaks. */
  lemma {:induction false} JoinedJoin(render: string -> string, first: string, lines: seq<string>)
    ensures first + Joined(render, lines) == Join([first] + Mapped(render, lines), EOL)
    decreases |lines|
  {
    if |lines| > 0 {
      var init := lines[..|lines| - 1];
      JoinedJoin(render, first, init);
      assert Mapped(render, lines) == Mapped(render, init) + [render(lines[|lines| - 1])];
      assert [first] + Mapped(render, lines) == ([first] + Mapped(render, init)) + [render(lines[|lines| - 1])];
      JoinAppend([first] + Mapped(render, init), render(lines[|lines| - 1]), EOL);
    }
  }

  // ---------------------------------------------------------------------
  // getHeader
  // ---------------------------------------------------------------------

  /** The header line of a release section: `## <versionText> <title> (<date>)`. */
  function HeaderLine(versionText: string, title: string, date: string): string
  {
    "## " + versionText + " " + title + " (" + date + ")"
  }

  /** The header line, followed by a blank line and the header file's text
      when that file exists and is not empty. */
  function WithHeaderFile(line: string, headerFile: Option<string>): (r: string)
    ensures StartsWith(r, line)
  {
    if Commits.Truthy(headerFile) then line + EOL + EOL + headerFile.value else line
  }

  /** `getHeader` as written: the title is the `version` argument, and the
      next release's version takes its place only when a web path is set. */
  function GetHeaderAsWritten(versionText: string, version: Option<string>, nextVersion: string,
                              vcWebPath: string, date: string, headerFile: Option<string>): (r: string)
    ensures Commits.Truthy(version) ==> StartsWith(r, HeaderLine(versionText, version.value, date))
    ensures !Commits.Truthy(version) && vcWebPath != "" ==> StartsWith(r, HeaderLine(versionText, nextVersion, date))
    ensures !Commits.Truthy(version) && vcWebPath == "" ==> StartsWith(r, HeaderLine(versionText, Shown(version), date))
  {
    var v := if Commits.Truthy(version) then version.value else nextVersion;
    var title := if vcWebPath != "" then Some(v) else version;
    WithHeaderFile(HeaderLine(versionText, Shown(title), date), headerFile)
  }

  /** The version a section header is titled with: the one asked for, or
      the next release's when none is given. */
  function TitleVersion(version: Option<string>, nextVersion: string): string
  {
    if Commits.Truthy(version) then version.value else nextVersion
  }

  /** `getHeader` with the title taken from the next release whenever no
      version is given. */
  function GetHeader(versionText: string, version: Option<string>, nextVersion: string,
                     date: string, headerFile: Option<string>): (r: string)
    ensures Commits.Truthy(version) ==> StartsWith(r, HeaderLine(versionText, version.value, date))
    ensures !Commits.Truthy(version) ==> StartsWith(r, HeaderLine(versionText, nextVersion, date))
    ensures Commits.Truthy(headerFile) ==> EndsWith(r, EOL + EOL + headerFile.value)
    ensures !Commits.Truthy(headerFile) ==> r == HeaderLine(versionText, TitleVersion(version, nextVersion), date)
  {
    WithHeaderFile(HeaderLine(versionText, TitleVersion(version, nextVersion), date), headerFile)
  }

  /** The two agree whenever a version is given or a web path is set. */
  lemma HeaderAsWrittenAgrees(versionText: string, version: Option<string>, nextVersion: string,
                              vcWebPath: string, date: string, headerFile: Option<string>)
    requires Commits.Truthy(version) || vcWebPath != ""
    ensures GetHeaderAsWritten(versionText, version, nextVersion, vcWebPath, date, headerFile)
         == GetHeader(versionText, version, nextVersion, date, headerFile)
  {
  }

  /** Without a version and without a web path, the header as written is
      titled `undefined` and reads back as that version, whatever the next
      release's version is. */
  lemma HeaderAsWrittenUndefined(versionText: string, nextVersion: string, date: string,
                                 headerFile: Option<string>, rest: string)
    requires PlainDate(date)
    ensures var hdr := GetHeaderAsWritten(versionText, None, nextVersion, "", date, headerFile);
      StartsWith(hdr, HeaderLine(versionText, "undefined", date)) &&
      LatestVersion(hdr + EOL + rest, versionText) == Some("undefined")
  {
    UndefinedIsPlain();
    ReadHeaderBack(versionText, "undefined", date, headerFile, rest);
  }

  lemma UndefinedIsPlain()
    ensures PlainVersion("undefined")
  {
    var u := "undefined";
    forall i | 0 <= i < |u| ensures !IsWhiteSpace(u[i]) {
      assert 'a' <= u[i] <= 'z';
    }
  }

  /** A header written for a version is read back as that version: the
      latest version of a file that starts with the header is the title. */
  lemma HeaderRoundTrip(versionText: string, version: Option<string>, nextVersion: string,
                        date: string, headerFile: Option<string>, rest: string)
    requires PlainVersion(TitleVersion(version, nextVersion)) && PlainDate(date)
    ensures LatestVersion(GetHeader(versionText, version, nextVersion, date, headerFile) + EOL + rest, versionText)
         == Some(TitleVersion(version, nextVersion))
  {
    ReadHeaderBack(versionText, TitleVersion(version, nextVersion), date, headerFile, rest);
  }

  lemma ReadHeaderBack(versionText: string, title: string, date: string, headerFile: Option<string>, rest: string)
    requires PlainVersion(title) && PlainDate(date)
    ensures LatestVersion(WithHeaderFile(HeaderLine(versionText, title, date), headerFile) + EOL + rest, versionText)
         == Some(title)
  {
    var line := HeaderLine(versionText, title, date);
    var tail := if Commits.Truthy(headerFile) then EOL + headerFile.value + EOL + rest else rest;
    assert WithHeaderFile(line, headerFile) + EOL + rest == line + EOL + tail;
    ReadLineBack(versionText, title, date, tail);
  }

  lemma ReadLineBack(versionText: string, title: string, date: string, tail: string)
    requires PlainVersion(title) && PlainDate(date)
    ensures LatestVersion(HeaderLine(versionText, title, date) + EOL + tail, versionText) == Some(title)
  {
    var dated := title + " (" + date + ")";
    assert HeaderLine(versionText, title, date) + EOL + tail == ("## " + versionText + " ") + dated + (EOL + tail);
    NoBreakInDated(title, date);
    LatestVersionOfLine(versionText, dated, EOL + tail);
    TrimUnchanged(dated);
    DropDateOfTitle(title, date);
  }

  /** The latest version of a file whose first line is a section header:
      the rest of that line, trimmed and without its date. */
  lemma LatestVersionOfLine(versionText: string, line: string, tail: string)
    requires NoChar(line, '\n') && |tail| > 0 && tail[0] == '\n'
    ensures LatestVersion(("## " + versionText + " ") + line + tail, versionText) == Some(DropDate(Trim(line)))
  {
    var head := "## " + versionText + " ";
    var contents := head + line + tail;
    assert OccursAt(contents, head, 0);
    assert IndexOf(contents, head) == 0;
    var start := |versionText| + 4;
    forall k | start <= k < start + |line| ensures contents[k] != '\n' {
      assert contents[k] == line[k - start];
    }
    FirstCharFrom(contents, '\n', start, start + |line|);
    assert contents[start..start + |line|] == line;
    LatestVersionAt(contents, versionText, start + |line|);
  }

  /** The latest version when the first header is at the start and its line
      ends at `e`. */
  lemma LatestVersionAt(contents: string, versionText: string, e: nat)
    requires IndexOf(contents, "## " + versionText + " ") == 0
    requires |versionText| + 4 <= e <= |contents| && IndexOfFrom(contents, "\n", |versionText| + 4) == e
    ensures LatestVersion(contents, versionText) == Some(DropDate(Trim(contents[|versionText| + 4..e])))
  {
  }

  /** A version that is not empty and holds no white space. */
  predicate PlainVersion(v: string)
  {
    v != "" && forall i :: 0 <= i < |v| ==> !IsWhiteSpace(v[i])
  }

  /** A date that is not empty and holds no line terminator. */
  predicate PlainDate(d: string)
  {
    d != "" && forall i :: 0 <= i < |d| ==> !IsLineTerminator(d[i])
  }

  lemma NoBreakInDated(title: string, date: string)
    requires PlainVersion(title) && PlainDate(date)
    ensures NoChar(title + " (" + date + ")", '\n')
  {
    var s := title + " (" + date + ")";
    forall i | 0 <= i < |s| ensures s[i] != '\n' {
      if i < |title| {
        assert s[i] == title[i];
      } else if i >= |title| + 2 && i < |s| - 1 {
        assert s[i] == date[i - |title| - 2];
      }
    }
  }

  /** The first `c` at or after `from` is found there. */
  lemma FirstCharFrom(s: string, c: char, from: nat, q: nat)
    requires from <= q < |s| && s[q] == c
    requires forall k :: from <= k < q ==> s[k] != c
    ensures IndexOfFrom(s, [c], from) == q
  {
    assert OccursAt(s, [c], q);
    forall k | from <= k < q ensures !OccursAt(s, [c], k) {
      assert s[k..k + 1][0] == s[k];
    }
  }

  // ---------------------------------------------------------------------
  // getSections without a version: the latest version in the file
  // ---------------------------------------------------------------------

  /** The last `)` in `s[lo..hi]`: where a greedy `.+` followed by `\)`
      stops. */
  function CloseBefore(s: string, lo: nat, hi: nat): (r: Option<nat>)
    requires hi <= |s|
    ensures r.Some? ==> lo <= r.value < hi && s[r.value] == ')'
    ensures r.Some? ==> forall k :: r.value < k < hi ==> s[k] != ')'
    ensures r.None? ==> forall k :: lo <= k < hi ==> s[k] != ')'
    decreases hi
  {
    if hi <= lo then None
    else if s[hi - 1] == ')' then Some(hi - 1)
    else CloseBefore(s, lo, hi - 1)
  }

  predicate NotLineTerminator(c: char) { !IsLineTerminator(c) }

  /** The regular expression ` \(.+\)` tried at `p`: a space, an opening
      parenthesis, at least one character on the same line and the last
      closing parenthesis on that line. */
  function DateAt(s: string, p: nat): (r: Option<nat>)
    ensures r.Some? ==> p + 4 <= r.value <= |s| && s[p] == ' ' && s[p + 1] == '(' && s[r.value - 1] == ')'
  {
    if p + 1 < |s| && s[p] == ' ' && s[p + 1] == '(' then
      var run := p + 2 + Span(s, p + 2, NotLineTerminator);
      match CloseBefore(s, p + 3, run)
      case None => None
      case Some(q) => Some(q + 1)
    else None
  }

  /** `s.replace(/ \(.+\)/, "")`: the first dated part removed. */
  function DropDate(s: string): (r: string)
    ensures |r| <= |s|
  {
    match FirstMatch(s, DateAt, 0)
    case None => s
    case Some(m) => s[..m.0] + s[m.1..]
  }

  /** A text without ` (` is left as it is. */
  lemma DropDateUndated(s: string)
    requires forall p :: 0 <= p < |s| - 1 ==> !(s[p] == ' ' && s[p + 1] == '(')
    ensures DropDate(s) == s
  {
    forall p | 0 <= p <= |s| ensures !Hit(s, DateAt, p) {
      if p + 1 < |s| {
        assert !(s[p] == ' ' && s[p + 1] == '(');
      }
    }
  }

  /** The date written after a version is removed and the version is left. */
  lemma DropDateOfTitle(title: string, date: string)
    requires PlainVersion(title) && PlainDate(date)
    ensures DropDate(title + " (" + date + ")") == title
  {
    var s := title + " (" + date + ")";
    var p := |title|;
    forall k | p + 2 <= k < |s| ensures NotLineTerminator(s[k]) {
      if k < |s| - 1 {
        assert s[k] == date[k - p - 2];
      }
    }
    SpanRun(s, p + 2, NotLineTerminator);
    assert p + 2 + Span(s, p + 2, NotLineTerminator) == |s|;
    assert s[|s| - 1] == ')';
    assert DateAt(s, p) == Some(|s|);
    assert Hit(s, DateAt, p);
    forall q | 0 <= q < p ensures !Hit(s, DateAt, q) {
      assert s[q] == title[q];
    }
    assert s[..p] == title;
  }

  /** `getSections()` with no version: the version on the first section
      header's line, with its date removed; absent when there is no header
      or the header line has no line break after it. */
  function LatestVersion(contents: string, versionText: string): (r: Option<string>)
    ensures r.Some? ==> Contains(contents, "## " + versionText + " ")
  {
    var i1 := IndexOf(contents, "## " + versionText + " ");
    if i1 == -1 then None
    else
      var start := i1 + |versionText| + 4;
      var i2 := IndexOfFrom(contents, "\n", start);
      if i2 == -1 then None else Some(DropDate(Trim(contents[start..i2])))
  }

  // ---------------------------------------------------------------------
  // getSections with a version: one section of the file
  // ---------------------------------------------------------------------

  /** The header of the section of `version`, plain or as a link. */
  function Plain(versionText: string, version: string): string { "## " + versionText + " " + version }
  function Bracketed(versionText: string, version: string): string { "## " + versionText + " [" + version }

  /** Where the section starting at `start` ends: at the next section
      header, or at the end of the file. */
  function SectionEnd(contents: string, versionText: string, start: nat): (e: nat)
    requires start < |contents|
    ensures start < e <= |contents|
    ensures e == |contents| || OccursAt(contents, "## " + versionText + " ", e)
    ensures forall k :: start < k < e ==> !OccursAt(contents, "## " + versionText + " ", k)
  {
    var i2 := IndexOfFrom(contents, "## " + versionText + " ", start + 1);
    if i2 == -1 then |contents| else i2
  }

  /** Where `getSections(version)` as written starts the section: the first
      place the plain header text occurs, else the first place the linked
      one does. The match is a prefix match, so a longer version that
      starts with the requested one is taken for it. */
  function SectionStartAsWritten(contents: string, versionText: string, version: string): (r: Option<nat>)
    ensures r.Some? ==> r.value < |contents|
    ensures r.Some? ==>
      OccursAt(contents, Plain(versionText, version), r.value) || OccursAt(contents, Bracketed(versionText, version), r.value)
  {
    var i := IndexOf(contents, Plain(versionText, version));
    if i != -1 then Some(i)
    else
      var j := IndexOf(contents, Bracketed(versionText, version));
      if j != -1 then Some(j) else None
  }

  /** The section text `getSections(version)` as written returns. */
  function SectionAsWritten(contents: string, versionText: string, version: string): (r: string)
    ensures r != "" <==> Contains(contents, Plain(versionText, version)) || Contains(contents, Bracketed(versionText, version))
  {
    match SectionStartAsWritten(contents, versionText, version)
    case None => ""
    case Some(p) => contents[p..SectionEnd(contents, versionText, p)]
  }

  /** A character that can continue a version number. */
  predicate IsVersionChar(c: char) { IsLetter(c) || IsDigit(c) || c == '.' || c == '-' || c == '+' }

  /** The header text `pat` at `p`, with the version ending there. */
  predicate HeaderAt(contents: string, pat: string, p: nat)
  {
    OccursAt(contents, pat, p) && (p + |pat| == |contents| || !IsVersionChar(contents[p + |pat|]))
  }

  function HeaderMatch(pat: string): (string, nat) -> Option<nat>
  {
    (s: string, p: nat) => if HeaderAt(s, pat, p) then Some(p + |pat|) else None
  }

  lemma HeaderMatchHit(pat: string, s: string, p: nat)
    ensures Hit(s, HeaderMatch(pat), p) <==> HeaderAt(s, pat, p)
  {
  }

  /** The first place the header of `version` occurs with the version
      ending there: plain headers first, then linked ones. */
  function SectionStart(contents: string, versionText: string, version: string): (r: Option<nat>)
  {
    match FirstMatch(contents, HeaderMatch(Plain(versionText, version)), 0)
    case Some(m) => Some(m.0)
    case None =>
      match FirstMatch(contents, HeaderMatch(Bracketed(versionText, version)), 0)
      case Some(m) => Some(m.0)
      case None => None
  }

  /** The section of `version`: from its header to the next section header
      or the end of the file, or empty when the file has no such header. */
  function Section(contents: string, versionText: string, version: string): string
  {
    match SectionStart(contents, versionText, version)
    case None => ""
    case Some(p) =>
      SectionStartFound(contents, versionText, version);
      contents[p..SectionEnd(contents, versionText, p)]
  }

  /** A header of the exact version, plain or linked. */
  predicate ExactHeaderAt(contents: string, versionText: string, version: string, p: nat)
  {
    HeaderAt(contents, Plain(versionText, version), p) || HeaderAt(contents, Bracketed(versionText, version), p)
  }

  /** The start found is an exact header; a plain one is preferred, and the
      first one of its kind is taken. */
  lemma SectionStartFound(contents: string, versionText: string, version: string)
    ensures var r := SectionStart(contents, versionText, version);
      r.Some? <==> exists p: nat :: ExactHeaderAt(contents, versionText, version, p)
    ensures var r := SectionStart(contents, versionText, version);
      r.Some? ==> r.value < |contents| && ExactHeaderAt(contents, versionText, version, r.value)
    ensures var r := SectionStart(contents, versionText, version);
      (exists p: nat :: HeaderAt(contents, Plain(versionText, version), p)) ==>
        r.Some? && HeaderAt(contents, Plain(versionText, version), r.value) &&
        forall k :: 0 <= k < r.value ==> !HeaderAt(contents, Plain(versionText, version), k)
  {
    var pl := Plain(versionText, version);
    var br := Bracketed(versionText, version);
    var r := SectionStart(contents, versionText, version);
    var m1 := FirstMatch(contents, HeaderMatch(pl), 0);
    var m2 := FirstMatch(contents, HeaderMatch(br), 0);
    forall p: nat ensures Hit(contents, HeaderMatch(pl), p) <==> HeaderAt(contents, pl, p) {
      HeaderMatchHit(pl, contents, p);
    }
    forall p: nat ensures Hit(contents, HeaderMatch(br), p) <==> HeaderAt(contents, br, p) {
      HeaderMatchHit(br, contents, p);
    }
    if m1.Some? {
      assert ExactHeaderAt(contents, versionText, version, m1.value.0);
    }
    if m1.None? && m2.Some? {
      assert ExactHeaderAt(contents, versionText, version, m2.value.0);
      assert forall p: nat :: !HeaderAt(contents, pl, p);
    }
    if m1.None? && m2.None? {
      assert forall p: nat :: !ExactHeaderAt(contents, versionText, version, p);
    }
  }

  /** The section found begins with the header of exactly the version asked
      for, and runs to the next section header or the end of the file. */
  lemma SectionShape(contents: string, versionText: string, version: string)
    ensures var r := Section(contents, versionText, version);
      r != "" <==> exists p: nat :: ExactHeaderAt(contents, versionText, version, p)
    ensures var r := Section(contents, versionText, version);
      r != "" ==> exists p: nat :: (ExactHeaderAt(contents, versionText, version, p) &&
        p < |contents| && r == contents[p..SectionEnd(contents, versionText, p)])
  {
    SectionStartFound(contents, versionText, version);
    var s := SectionStart(contents, versionText, version);
    if s.Some? {
      var p := s.value;
      var e := SectionEnd(contents, versionText, p);
      assert Section(contents, versionText, version) == contents[p..e];
      assert contents[p..e] != "" by { assert p < e; }
    }
  }

  /** As written, asking for `1.2.1` in a file whose first header is
      `1.2.10` (or any longer version starting with it) returns that
      longer version's section. */
  lemma PrefixTakenAsWritten(versionText: string, version: string, c: char, rest: string)
    requires IsVersionChar(c) && NoChar(versionText, '#') && VersionChars(version)
    ensures SectionStartAsWritten(Plain(versionText, version) + [c] + rest, versionText, version) == Some(0)
    ensures StartsWith(SectionAsWritten(Plain(versionText, version) + [c] + rest, versionText, version),
                       Plain(versionText, version) + [c])
  {
    var pl := Plain(versionText, version);
    var contents := pl + [c] + rest;
    assert OccursAt(contents, pl, 0);
    assert IndexOf(contents, pl) == 0;
    var e := SectionEnd(contents, versionText, 0);
    assert OccursAt(contents, "## " + versionText + " ", 0);
    assert e >= |pl| + 1 by {
      if e <= |pl| {
        LongerHeaderHasNoHashAt(versionText, version, c, rest, e);
      }
    }
    assert contents[0..e][..|pl| + 1] == pl + [c];
  }

  lemma LongerHeaderHasNoHashAt(versionText: string, version: string, c: char, rest: string, e: nat)
    requires IsVersionChar(c) && NoChar(versionText, '#') && VersionChars(version)
    requires 0 < e <= |Plain(versionText, version)|
    ensures !OccursAt(Plain(versionText, version) + [c] + rest, "## " + versionText + " ", e)
  {
    var pl := Plain(versionText, version);
    var contents := pl + [c] + rest;
    var w := |versionText| + 3;
    var hdr := "## " + versionText + " ";
    assert hdr[0] == '#' && hdr[1] == '#';
    if e == 1 {
      assert contents[2] == ' ';
      MismatchNotAt(contents, hdr, e, 1);
    } else if e < 3 {
      assert contents[e] == ' ';
      MismatchNotAt(contents, hdr, e, 0);
    } else if e < w {
      assert contents[e] == versionText[e - 3];
      MismatchNotAt(contents, hdr, e, 0);
    } else if e == w {
      assert contents[e] == ' ';
      MismatchNotAt(contents, hdr, e, 0);
    } else if e < |pl| {
      assert contents[e] == version[e - w - 1];
      MismatchNotAt(contents, hdr, e, 0);
    } else {
      assert contents[e] == c;
      MismatchNotAt(contents, hdr, e, 0);
    }
  }

  lemma MismatchNotAt(s: string, sub: string, i: nat, k: nat)
    requires k < |sub| && i + k < |s| && s[i + k] != sub[k]
    ensures !OccursAt(s, sub, i)
  {
  }

  /** The exact match does not take the longer version's header for the
      one asked for. */
  lemma PrefixSkipped(versionText: string, version: string, c: char, rest: string)
    requires IsVersionChar(c) && VersionChars(version)
    ensures SectionStart(Plain(versionText, version) + [c] + rest, versionText, version) != Some(0)
  {
    var contents := Plain(versionText, version) + [c] + rest;
    SectionStartFound(contents, versionText, version);
    assert contents[|Plain(versionText, version)|] == c;
    assert !HeaderAt(contents, Plain(versionText, version), 0);
    var k := |versionText| + 4;
    assert IsVersionChar(contents[k]) by {
      if |version| > 0 {
        assert contents[k] == version[0];
      } else {
        assert contents[k] == c;
      }
    }
    assert Bracketed(versionText, version)[k] == '[';
    assert !OccursAt(contents, Bracketed(versionText, version), 0);
  }

  /** A version made of version characters only. */
  predicate VersionChars(v: string)
  {
    forall i :: 0 <= i < |v| ==> IsVersionChar(v[i])
  }

  /** `getSections(version)`: an error when no file is named, `""` when the
      file does not exist, the latest version when no version is asked for,
      and the section of that version otherwise (before any HTML
      conversion). */
  function GetSections(inputFile: string, changelogFile: string, contents: Option<string>,
                       versionText: string, version: Option<string>): (r: Result<Option<string>>)
    ensures r.Err? <==> inputFile == "" && changelogFile == ""
    ensures r.Err? ==> r.msg == "160"
    ensures r.Ok? && contents.None? ==> r.value == Some("")
    ensures r.Ok? && contents.Some? && !Commits.Truthy(version) && r.value.Some? ==>
      Contains(contents.value, "## " + versionText + " ")
    ensures r.Ok? && contents.Some? && Commits.Truthy(version) ==>
      r.value.Some? && (r.value.value == "" || exists p: nat :: ExactHeaderAt(contents.value, versionText, version.value, p))
  {
    if inputFile == "" && changelogFile == "" then Err("160")
    else if contents.None? then Ok(Some(""))
    else if !Commits.Truthy(version) then Ok(LatestVersion(contents.value, versionText))
    else
      SectionShape(contents.value, versionText, version.value);
      Ok(Some(Section(contents.value, versionText, version.value)))
  }

  // ---------------------------------------------------------------------
  // getSubjectsFromHtml
  // ---------------------------------------------------------------------

  /** Where a lazy `.+?` starting at `q` stops: the first position after
      `q` where the lookahead `look` holds, when no line terminator comes
      before it. */
  function LazyLine(s: string, q: nat, look: (string, nat) -> bool): (r: Option<nat>)
    requires q <= |s|
    ensures r.Some? ==> q < r.value <= |s| && look(s, r.value)
    ensures r.Some? ==> forall k :: q <= k < r.value ==> !IsLineTerminator(s[k])
  {
    if q == |s| || IsLineTerminator(s[q]) then None
    else
      var stop := LookOrBreak(look);
      match FirstWhere(s, q + 1, stop)
      case None => None
      case Some(e) =>
        FirstWhereFirst(s, q + 1, stop);
        forall k | q <= k < e ensures !IsLineTerminator(s[k]) {
          if k > q {
            assert !stop(s, k);
          }
        }
        if look(s, e) then Some(e) else None
  }

  function LookOrBreak(look: (string, nat) -> bool): (string, nat) -> bool
  {
    (t: string, e: nat) => look(t, e) || (e < |t| && IsLineTerminator(t[e]))
  }

  /** The lookahead `(?=(<br>-))`. */
  predicate ItemAhead(s: string, e: nat) { OccursAt(s, "<br>-", e) }

  /** The lookahead `(?=(<br>###|$))` of a multiline expression. */
  predicate SectionEndAhead(s: string, e: nat)
  {
    OccursAt(s, "<br>###", e) || e >= |s| || IsLineTerminator(s[e])
  }

  /** `/\w*(?<=### ).+?(?=(<br>-))/gm` tried at `p`. The lookbehind ends
      in a space, so the word run before it can only be empty: the match
      starts right after `### ` and runs to the first `<br>-` on the line. */
  function HeadingAt(s: string, p: nat): (r: Option<Match>)
    ensures r.Some? ==> r.value.start == p < r.value.end <= |s| && r.value.text == s[p..r.value.end]
  {
    if 4 <= p <= |s| && s[p - 4..p] == "### " then
      match LazyLine(s, p, ItemAhead)
      case None => None
      case Some(e) => Some(Match(p, e, s[p..e], []))
    else None
  }

  /** The subject expression built from a heading, `\w*(?<=<section>).+?(?=(<br>###|$))`
      with flags `gm`, tried at `p`: the greedy word run gives back one
      character at a time until the text before the current position ends
      with the heading and a match of the rest follows. */
  function ItemsFrom(s: string, section: string, p: nat, k: nat): (r: Option<Match>)
    requires p + k <= |s|
    ensures r.Some? ==> r.value.start == p < r.value.end <= |s| && r.value.text == s[p..r.value.end]
    decreases k
  {
    var behind := p + k >= |section| && s[p + k - |section|..p + k] == section;
    var e := if behind then LazyLine(s, p + k, SectionEndAhead) else None;
    if e.Some? then Some(Match(p, e.value, s[p..e.value], []))
    else if k == 0 then None
    else ItemsFrom(s, section, p, k - 1)
  }

  function ItemsAt(section: string): (string, nat) -> Option<Match>
  {
    (s: string, p: nat) => if p <= |s| then ItemsFrom(s, section, p, Span(s, p, IsWordChar)) else None
  }

  lemma HeadingAdvances(s: string)
    ensures Advances(HeadingAt, s)
  {
  }

  lemma ItemsAdvances(section: string, s: string)
    ensures Advances(ItemsAt(section), s)
  {
  }

  /** The heading with its plural trimmed: `es<br>` dropped except from
      `Features<br>`, otherwise `s<br>` dropped except from
      `Miscellaneous<br>`. */
  function Singular(section: string): string
  {
    if EndsWith(section, "es<br>") && section != "Features<br>" then section[..|section| - 6]
    else if EndsWith(section, "s<br>") && section != "Miscellaneous<br>" then section[..|section| - 5]
    else section
  }

  /** The subject recorded for a heading: without its first `<br>`, trimmed. */
  function SubjectName(section: string): string
  {
    Trim(ReplaceFirst(section, "<br>", ""))
  }

  /** What starts an item of a rendered section. */
  const ItemMark: string := "<br>- "

  /** The number of `<br>- ` items the `indexOf` loop finds from `from`. */
  function ItemCount(text: string, from: nat): nat
    requires from <= |text|
    decreases |text| - from
  {
    var i := IndexOfFrom(text, ItemMark, from);
    if i == -1 then 0 else 1 + ItemCount(text, i + 1)
  }

  /** The positions at or after `from` where an item starts, counted one
      by one. */
  function Occurrences(text: string, pat: string, from: nat): nat
    decreases |text| + 1 - from
  {
    if from > |text| then 0
    else (if OccursAt(text, pat, from) then 1 else 0) + Occurrences(text, pat, from + 1)
  }

  /** The `indexOf` loop counts every position where an item starts. */
  lemma {:induction false} ItemCountCountsAll(text: string, from: nat)
    requires from <= |text|
    ensures ItemCount(text, from) == Occurrences(text, ItemMark, from)
    decreases |text| - from
  {
    var i := IndexOfFrom(text, ItemMark, from);
    if i == -1 {
      assert ItemCount(text, from) == 0;
      NoneFrom(text, ItemMark, from);
    } else {
      ItemCountStep(text, from);
      ItemCountCountsAll(text, i + 1);
      NoneBetween(text, ItemMark, from, i);
    }
  }

  lemma {:induction false} NoneFrom(text: string, pat: string, from: nat)
    requires forall k :: from <= k ==> !OccursAt(text, pat, k)
    ensures Occurrences(text, pat, from) == 0
    decreases |text| + 1 - from
  {
    if from <= |text| {
      NoneFrom(text, pat, from + 1);
    }
  }

  lemma {:induction false} NoneBetween(text: string, pat: string, from: nat, i: nat)
    requires from <= i <= |text| && OccursAt(text, pat, i)
    requires forall k :: from <= k < i ==> !OccursAt(text, pat, k)
    ensures Occurrences(text, pat, from) == 1 + Occurrences(text, pat, i + 1)
    decreases i - from
  {
    if from < i {
      NoneBetween(text, pat, from + 1, i);
    }
  }

  /** `n` copies of a subject. */
  function Copies(name: string, n: nat): (r: seq<string>)
    ensures |r| == n
  {
    seq(n, _ => name)
  }

  lemma CopiesSnoc(types0: seq<string>, name: string, n: nat)
    ensures (types0 + Copies(name, n)) + [name] == types0 + Copies(name, n + 1)
  {
    assert Copies(name, n + 1) == Copies(name, n) + [name];
  }

  lemma ItemCountStep(text: string, from: nat)
    requires from <= |text| && IndexOfFrom(text, ItemMark, from) != -1
    ensures ItemCount(text, from) == 1 + ItemCount(text, IndexOfFrom(text, ItemMark, from) + 1)
  {
  }

  /** The subjects pushed for the subject expression's matches. */
  function ItemSubjects(name: string, ms: seq<Match>): seq<string>
  {
    if |ms| == 0 then [] else Copies(name, ItemCount(ms[0].text, 0)) + ItemSubjects(name, ms[1..])
  }

  /** The matches of a heading's subject expression over the whole text. */
  function ItemMatches(log: string, section: string): seq<Match>
  {
    ItemsAdvances(section, log);
    AllWith(ItemsAt(section), log, 0)
  }

  /** The subjects pushed for a list of headings. */
  function HeadingSubjects(log: string, hs: seq<Match>): seq<string>
  {
    if |hs| == 0 then []
    else
      var section := Singular(hs[0].text);
      ItemSubjects(SubjectName(section), ItemMatches(log, section)) + HeadingSubjects(log, hs[1..])
  }

  /** `getSubjectsFromHtml`: for each heading, in order, its subject once
      for every `<br>- ` item the heading's expression finds. */
  function SubjectsFromHtml(log: string): seq<string>
  {
    HeadingAdvances(log);
    HeadingSubjects(log, AllWith(HeadingAt, log, 0))
  }

  /** Every subject returned is the name of one of the headings found. */
  lemma {:induction false} SubjectsAreHeadingNames(log: string, hs: seq<Match>, i: nat)
    requires i < |HeadingSubjects(log, hs)|
    ensures exists j :: 0 <= j < |hs| && HeadingSubjects(log, hs)[i] == SubjectName(Singular(hs[j].text))
    decreases |hs|
  {
    var section := Singular(hs[0].text);
    var head := ItemSubjects(SubjectName(section), ItemMatches(log, section));
    if i < |head| {
      ItemSubjectsAreName(SubjectName(section), ItemMatches(log, section), i);
      assert HeadingSubjects(log, hs)[i] == head[i];
    } else {
      SubjectsAreHeadingNames(log, hs[1..], i - |head|);
      var j :| 0 <= j < |hs[1..]| && HeadingSubjects(log, hs[1..])[i - |head|] == SubjectName(Singular(hs[1..][j].text));
      assert hs[1..][j] == hs[j + 1];
    }
  }

  lemma {:induction false} ItemSubjectsAreName(name: string, ms: seq<Match>, i: nat)
    requires i < |ItemSubjects(name, ms)|
    ensures ItemSubjects(name, ms)[i] == name
    decreases |ms|
  {
    var c := Copies(name, ItemCount(ms[0].text, 0));
    if i < |c| {
      assert c[i] == name;
    } else {
      ItemSubjectsAreName(name, ms[1..], i - |c|);
    }
  }

  /** Each heading found stands right after `### ` and right before
      `<br>-`, on one line. */
  lemma HeadingShape(log: string, i: nat)
    requires Advances(HeadingAt, log) && i < |AllWith(HeadingAt, log, 0)|
    ensures var m := AllWith(HeadingAt, log, 0)[i];
      4 <= m.start < m.end <= |log| && log[m.start - 4..m.start] == "### " &&
      OccursAt(log, "<br>-", m.end) && forall k :: m.start <= k < m.end ==> !IsLineTerminator(log[k])
  {
    AllWithFound(HeadingAt, log, 0, i);
  }

  /** A plural in `es` loses it, except `Features`. */
  lemma PluralEs(t: string)
    requires t + "es<br>" != "Features<br>"
    ensures Singular(t + "es<br>") == t
  {
    assert (t + "es<br>")[|t|..] == "es<br>";
  }

  /** A plural in `s` (not `es`) loses it, except `Miscellaneous`. */
  lemma PluralS(t: string)
    requires |t| == 0 || t[|t| - 1] != 'e'
    requires t + "s<br>" != "Miscellaneous<br>"
    ensures Singular(t + "s<br>") == t
  {
    var s := t + "s<br>";
    assert s[|t|..] == "s<br>";
    if |t| > 0 {
      assert s[|s| - 6] == t[|t| - 1];
    }
  }

  /** `Features` is not cut to `Featur`: it loses only its `s`. */
  lemma FeaturesSingular()
    ensures Singular("Features<br>") == "Feature"
  {
    var f := "Features<br>";
    assert f[|f| - 5..] == "s<br>";
  }

  /** `Miscellaneous` keeps its final `s` and is named without the `<br>`. */
  lemma MiscellaneousKept()
    ensures Singular("Miscellaneous<br>") == "Miscellaneous<br>"
    ensures SubjectName("Miscellaneous<br>") == "Miscellaneous"
  {
    var f := "Miscellaneous<br>";
    assert f[|f| - 6..] != "es<br>" by { assert f[|f| - 6] == 'u'; }
    var w := "Miscellaneous";
    forall k | 0 <= k < |w| ensures IsLetter(w[k]) {
      assert 'A' <= w[k] <= 'z' && w[k] != '[' && w[k] != '_';
    }
    assert f == w + "<br>";
    HeadingName(w);
  }

  /** A heading word followed by `<br>` is named by the word itself. */
  lemma HeadingName(w: string)
    requires w != [] && forall k :: 0 <= k < |w| ==> IsLetter(w[k])
    ensures SubjectName(w + "<br>") == w
  {
    var f := w + "<br>";
    assert OccursAt(f, "<br>", |w|);
    forall k | 0 <= k < |w| ensures !OccursAt(f, "<br>", k) {
      assert f[k] == w[k];
    }
    assert IndexOf(f, "<br>") == |w|;
    assert f[..|w|] + f[|w| + 4..] == w;
    TrimUnchanged(w);
  }

  lemma SeqAssoc(a: seq<string>, b: seq<string>, c: seq<string>)
    ensures (a + b) + c == a + (b + c)
  {
  }

  /** One more turn of an `exec` loop: the match found, then the matches
      from its end. */
  lemma AllWithStep(at: (string, nat) -> Option<Match>, s: string, from: nat)
    requires Advances(at, s) && ExecWith(at, s, from).Some?
    ensures AllWith(at, s, from) == [ExecWith(at, s, from).value] + AllWith(at, s, ExecWith(at, s, from).value.end)
  {
  }

  lemma HeadingSubjectsCons(log: string, m: Match, rest: seq<Match>)
    ensures HeadingSubjects(log, [m] + rest)
         == ItemSubjects(SubjectName(Singular(m.text)), ItemMatches(log, Singular(m.text))) + HeadingSubjects(log, rest)
  {
    assert ([m] + rest)[1..] == rest;
  }

  lemma ItemSubjectsCons(name: string, m: Match, rest: seq<Match>)
    ensures ItemSubjects(name, [m] + rest) == Copies(name, ItemCount(m.text, 0)) + ItemSubjects(name, rest)
  {
    assert ([m] + rest)[1..] == rest;
  }

  /** Counts the items of one match, pushing the subject for each, as the
      innermost `indexOf` loop does. */
  method PushItems(types0: seq<string>, text: string, name: string) returns (types: seq<string>)
    ensures types == types0 + Copies(name, ItemCount(text, 0))
  {
    types := types0;
    ghost var from := 0;
    ghost var pushed := 0;
    var i1 := IndexOf(text, ItemMark);
    while i1 != -1
      invariant from <= |text| && i1 == IndexOfFrom(text, ItemMark, from)
      invariant types == types0 + Copies(name, pushed)
      invariant pushed + ItemCount(text, from) == ItemCount(text, 0)
      decreases |text| - from
    {
      ItemCountStep(text, from);
      CopiesSnoc(types0, name, pushed);
      types := types + [name];
      pushed := pushed + 1;
      from := i1 + 1;
      i1 := IndexOfFrom(text, ItemMark, i1 + 1);
    }
  }

  /** The subject expression's `exec` loop for one heading. */
  method PushSection(types0: seq<string>, changeLog: string, section: string) returns (types: seq<string>)
    ensures types == types0 + ItemSubjects(SubjectName(section), ItemMatches(changeLog, section))
  {
    ItemsAdvances(section, changeLog);
    types := PushMatches(types0, changeLog, ItemsAt(section), SubjectName(section));
  }

  /** An `exec` loop that pushes the subject once per item of each match. */
  method PushMatches(types0: seq<string>, changeLog: string, at: (string, nat) -> Option<Match>, name: string)
    returns (types: seq<string>)
    requires Advances(at, changeLog)
    ensures types == types0 + ItemSubjects(name, AllWith(at, changeLog, 0))
  {
    types := types0;
    var lastIndex: nat := 0;
    var found := ExecWith(at, changeLog, lastIndex);
    while found.Some?
      invariant found == ExecWith(at, changeLog, lastIndex)
      invariant types + ItemSubjects(name, AllWith(at, changeLog, lastIndex)) == types0 + ItemSubjects(name, AllWith(at, changeLog, 0))
      decreases |AllWith(at, changeLog, lastIndex)|
    {
      var m := found.value;
      AllWithStep(at, changeLog, lastIndex);
      ghost var rest := AllWith(at, changeLog, m.end);
      ItemSubjectsCons(name, m, rest);
      ghost var before := types;
      types := PushItems(types, m.text, name);
      SeqAssoc(before, Copies(name, ItemCount(m.text, 0)), ItemSubjects(name, rest));
      lastIndex := m.end;
      found := ExecWith(at, changeLog, lastIndex);
    }
    assert AllWith(at, changeLog, lastIndex) == [];
  }

  /** `getSubjectsFromHtml`: the heading expression's `exec` loop, each
      heading's plural trimmed and its items counted. */
  method GetSubjectsFromHtml(changeLog: string) returns (types: seq<string>)
    ensures types == SubjectsFromHtml(changeLog)
  {
    HeadingAdvances(changeLog);
    types := PushHeadings(changeLog, HeadingAt);
  }

  /** The heading loop over any recogniser that always moves on. */
  method PushHeadings(changeLog: string, at: (string, nat) -> Option<Match>) returns (types: seq<string>)
    requires Advances(at, changeLog)
    ensures types == HeadingSubjects(changeLog, AllWith(at, changeLog, 0))
  {
    types := [];
    var lastIndex: nat := 0;
    var heading := ExecWith(at, changeLog, lastIndex);
    while heading.Some?
      invariant heading == ExecWith(at, changeLog, lastIndex)
      invariant types + HeadingSubjects(changeLog, AllWith(at, changeLog, lastIndex)) == HeadingSubjects(changeLog, AllWith(at, changeLog, 0))
      decreases |AllWith(at, changeLog, lastIndex)|
    {
      var m := heading.value;
      AllWithStep(at, changeLog, lastIndex);
      ghost var rest := AllWith(at, changeLog, m.end);
      HeadingSubjectsCons(changeLog, m, rest);
      var section := Singular(m.text);
      ghost var before := types;
      types := PushSection(types, changeLog, section);
      SeqAssoc(before, ItemSubjects(SubjectName(section), ItemMatches(changeLog, section)), HeadingSubjects(changeLog, rest));
      lastIndex := m.end;
      heading := ExecWith(at, changeLog, lastIndex);
    }
    assert AllWith(at, changeLog, lastIndex) == [];
  }
}
