/** The version readers and writers of individual project files: the
    changelog, `.publishrc`, the C resource file, `AssemblyInfo.cs` and the
    MantisBT plugin class. File contents, the files a glob finds and the
    edit step are inputs; the writers return the file operations they
    request. */
module VersionSources {
  import opened Wrappers
  import opened Text
  import Semver
  import Utils
  import opened Context

  // ---------------------------------------------------------------------
  // changelog.ts
  // ---------------------------------------------------------------------

  /** `getChangelogVersion`: the version the changelog reports, classified
      as "manual" when there is none, and otherwise as `getVersionSystem`
      classifies it. */
  function ChangelogVersion(version: string): (r: VersionInfo)
    ensures r.version == version && r.info == None
    ensures r.system == (if version == "" then "manual" else Utils.GetVersionSystem(version))
  {
    var system :=
      if version == "" then "manual"
      else if Semver.CleansToValid(version) then "semver"
      else "incremental";
    VersionInfo(version, system, None)
  }

  /** A version's own text is classified "semver" and a plain number
      "incremental". */
  lemma ChangelogSystems(v: Semver.Version, n: string)
    requires Semver.WellFormed(v) && |Semver.Format(v)| <= Semver.MaxLength
    requires |n| > 0 && AllDigits(n)
    ensures ChangelogVersion(Semver.Format(v)).system == "semver"
    ensures ChangelogVersion(n).system == "incremental"
  {
    Utils.VersionTextIsSemver(v);
    Utils.NumberTextIsIncremental(n);
  }

  // ---------------------------------------------------------------------
  // app-publisher.ts
  // ---------------------------------------------------------------------

  /** `getAppPublisherVersion`: the configured `projectVersion`, classified
      by `getVersionSystem`. */
  function AppPublisherVersion(projectVersion: string): (r: VersionInfo)
    ensures r.version == projectVersion && r.info == None
    ensures r.system == "semver" || r.system == "incremental"
    ensures projectVersion == "" ==> r.system == "semver"
  {
    VersionInfo(projectVersion, Utils.GetVersionSystem(projectVersion), None)
  }

  /** A `.publishrc*` file the glob found: whether it exists and whether the
      repository ignores it. */
  datatype PublishRc = PublishRc(path: string, present: bool, ignored: bool)

  /** The pattern of the `projectVersion` entry, as the source writes it. */
  const ProjectVersionPattern: string := "\"projectVersion\"( *):( *)[\"][0-9a-z.-]+"

  /** The replacement of one match, `"projectVersion"` with both spacing
      groups kept, then the quoted next version. */
  function ProjectVersionReplacement(g1: string, g2: string, next: string): string
  {
    "\"projectVersion\"" + g1 + ":" + g2 + "\"" + next
  }

  predicate IsSpace(c: char) { c == ' ' }
  predicate IsVersionChar(c: char) { IsDigit(c) || IsLower(c) || c == '.' || c == '-' }

  /** The `projectVersion` pattern at `p`: the lengths of both spacing
      groups and the end of the match. */
  function ProjectVersionAt(s: string, p: nat): (r: Option<(nat, nat, nat)>)
    ensures r.Some? ==> p + 16 + r.value.0 + 1 + r.value.1 + 1 < r.value.2 <= |s|
  {
    if !OccursAt(s, "\"projectVersion\"", p) then None
    else ProjectVersionAfter(s, p + 16)
  }

  /** The rest of the pattern, after the quoted key at `q`. */
  function ProjectVersionAfter(s: string, q: nat): (r: Option<(nat, nat, nat)>)
    requires q <= |s|
    ensures r.Some? ==> q + r.value.0 + 1 + r.value.1 + 1 < r.value.2 <= |s|
  {
    var g1 := Span(s, q, IsSpace);
    if q + g1 >= |s| || s[q + g1] != ':' then None
    else
      var g2 := Span(s, q + g1 + 1, IsSpace);
      var o := q + g1 + 1 + g2;
      if o >= |s| || s[o] != '"' then None
      else
        var v := Span(s, o + 1, IsVersionChar);
        if v == 0 then None else Some((g1, g2, o + 1 + v))
  }

  /** The rewrite keeps the spacing around the colon and puts the next
      version in the quotes: a match with any spacing and any old version
      is replaced by the same spacing and the next version. */
  lemma ProjectVersionKeepsSpacing(g1: string, g2: string, prev: string, next: string)
    requires forall k :: 0 <= k < |g1| ==> g1[k] == ' '
    requires forall k :: 0 <= k < |g2| ==> g2[k] == ' '
    requires |prev| > 0 && forall k :: 0 <= k < |prev| ==> IsVersionChar(prev[k])
    ensures var m := "\"projectVersion\"" + g1 + ":" + g2 + "\"" + prev;
      ProjectVersionAt(m, 0) == Some((|g1|, |g2|, |m|)) &&
      ProjectVersionReplacement(m[16..16 + |g1|], m[17 + |g1|..17 + |g1| + |g2|], next) ==
        "\"projectVersion\"" + g1 + ":" + g2 + "\"" + next
  {
    ProjectVersionMatches(g1, g2, prev);
    ProjectVersionGroups(g1, g2, prev);
  }

  lemma ProjectVersionMatches(g1: string, g2: string, prev: string)
    requires forall k :: 0 <= k < |g1| ==> g1[k] == ' '
    requires forall k :: 0 <= k < |g2| ==> g2[k] == ' '
    requires |prev| > 0 && forall k :: 0 <= k < |prev| ==> IsVersionChar(prev[k])
    ensures var m := "\"projectVersion\"" + g1 + ":" + g2 + "\"" + prev;
      ProjectVersionAt(m, 0) == Some((|g1|, |g2|, |m|))
  {
    var h := "\"projectVersion\"";
    var m := h + g1 + ":" + g2 + "\"" + prev;
    assert OccursAt(m, h, 0) by { assert m[..16] == h; }
    ProjectVersionAfterMatches(h, g1, g2, prev);
  }

  lemma ProjectVersionAfterMatches(h: string, g1: string, g2: string, prev: string)
    requires forall k :: 0 <= k < |g1| ==> g1[k] == ' '
    requires forall k :: 0 <= k < |g2| ==> g2[k] == ' '
    requires |prev| > 0 && forall k :: 0 <= k < |prev| ==> IsVersionChar(prev[k])
    ensures var s := h + g1 + ":" + g2 + "\"" + prev;
      ProjectVersionAfter(s, |h|) == Some((|g1|, |g2|, |s|))
  {
    var s := h + g1 + ":" + g2 + "\"" + prev;
    var q := |h|;
    var c := q + |g1|;
    var o := c + 1 + |g2|;
    forall k | q <= k < c ensures IsSpace(s[k]) {
      assert s[k] == g1[k - q];
    }
    assert s[c] == ':';
    SpanOf(s, q, |g1|, IsSpace);
    forall k | c + 1 <= k < o ensures IsSpace(s[k]) {
      assert s[k] == g2[k - c - 1];
    }
    assert s[o] == '"';
    SpanOf(s, c + 1, |g2|, IsSpace);
    forall k | o + 1 <= k < |s| ensures IsVersionChar(s[k]) {
      assert s[k] == prev[k - o - 1];
    }
    SpanOf(s, o + 1, |prev|, IsVersionChar);
    ProjectVersionAfterOf(s, q, |g1|, |g2|, |prev|);
  }

  /** `ProjectVersionAfter` from the three run lengths and the two
      delimiters. */
  lemma ProjectVersionAfterOf(s: string, q: nat, n1: nat, n2: nat, nv: nat)
    requires q + n1 + 1 + n2 + 1 + nv == |s| && nv > 0
    requires Span(s, q, IsSpace) == n1 && s[q + n1] == ':'
    requires Span(s, q + n1 + 1, IsSpace) == n2 && s[q + n1 + 1 + n2] == '"'
    requires Span(s, q + n1 + 1 + n2 + 1, IsVersionChar) == nv
    ensures ProjectVersionAfter(s, q) == Some((n1, n2, |s|))
  {
  }

  lemma ProjectVersionGroups(g1: string, g2: string, prev: string)
    ensures var m := "\"projectVersion\"" + g1 + ":" + g2 + "\"" + prev;
      m[16..16 + |g1|] == g1 && m[17 + |g1|..17 + |g1| + |g2|] == g2
  {
  }

  /** A run of class characters that ends the text, or is followed by one
      outside the class, is exactly what `Span` consumes. */
  lemma {:induction false} SpanOf(s: string, p: nat, n: nat, cls: char -> bool)
    requires p + n <= |s|
    requires forall k :: p <= k < p + n ==> cls(s[k])
    requires p + n < |s| ==> !cls(s[p + n])
    ensures Span(s, p, cls) == n
    decreases n
  {
    if n > 0 {
      SpanOf(s, p + 1, n - 1, cls);
    }
  }

  /** The operations `setAppPublisherVersion` requests for the files found,
      in order: existing, non-ignored files only, recorded in record-only
      mode and otherwise rewritten and handed to the edit step. */
  function PublishRcOps(files: seq<PublishRc>, recordEditOnly: bool, next: string): seq<FileOp>
  {
    if |files| == 0 then []
    else
      var f := files[|files| - 1];
      PublishRcOps(files[..|files| - 1], recordEditOnly, next) +
      (if !f.present || f.ignored then []
       else if recordEditOnly then [AddEdit(f.path)]
       else [ReplaceInFile(f.path, ProjectVersionPattern, ProjectVersionReplacementText(next)), EditFile(f.path)])
  }

  /** The callback replacement written as a replacement text: `$1` and `$2`
      stand for the spacing groups. */
  function ProjectVersionReplacementText(next: string): string
  {
    ProjectVersionReplacement("$1", "$2", next)
  }

  /** Only existing, non-ignored files are touched, and in record-only mode
      none is rewritten. */
  lemma {:induction false} PublishRcOpsTouch(files: seq<PublishRc>, recordEditOnly: bool, next: string)
    ensures forall op :: op in PublishRcOps(files, recordEditOnly, next) ==>
      exists f :: f in files && f.present && !f.ignored && op.path == f.path
    ensures recordEditOnly ==> forall op :: op in PublishRcOps(files, recordEditOnly, next) ==> op.AddEdit?
  {
    if |files| > 0 {
      var init := files[..|files| - 1];
      PublishRcOpsTouch(init, recordEditOnly, next);
      assert forall f :: f in init ==> f in files;
      assert files[|files| - 1] in files;
    }
  }

  /** `setAppPublisherVersion`: nothing without a `projectVersion`; else
      the operations for each `.publishrc*` file found. */
  method SetAppPublisherVersion(projectVersion: string, files: seq<PublishRc>, recordEditOnly: bool, next: string)
    returns (ops: seq<FileOp>)
    ensures ops == if projectVersion == "" then [] else PublishRcOps(files, recordEditOnly, next)
  {
    ops := [];
    if projectVersion == "" {
      return;
    }
    var i := 0;
    while i < |files|
      invariant 0 <= i <= |files|
      invariant ops == PublishRcOps(files[..i], recordEditOnly, next)
    {
      var f := files[i];
      assert files[..i + 1][..i] == files[..i];
      if f.present && !f.ignored {
        if recordEditOnly {
          ops := ops + [AddEdit(f.path)];
        } else {
          ops := ops + [ReplaceInFile(f.path, ProjectVersionPattern, ProjectVersionReplacementText(next)), EditFile(f.path)];
        }
      }
      i := i + 1;
    }
    assert files[..i] == files;
  }

  // ---------------------------------------------------------------------
  // makefile.ts
  // ---------------------------------------------------------------------

  /** The piece the loop appends for character `i` of a dotless version:
      the character, followed by `", "` unless it is the last one or the
      first of more than three. */
  function RcPiece(v: string, i: nat): string
    requires i < |v|
  {
    if (i == 0 && |v| > 3) || i == |v| - 1 then [v[i]] else [v[i]] + ", "
  }

  function RcPieces(v: string, n: nat): string
    requires n <= |v|
  {
    if n == 0 then "" else RcPieces(v, n - 1) + RcPiece(v, n - 1)
  }

  /** The RC-file version text: a dotted version with its dots replaced by
      `", "`, a dotless one spread digit by digit; `", 0"` always follows. */
  function RcVersionOf(version: string): string
  {
    if !Contains(version, ".") then RcPieces(version, |version|) + ", 0"
    else ReplaceAll(version, ".", ", ") + ", 0"
  }

  /** The `rcVersion` construction of `setMakefileVersion`. */
  method RcVersion(version: string) returns (rc: string)
    ensures rc == RcVersionOf(version)
  {
    if !Contains(version, ".") {
      rc := SpreadDigits(version);
      rc := rc + ", 0";
    } else {
      rc := ReplaceAll(version, ".", ", ") + ", 0";
    }
  }

  /** The loop of `setMakefileVersion` that spreads a dotless version
      character by character. */
  method SpreadDigits(version: string) returns (rc: string)
    ensures rc == RcPieces(version, |version|)
  {
    rc := "";
    var i := 0;
    while i < |version|
      invariant 0 <= i <= |version|
      invariant rc == RcPieces(version, i)
    {
      rc := rc + RcPiece(version, i);
      i := i + 1;
    }
  }

  /** A dotted version's parts joined by `", "`, then `", 0"`. */
  lemma RcDotted(version: string)
    requires Contains(version, ".")
    ensures RcVersionOf(version) == Join(Split(version, '.'), ", ") + ", 0"
  {
    ReplaceCharJoinsSplit(version, '.', ", ");
  }

  /** Before the last character of a version of at most three characters,
      the pieces are the characters joined by `", "`, with a trailing
      separator. */
  lemma {:induction false} RcPiecesShort(v: string, n: nat)
    requires 1 <= n < |v| <= 3
    ensures RcPieces(v, n) == Join(Chars(v[..n]), ", ") + ", "
  {
    if n == 1 {
      assert RcPieces(v, 1) == RcPiece(v, 0);
      assert Chars(v[..1]) == [[v[0]]];
    } else {
      var x := [v[n - 1]];
      calc {
        RcPieces(v, n);
        RcPieces(v, n - 1) + RcPiece(v, n - 1);
        { RcPiecesShort(v, n - 1); }
        Join(Chars(v[..n - 1]), ", ") + ", " + (x + ", ");
        { Assoc3(Join(Chars(v[..n - 1]), ", ") + ", ", x, ", "); }
        Join(Chars(v[..n - 1]), ", ") + ", " + x + ", ";
        { JoinAppend(Chars(v[..n - 1]), x, ", "); }
        Join(Chars(v[..n - 1]) + [x], ", ") + ", ";
        { CharsSnoc(v, n); }
        Join(Chars(v[..n]), ", ") + ", ";
      }
    }
  }

  /** Before the last character of a longer version, the first two
      characters stay adjacent and the rest are joined by `", "`, with a
      trailing separator. */
  lemma {:induction false} RcPiecesLong(v: string, n: nat)
    requires 2 <= n < |v| && |v| > 3
    ensures RcPieces(v, n) == [v[0]] + (Join(Chars(v[1..n]), ", ") + ", ")
  {
    if n == 2 {
      RcPiecesTwo(v);
    } else {
      RcPiecesLong(v, n - 1);
      RcPiecesLongStep(v, n);
    }
  }

  lemma RcPiecesTwo(v: string)
    requires |v| > 3
    ensures RcPieces(v, 2) == [v[0]] + (Join(Chars(v[1..2]), ", ") + ", ")
  {
    assert RcPieces(v, 1) == RcPiece(v, 0);
    assert Chars(v[1..2]) == [[v[1]]];
  }

  lemma RcPiecesLongStep(v: string, n: nat)
    requires 3 <= n < |v| && |v| > 3
    requires RcPieces(v, n - 1) == [v[0]] + (Join(Chars(v[1..n - 1]), ", ") + ", ")
    ensures RcPieces(v, n) == [v[0]] + (Join(Chars(v[1..n]), ", ") + ", ")
  {
    var x := [v[n - 1]];
    var j := Join(Chars(v[1..n - 1]), ", ");
    calc {
      RcPieces(v, n);
      RcPieces(v, n - 1) + RcPiece(v, n - 1);
      ([v[0]] + (j + ", ")) + (x + ", ");
      { Regroup([v[0]], j + ", ", x, ", "); }
      [v[0]] + ((j + ", " + x) + ", ");
      { JoinAppend(Chars(v[1..n - 1]), x, ", "); }
      [v[0]] + (Join(Chars(v[1..n - 1]) + [x], ", ") + ", ");
      { CharsSnoc(v[1..], n - 1);
        assert v[1..][..n - 1] == v[1..n] && v[1..][..n - 2] == v[1..n - 1]; }
      [v[0]] + (Join(Chars(v[1..n]), ", ") + ", ");
    }
  }

  lemma Regroup(a: string, b: string, c: string, d: string)
    ensures (a + b) + (c + d) == a + ((b + c) + d)
  {
  }

  /** A dotless version of up to three characters has them joined by
      `", "`; a longer one keeps its first two characters adjacent. */
  lemma RcDotless(version: string)
    requires !Contains(version, ".") && |version| >= 1
    ensures |version| <= 3 ==> RcVersionOf(version) == Join(Chars(version), ", ") + ", 0"
    ensures |version| > 3 ==> RcVersionOf(version) == [version[0]] + Join(Chars(version[1..]), ", ") + ", 0"
  {
    assert RcVersionOf(version) == RcPieces(version, |version|) + ", 0";
    if |version| <= 3 {
      RcSpreadShort(version);
    } else {
      RcSpreadLong(version);
    }
  }

  lemma Assoc3(a: string, b: string, c: string)
    ensures a + b + c == a + (b + c)
  {
  }

  lemma RcSpreadShort(v: string)
    requires 1 <= |v| <= 3
    ensures RcPieces(v, |v|) == Join(Chars(v), ", ")
  {
    if |v| == 1 {
      RcSpreadSingle(v);
    } else {
      RcSpreadFew(v);
    }
  }

  lemma RcSpreadSingle(v: string)
    requires |v| == 1
    ensures RcPieces(v, 1) == Join(Chars(v), ", ")
  {
    assert RcPieces(v, 1) == RcPiece(v, 0);
    assert Chars(v) == [[v[0]]];
  }

  lemma RcSpreadFew(v: string)
    requires 2 <= |v| <= 3
    ensures RcPieces(v, |v|) == Join(Chars(v), ", ")
  {
    var n := |v|;
    var x := [v[n - 1]];
    calc {
      RcPieces(v, n);
      RcPieces(v, n - 1) + x;
      { RcPiecesShort(v, n - 1); }
      Join(Chars(v[..n - 1]), ", ") + ", " + x;
      { JoinAppend(Chars(v[..n - 1]), x, ", "); }
      Join(Chars(v[..n - 1]) + [x], ", ");
      { CharsSnoc(v, n);
        assert v[..n] == v; }
      Join(Chars(v), ", ");
    }
  }

  lemma RcSpreadLong(v: string)
    requires |v| > 3
    ensures RcPieces(v, |v|) == [v[0]] + Join(Chars(v[1..]), ", ")
  {
    var n := |v|;
    var x := [v[n - 1]];
    calc {
      RcPieces(v, n);
      RcPieces(v, n - 1) + x;
      { RcPiecesLong(v, n - 1); }
      ([v[0]] + (Join(Chars(v[1..n - 1]), ", ") + ", ")) + x;
      { Assoc3([v[0]], Join(Chars(v[1..n - 1]), ", ") + ", ", x); }
      [v[0]] + (Join(Chars(v[1..n - 1]), ", ") + ", " + x);
      { JoinAppend(Chars(v[1..n - 1]), x, ", "); }
      [v[0]] + Join(Chars(v[1..n - 1]) + [x], ", ");
      { CharsSnoc(v[1..], n - 1);
        assert v[1..][..n - 1] == v[1..] && v[1..][..n - 2] == v[1..n - 1]; }
      [v[0]] + Join(Chars(v[1..]), ", ");
    }
  }

  const FileVersionPattern: string := "FileVersion[ ]*[\"][ ]*,[ ]*[\"][ ][0-9, ]+[ ]*[\"]"
  const ProductVersionPattern: string := "ProductVersion[ ]*[\"][ ]*,[ ]*[\"][ ]*[0-9, ]+[ ]*[\"]"

  /** The operations `setMakefileVersion` requests, from the configured
      `cProjectRcFile` (empty when not set) and whether it exists. */
  function MakefileOps(rcFile: string, present: bool, recordEditOnly: bool, next: string): (ops: seq<FileOp>)
    ensures rcFile == "" || !present ==> ops == []
    ensures rcFile != "" && present && recordEditOnly ==> ops == [AddEdit(rcFile)]
    ensures rcFile != "" && present && !recordEditOnly ==>
      |ops| == 3 && ops[0].ReplaceInFile? && ops[1].ReplaceInFile? && ops[2] == EditFile(rcFile) &&
      ops[0].replacement == "FileVersion\", \"" + RcVersionOf(next) + "\"" &&
      ops[1].replacement == "ProductVersion\", \"" + RcVersionOf(next) + "\""
  {
    if rcFile == "" || !present then []
    else if recordEditOnly then [AddEdit(rcFile)]
    else
      var rc := RcVersionOf(next);
      [ReplaceInFile(rcFile, FileVersionPattern, "FileVersion\", \"" + rc + "\""),
       ReplaceInFile(rcFile, ProductVersionPattern, "ProductVersion\", \"" + rc + "\""),
       EditFile(rcFile)]
  }

  /** Every version text written ends with `", 0"`. */
  lemma RcVersionEndsWithZero(version: string)
    ensures EndsWith(RcVersionOf(version), ", 0")
  {
    var r := RcVersionOf(version);
    assert r[|r| - 3..] == ", 0";
  }

  // ---------------------------------------------------------------------
  // dotnet.ts and get-mantis-version.ts: version readers
  // ---------------------------------------------------------------------

  /** What these readers return: the version, and the system under the
      field name `versionSystem` (which `IVersionInfo` readers do not see). */
  datatype SourceVersion = SourceVersion(version: string, versionSystem: string)

  /** `[0-9]+[.]{1}[0-9]+[.]{1}[0-9]+` at `q`, greedy: its end. */
  function ThreeNumbersAt(s: string, q: nat): (r: Option<nat>)
    ensures r.Some? ==> q < r.value <= |s|
  {
    if q > |s| then None
    else
      var a := Span(s, q, IsDigit);
      if a == 0 || q + a >= |s| || s[q + a] != '.' then None
      else
        var b := Span(s, q + a + 1, IsDigit);
        if b == 0 || q + a + 1 + b >= |s| || s[q + a + 1 + b] != '.' then None
        else
          var c := Span(s, q + a + b + 2, IsDigit);
          if c == 0 then None else Some(q + a + b + 2 + c)
  }

  /** `AssemblyVersion[ ]*[(][ ]*["]` followed by three numbers, at `p`. */
  function AssemblyVersionAt(s: string, p: nat): (r: Option<nat>)
  {
    if !OccursAt(s, "AssemblyVersion", p) then None
    else
      var q := p + 15 + Span(s, p + 15, IsSpace);
      if q >= |s| || s[q] != '(' then None
      else
        var o := q + 1 + Span(s, q + 1, IsSpace);
        if o >= |s| || s[o] != '"' then None
        else ThreeNumbersAt(s, o + 1)
  }

  /** The first occurrence of each pattern removed, one pattern after the
      other (a chain of `replace(pattern, "")` calls). */
  function RemoveEach(s: string, pats: seq<string>): string
    decreases |pats|
  {
    if |pats| == 0 then s else RemoveEach(ReplaceFirst(s, pats[0], ""), pats[1..])
  }

  /** A pattern the text starts with is removed from the front. */
  lemma DropPrefix(p: string, x: string, rest: seq<string>)
    requires |p| > 0
    ensures RemoveEach(p + x, [p] + rest) == RemoveEach(x, rest)
  {
    ReplaceFirstPrefix(p, x);
    assert ([p] + rest)[0] == p && ([p] + rest)[1..] == rest;
  }

  /** An absent character leaves the text as it is. */
  lemma DropAbsent(x: string, c: char, rest: seq<string>)
    requires NoChar(x, c)
    ensures RemoveEach(x, [[c]] + rest) == RemoveEach(x, rest)
  {
    NoCharNotContains(x, c);
    assert ([[c]] + rest)[0] == [c] && ([[c]] + rest)[1..] == rest;
  }

  /** The first occurrence of a character is removed. */
  lemma DropAfter(a: string, c: char, b: string, rest: seq<string>)
    requires NoChar(a, c)
    ensures RemoveEach(a + [c] + b, [[c]] + rest) == RemoveEach(a + b, rest)
  {
    ReplaceFirstAfterChar(a, c, b);
    assert ([[c]] + rest)[0] == [c] && ([[c]] + rest)[1..] == rest;
  }

  const DotNetPatterns: seq<string> := ["AssemblyVersion", " ", "(", "\""]

  /** The extraction chain of `getDotNetVersion` applied to the match. */
  function DotNetExtract(found: string): string
  {
    var v := RemoveEach(found, DotNetPatterns);
    var dot := LastIndexOfChar(v, '.');
    if dot == -1 then "" else v[..dot]
  }

  /** `getDotNetVersion`, given the contents of the `assemblyinfo.cs` files
      the glob found: a version only when there is exactly one. */
  function DotNetVersion(files: seq<string>): (r: SourceVersion)
    ensures r.versionSystem == ".net"
    ensures |files| != 1 ==> r.version == ""
    ensures |files| == 1 && FirstMatch(files[0], AssemblyVersionAt, 0).None? ==> r.version == ""
  {
    if |files| != 1 then SourceVersion("", ".net")
    else
      match FirstMatch(files[0], AssemblyVersionAt, 0)
      case None => SourceVersion("", ".net")
      case Some(m) => SourceVersion(DotNetExtract(files[0][m.0..m.1]), ".net")
  }

  /** The match holds three numbers and the last dot is cut off with
      everything after it: the reader yields only the first two. */
  lemma DotNetKeepsTwoNumbers(a: string, b: string, c: string)
    requires |a| > 0 && |b| > 0 && |c| > 0 && AllDigits(a) && AllDigits(b) && AllDigits(c)
    ensures DotNetExtract("AssemblyVersion(\"" + a + "." + b + "." + c) == a + "." + b
  {
    var abc := a + "." + b + "." + c;
    assert "AssemblyVersion(\"" + a + "." + b + "." + c == "AssemblyVersion(\"" + abc;
    forall k | 0 <= k < |abc| ensures abc[k] != ' ' {
      DigitsAndDots(a, b, c, k);
    }
    DotNetChain(abc);
    LastDotOfThree(a, b, c);
  }

  lemma DotNetChain(abc: string)
    requires NoChar(abc, ' ')
    ensures RemoveEach("AssemblyVersion(\"" + abc, DotNetPatterns) == abc
  {
    calc {
      RemoveEach("AssemblyVersion(\"" + abc, DotNetPatterns);
      { assert "AssemblyVersion(\"" + abc == "AssemblyVersion" + "(" + ("\"" + abc);
        assert DotNetPatterns == ["AssemblyVersion", [' '], "("] + ["\""]; }
      RemoveEach("AssemblyVersion" + "(" + ("\"" + abc), ["AssemblyVersion", [' '], "("] + ["\""]);
      { assert NoChar("(" + ("\"" + abc), ' ');
        DropFirstThird("AssemblyVersion", ' ', "(", "\"" + abc, ["\""]); }
      RemoveEach("\"" + abc, ["\""]);
      { assert ["\""] == ["\""] + [];
        DropPrefix("\"", abc, []); }
      RemoveEach(abc, []);
    }
  }

  /** Removing a leading pattern, an absent character, then the next
      leading pattern. */
  lemma DropFirstThird(p0: string, c: char, p2: string, z: string, rest: seq<string>)
    requires |p0| > 0 && |p2| > 0 && NoChar(p2 + z, c)
    ensures RemoveEach(p0 + p2 + z, [p0, [c], p2] + rest) == RemoveEach(z, rest)
  {
    calc {
      RemoveEach(p0 + p2 + z, [p0, [c], p2] + rest);
      { assert p0 + p2 + z == p0 + (p2 + z);
        assert [p0, [c], p2] + rest == [p0] + ([[c], p2] + rest); }
      RemoveEach(p0 + (p2 + z), [p0] + ([[c], p2] + rest));
      { DropPrefix(p0, p2 + z, [[c], p2] + rest); }
      RemoveEach(p2 + z, [[c], p2] + rest);
      { assert [[c], p2] + rest == [[c]] + ([p2] + rest);
        DropAbsent(p2 + z, c, [p2] + rest); }
      RemoveEach(p2 + z, [p2] + rest);
      { DropPrefix(p2, z, rest); }
      RemoveEach(z, rest);
    }
  }

  /** Removing three leading patterns in turn. */
  lemma DropThree(p0: string, p1: string, p2: string, z: string, rest: seq<string>)
    requires |p0| > 0 && |p1| > 0 && |p2| > 0
    ensures RemoveEach(p0 + p1 + p2 + z, [p0, p1, p2] + rest) == RemoveEach(z, rest)
  {
    calc {
      RemoveEach(p0 + p1 + p2 + z, [p0, p1, p2] + rest);
      { assert p0 + p1 + p2 + z == p0 + (p1 + (p2 + z));
        assert [p0, p1, p2] + rest == [p0] + ([p1] + ([p2] + rest)); }
      RemoveEach(p0 + (p1 + (p2 + z)), [p0] + ([p1] + ([p2] + rest)));
      { DropPrefix(p0, p1 + (p2 + z), [p1] + ([p2] + rest)); }
      RemoveEach(p1 + (p2 + z), [p1] + ([p2] + rest));
      { DropPrefix(p1, p2 + z, [p2] + rest); }
      RemoveEach(p2 + z, [p2] + rest);
      { DropPrefix(p2, z, rest); }
      RemoveEach(z, rest);
    }
  }

  lemma LastDotOfThree(a: string, b: string, c: string)
    requires AllDigits(c)
    ensures var abc := a + "." + b + "." + c;
      LastIndexOfChar(abc, '.') == |a| + 1 + |b| && abc[..|a| + 1 + |b|] == a + "." + b
  {
    var abc := a + "." + b + "." + c;
    assert abc[|a| + 1 + |b|] == '.';
    forall k | |a| + 1 + |b| < k < |abc| ensures abc[k] != '.' {
      assert abc[k] == c[k - (|a| + |b| + 2)];
    }
    assert abc[..|a| + 1 + |b|] == a + "." + b;
  }

  lemma DigitsAndDots(a: string, b: string, c: string, k: nat)
    requires AllDigits(a) && AllDigits(b) && AllDigits(c) && k < |a + "." + b + "." + c|
    ensures var t := a + "." + b + "." + c; IsDigit(t[k]) || t[k] == '.'
  {
  }

  /** `this->version[ ]*=[ ]*("|')` followed by three numbers, at `p`. */
  function MantisVersionAt(s: string, p: nat): (r: Option<nat>)
  {
    if !OccursAt(s, "this->version", p) then None
    else
      var q := p + 13 + Span(s, p + 13, IsSpace);
      if q >= |s| || s[q] != '=' then None
      else
        var o := q + 1 + Span(s, q + 1, IsSpace);
        if o >= |s| || (s[o] != '"' && s[o] != '\'') then None
        else ThreeNumbersAt(s, o + 1)
  }

  const MantisPatterns: seq<string> := ["this->version", " ", "=", "\"", "'"]

  /** The extraction chain of `getMantisVersion`: the first occurrence of
      each of `this->version`, a space, `=`, `"` and `'` removed in turn. */
  function MantisExtract(found: string): string
  {
    RemoveEach(found, MantisPatterns)
  }

  /** `getMantisVersion`, given the plugin file's content. */
  function MantisVersion(content: string): (r: SourceVersion)
    ensures r.versionSystem == "semver"
    ensures FirstMatch(content, MantisVersionAt, 0).None? ==> r.version == ""
  {
    match FirstMatch(content, MantisVersionAt, 0)
    case None => SourceVersion("", "semver")
    case Some(m) => SourceVersion(MantisExtract(content[m.0..m.1]), "semver")
  }

  /** Without spaces around `=`, the quoted version is what remains. */
  lemma MantisTight(quote: char, v: string)
    requires quote == '"' || quote == '\''
    requires NoChar(v, ' ') && NoChar(v, '=') && NoChar(v, '"') && NoChar(v, '\'')
    ensures MantisExtract("this->version=" + [quote] + v) == v
  {
    assert "this->version=" + [quote] + v == "this->version" + "=" + ([quote] + v);
    assert MantisPatterns == ["this->version", [' '], "="] + ["\"", "'"];
    assert NoChar("=" + ([quote] + v), ' ');
    DropFirstThird("this->version", ' ', "=", [quote] + v, ["\"", "'"]);
    MantisQuote(quote, v);
  }

  /** The quote, then the version: whichever quote it is goes. */
  lemma MantisQuote(quote: char, v: string)
    requires quote == '"' || quote == '\''
    requires NoChar(v, '"') && NoChar(v, '\'')
    ensures RemoveEach([quote] + v, ["\"", "'"]) == v
  {
    assert ["\"", "'"] == [['"']] + [['\'']];
    if quote == '"' {
      DropPrefix("\"", v, ["'"]);
      DropAbsent(v, '\'', []);
    } else {
      assert NoChar([quote] + v, '"');
      DropAbsent([quote] + v, '"', ["'"]);
      DropPrefix("'", v, []);
    }
  }

  /** With one space on each side of `=`, only the first is removed, so the
      result keeps a leading space. */
  lemma MantisSpaced(quote: char, v: string)
    requires quote == '"' || quote == '\''
    requires NoChar(v, '=') && NoChar(v, '"') && NoChar(v, '\'')
    ensures MantisExtract("this->version = " + [quote] + v) == " " + v
  {
    assert "this->version = " + [quote] + v == "this->version" + " " + "=" + (" " + [quote] + v);
    assert MantisPatterns == ["this->version", " ", "="] + ["\"", "'"];
    DropThree("this->version", " ", "=", " " + [quote] + v, ["\"", "'"]);
    MantisSpacedQuote(quote, v);
  }

  lemma MantisSpacedQuote(quote: char, v: string)
    requires quote == '"' || quote == '\''
    requires NoChar(v, '"') && NoChar(v, '\'')
    ensures RemoveEach(" " + [quote] + v, ["\"", "'"]) == " " + v
  {
    if quote == '"' {
      MantisSpacedDouble(v);
    } else {
      MantisSpacedSingle(v);
    }
  }

  lemma MantisSpacedDouble(v: string)
    requires NoChar(v, '"') && NoChar(v, '\'')
    ensures RemoveEach(" " + ['"'] + v, [['"']] + [['\'']]) == " " + v
  {
    DropAfter(" ", '"', v, ["'"]);
    assert NoChar(" " + v, '\'');
    DropAbsent(" " + v, '\'', []);
  }

  lemma MantisSpacedSingle(v: string)
    requires NoChar(v, '"') && NoChar(v, '\'')
    ensures RemoveEach(" " + ['\''] + v, [['"']] + [['\'']]) == " " + v
  {
    assert NoChar(" " + ['\''] + v, '"');
    DropAbsent(" " + ['\''] + v, '"', ["'"]);
    DropAfter(" ", '\'', v, []);
  }

  /** Removing the first occurrence of a character that `a` lacks. */
  lemma ReplaceFirstAfterChar(a: string, c: char, b: string)
    requires NoChar(a, c)
    ensures ReplaceFirst(a + [c] + b, [c], "") == a + b
  {
    FirstCharAfter(a, c, b);
    var s := a + [c] + b;
    assert s[..|a|] == a && s[|a| + 1..] == b;
  }

  // ---------------------------------------------------------------------
  // dotnet.ts: the version writer
  // ---------------------------------------------------------------------

  /** A dotless version's characters separated by dots. */
  function DotJoin(version: string): string
  {
    Join(Chars(version), ".")
  }

  /** The `semVersion` loop of `setDotNetVersion`: each character followed
      by a dot, then the last character dropped (`substring(0, length - 1)`,
      which leaves an empty text empty). */
  method SemVersion(version: string) returns (sem: string)
    ensures sem == DotJoin(version)
  {
    sem := "";
    var i := 0;
    while i < |version|
      invariant 0 <= i <= |version|
      invariant i == 0 ==> sem == ""
      invariant i > 0 ==> sem == DotJoin(version[..i]) + "."
    {
      if i > 0 {
        assert Chars(version[..i + 1]) == Chars(version[..i]) + [[version[i]]];
        JoinAppend(Chars(version[..i]), [version[i]], ".");
      } else {
        assert Chars(version[..1]) == [[version[0]]];
      }
      sem := sem + [version[i]] + ".";
      i := i + 1;
    }
    assert version[..i] == version;
    if |sem| > 0 {
      sem := sem[..|sem| - 1];
    }
  }

  /** Removing the dots again gives back a dotless version, and splitting
      on them gives its characters. */
  lemma DotJoinRoundTrip(version: string)
    requires NoChar(version, '.')
    ensures RemoveChar(DotJoin(version), '.') == version
    ensures |version| > 0 ==> Split(DotJoin(version), '.') == Chars(version)
  {
    RemoveJoinedDots(Chars(version));
    ConcatChars(version);
    if |version| > 0 {
      SplitJoin(Chars(version), '.');
    }
  }

  /** The concatenation of a sequence of texts. */
  function Concat(parts: seq<string>): string
  {
    if |parts| == 0 then "" else parts[0] + Concat(parts[1..])
  }

  lemma {:induction false} ConcatChars(s: string)
    ensures Concat(Chars(s)) == s
    decreases |s|
  {
    if |s| > 0 {
      ConcatChars(s[1..]);
      assert Chars(s)[1..] == Chars(s[1..]);
    }
  }

  lemma {:induction false} RemoveJoinedDots(parts: seq<string>)
    requires forall k :: 0 <= k < |parts| ==> NoChar(parts[k], '.')
    ensures RemoveChar(Join(parts, "."), '.') == Concat(parts)
    decreases |parts|
  {
    if |parts| == 1 {
      RemoveCharFacts(parts[0], '.');
      assert Concat(parts) == parts[0] + Concat([]);
    } else if |parts| > 1 {
      RemoveJoinedDots(parts[1..]);
      RemoveCharFacts(parts[0], '.');
      assert RemoveChar(".", '.') == "";
      RemoveCharConcat(parts[0], "." + Join(parts[1..], "."), '.');
      RemoveCharConcat(".", Join(parts[1..], "."), '.');
      assert parts[0] + "." + Join(parts[1..], ".") == parts[0] + ("." + Join(parts[1..], "."));
    }
  }

  lemma {:induction false} RemoveCharConcat(a: string, b: string, c: char)
    ensures RemoveChar(a + b, c) == RemoveChar(a, c) + RemoveChar(b, c)
    decreases |a|
  {
    if |a| > 0 {
      assert (a + b)[1..] == a[1..] + b;
      RemoveCharConcat(a[1..], b, c);
    } else {
      assert a + b == b;
    }
  }

  /** The `AssemblyVersion` pattern and the file `setDotNetVersion` writes
      it in (`pom.xml`, as the source names it). */
  const AssemblyVersionPattern: string := "AssemblyVersion[ ]*[\\(][ ]*[\"][0-9a-z.]+"
  const DotNetTarget: string := "pom.xml"

  /** `setDotNetVersion` as written: with exactly one `assemblyinfo.cs`
      found, `nextRelease.version.Contains` is called, which JavaScript
      strings do not have, so it throws a `TypeError`; otherwise it only
      logs an error. */
  function SetDotNetVersionAsWritten(fileCount: nat, next: string): (r: Result<seq<FileOp>>)
    ensures r.Err? <==> fileCount == 1
    ensures r.Ok? ==> r.value == DotNetOps(fileCount, next) == []
  {
    if fileCount == 1 then Err("nextRelease.version.Contains is not a function") else Ok([])
  }

  /** The one-file case never gets to write. */
  lemma SetDotNetVersionThrows(next: string)
    ensures SetDotNetVersionAsWritten(1, next).Err?
    ensures forall n: nat :: n != 1 ==> SetDotNetVersionAsWritten(n, next) == Ok([])
  {
  }

  /** The requests of `setDotNetVersion`, given how many `assemblyinfo.cs`
      files were found. */
  function DotNetOps(fileCount: nat, next: string): seq<FileOp>
  {
    if fileCount != 1 then []
    else [ReplaceInFile(DotNetTarget, AssemblyVersionPattern,
                        "AssemblyVersion(\"" + (if Contains(next, ".") then next else DotJoin(next))),
          EditFile(DotNetTarget)]
  }

  /** `setDotNetVersion` with the containment test it evidently means
      (`includes`): a dotless version is spread with dots, a dotted one
      kept, and written with `AssemblyVersion("` before it. */
  method SetDotNetVersion(fileCount: nat, next: string) returns (ops: seq<FileOp>)
    ensures fileCount != 1 ==> ops == []
    ensures fileCount == 1 ==>
      ops == [ReplaceInFile(DotNetTarget, AssemblyVersionPattern,
                            "AssemblyVersion(\"" + (if Contains(next, ".") then next else DotJoin(next))),
              EditFile(DotNetTarget)]
    ensures ops == DotNetOps(fileCount, next)
  {
    ops := [];
    if fileCount == 1 {
      var sem := next;
      if !Contains(next, ".") {
        sem := SemVersion(next);
      }
      ops := [ReplaceInFile(DotNetTarget, AssemblyVersionPattern, "AssemblyVersion(\"" + sem), EditFile(DotNetTarget)];
    }
  }
}
