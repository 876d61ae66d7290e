/** `src/lib/version/set-versions.ts`: writing the next version into every
    version file of the project, in a fixed order of writers, and into the
    files the `versionFiles` option lists. The file system is replaced by
    the set of existing paths and by what reading each listed file gives;
    the writers answer with the file operations they request. */
module SetVersions {
  import opened Wrappers
  import opened Text
  import opened Context
  import Paths
  import VersionSources

  // ---------------------------------------------------------------------
  // Placeholders and patterns
  // ---------------------------------------------------------------------

  /** `path.replace(/\$\(VERSION\)/g, next).replace(/\$\(NEXTVERSION\)/g,
      next).replace(/\$\(LASTVERSION\)/g, last)`. */
  function TargetPath(path: string, next: string, last: string): string
  {
    ReplaceAll(ReplaceAll(ReplaceAll(path, "$(VERSION)", next), "$(NEXTVERSION)", next), "$(LASTVERSION)", last)
  }

  /** The search pattern of a definition: `$(VERSION)` becomes a capture
      of `regexVersion`, and a capture written around the placeholder,
      `(($(VERSION)))` once expanded, collapses to a single one. */
  function SearchPattern(regex: string, regexVersion: string): string
  {
    var capture := "(" + regexVersion + ")";
    ReplaceAll(ReplaceAll(regex, "$(VERSION)", capture), "(" + capture + ")", capture)
  }

  /** The replacement text: `$(VERSION)` becomes the version itself. */
  function WriteText(regexWrite: string, version: string): string
  {
    ReplaceAll(regexWrite, "$(VERSION)", version)
  }

  /** A text without `$` holds no placeholder. */
  lemma NoPlaceholder(s: string, pat: string)
    requires |pat| > 0 && pat[0] == '$' && NoChar(s, '$')
    ensures !Contains(s, pat)
  {
    forall k | 0 <= k <= |s| ensures !OccursAt(s, pat, k) {
      if k + |pat| <= |s| {
        assert s[k..k + |pat|][0] == s[k];
      }
    }
  }

  /** One placeholder between two texts without `$` is replaced, and
      nothing else is. */
  lemma PlaceholderOnce(a: string, pat: string, rep: string, b: string)
    requires |pat| > 0 && pat[0] == '$' && NoChar(a, '$') && NoChar(b, '$')
    ensures ReplaceAll(a + pat + b, pat, rep) == a + rep + b
  {
    var s := a + pat + b;
    NoPlaceholder(b, pat);
    forall k | 0 <= k < |a| ensures !OccursAt(s, pat, k) {
      assert s[k..k + |pat|][0] == s[k] == a[k];
    }
    ReplaceAllSingle(a, pat, rep, b);
  }

  /** A placeholder is not found where only a different placeholder
      stands: the one `$` of the text starts the other name. */
  lemma OtherPlaceholderAbsent(a: string, mid: string, b: string, pat: string)
    requires NoChar(a, '$') && NoChar(b, '$')
    requires |mid| > 2 && mid[0] == '$' && NoChar(mid[1..], '$')
    requires |pat| > 2 && pat[0] == '$' && pat[2] != mid[2]
    ensures !Contains(a + mid + b, pat)
  {
    var p := a + mid + b;
    forall k | 0 <= k <= |p| ensures !OccursAt(p, pat, k) {
      if k + |pat| <= |p| {
        if k < |a| {
          assert p[k..k + |pat|][0] == a[k];
        } else if k >= |a| + |mid| {
          assert p[k..k + |pat|][0] == b[k - |a| - |mid|];
        } else if k > |a| {
          assert p[k..k + |pat|][0] == mid[1..][k - |a| - 1];
        } else {
          assert p[k..k + |pat|][2] == mid[2];
        }
      }
    }
  }

  /** A path naming `$(VERSION)` or `$(NEXTVERSION)` once is the path of
      the next version's file. */
  lemma TargetPathNext(a: string, b: string, next: string, last: string, nextSlot: bool)
    requires NoChar(a, '$') && NoChar(b, '$') && NoChar(next, '$')
    ensures TargetPath(a + (if nextSlot then "$(NEXTVERSION)" else "$(VERSION)") + b, next, last) == a + next + b
  {
    var s := a + next + b;
    assert NoChar(s, '$');
    if nextSlot {
      OtherPlaceholderAbsent(a, "$(NEXTVERSION)", b, "$(VERSION)");
      PlaceholderOnce(a, "$(NEXTVERSION)", next, b);
    } else {
      PlaceholderOnce(a, "$(VERSION)", next, b);
      NoPlaceholder(s, "$(NEXTVERSION)");
    }
    NoPlaceholder(s, "$(LASTVERSION)");
  }

  /** A path naming `$(LASTVERSION)` once is the path of the last
      version's file. */
  lemma TargetPathLast(a: string, b: string, next: string, last: string)
    requires NoChar(a, '$') && NoChar(b, '$') && NoChar(last, '$')
    ensures TargetPath(a + "$(LASTVERSION)" + b, next, last) == a + last + b
  {
    OtherPlaceholderAbsent(a, "$(LASTVERSION)", b, "$(VERSION)");
    OtherPlaceholderAbsent(a, "$(LASTVERSION)", b, "$(NEXTVERSION)");
    PlaceholderOnce(a, "$(LASTVERSION)", last, b);
  }

  /** A path without placeholders is used as it is. */
  lemma TargetPathPlain(path: string, next: string, last: string)
    requires NoChar(path, '$')
    ensures TargetPath(path, next, last) == path
  {
    NoPlaceholder(path, "$(VERSION)");
    NoPlaceholder(path, "$(NEXTVERSION)");
    NoPlaceholder(path, "$(LASTVERSION)");
  }

  /** In the write pattern the placeholder becomes the version. */
  lemma WriteTextOnce(a: string, b: string, version: string)
    requires NoChar(a, '$') && NoChar(b, '$')
    ensures WriteText(a + "$(VERSION)" + b, version) == a + version + b
  {
    PlaceholderOnce(a, "$(VERSION)", version, b);
  }

  /** In the search pattern the placeholder becomes a capture of the
      version pattern, whether or not the user wrote one around it. */
  lemma SearchPatternCaptures(a: string, b: string, rv: string)
    requires NoChar(a, '$') && NoChar(b, '$')
    requires NoChar(a, '(') && NoChar(b, '(') && NoChar(rv, '(')
    ensures SearchPattern(a + "$(VERSION)" + b, rv) == a + "(" + rv + ")" + b
  {
    var capture := "(" + rv + ")";
    PlaceholderOnce(a, "$(VERSION)", capture, b);
    assert a + capture + b == a + "(" + rv + ")" + b;
    SingleParen(a, rv, b, "(" + capture + ")");
  }

  /** A capture the user wrote around the placeholder is not doubled. */
  lemma SearchPatternCollapses(a: string, b: string, rv: string)
    requires NoChar(a, '$') && NoChar(b, '$')
    requires NoChar(a, '(') && NoChar(b, '(')
    ensures SearchPattern(a + "($(VERSION))" + b, rv) == a + "(" + rv + ")" + b
  {
    var pat := "$(VERSION)";
    assert "($(VERSION))" == "(" + pat + ")";
    Around(a, "(", pat, ")", b);
    CollapseAt(a, b, rv, a + "($(VERSION))" + b);
  }

  lemma CollapseAt(a: string, b: string, rv: string, regex: string)
    requires NoChar(a, '$') && NoChar(b, '$')
    requires NoChar(a, '(') && NoChar(b, '(')
    requires regex == (a + "(") + "$(VERSION)" + (")" + b)
    ensures SearchPattern(regex, rv) == a + "(" + rv + ")" + b
  {
    var capture := "(" + rv + ")";
    var double := "(" + capture + ")";
    PlaceholderOnce(a + "(", "$(VERSION)", capture, ")" + b);
    Around(a, "(", capture, ")", b);
    ParenOnce(a, double, capture, b);
    Regroup(a, "(", rv, ")", b);
  }

  lemma Around(a: string, o: string, x: string, c: string, b: string)
    ensures (a + o) + x + (c + b) == a + (o + x + c) + b
  {
  }

  lemma Regroup(a: string, o: string, x: string, c: string, b: string)
    ensures a + (o + x + c) + b == a + o + x + c + b
  {
  }

  /** The doubled capture is found only where it was put. */
  lemma ParenOnce(a: string, double: string, capture: string, b: string)
    requires NoChar(a, '(') && NoChar(b, '(') && |double| > 0 && double[0] == '('
    ensures ReplaceAll(a + double + b, double, capture) == a + capture + b
  {
    var s := a + double + b;
    assert !Contains(b, double) by {
      forall k | 0 <= k <= |b| ensures !OccursAt(b, double, k) {
        if k + |double| <= |b| { assert b[k..k + |double|][0] == b[k]; }
      }
    }
    forall k | 0 <= k < |a| ensures !OccursAt(s, double, k) {
      assert s[k..k + |double|][0] == s[k] == a[k];
    }
    ReplaceAllSingle(a, double, capture, b);
  }

  /** A text holding one `(` has no `((` to collapse. */
  lemma SingleParen(a: string, rv: string, b: string, double: string)
    requires NoChar(a, '(') && NoChar(b, '(') && NoChar(rv, '(')
    requires |double| > 1 && double[0] == '(' && double[1] == '('
    ensures ReplaceAll(a + "(" + rv + ")" + b, double, "(" + rv + ")") == a + "(" + rv + ")" + b
  {
    var s := a + "(" + rv + ")" + b;
    OnlyParen(a, rv, b);
    forall k | 0 <= k <= |s| ensures !OccursAt(s, double, k) {
      if k + |double| <= |s| {
        assert s[k..k + |double|][0] == s[k];
        assert s[k..k + |double|][1] == s[k + 1];
      }
    }
  }

  /** The capture's own `(` is the only one. */
  lemma OnlyParen(a: string, rv: string, b: string)
    requires NoChar(a, '(') && NoChar(b, '(') && NoChar(rv, '(')
    ensures var s := a + "(" + rv + ")" + b;
      forall j :: 0 <= j < |s| && j != |a| ==> s[j] != '('
  {
    var s := a + "(" + rv + ")" + b;
    forall j | 0 <= j < |s| && j != |a| ensures s[j] != '(' {
      if j < |a| {
        assert s[j] == a[j];
      } else if j <= |a| + |rv| {
        assert s[j] == rv[j - |a| - 1];
      } else if j == |a| + |rv| + 1 {
        assert s[j] == ')';
      } else {
        assert s[j] == b[j - |a| - |rv| - 2];
      }
    }
  }

  // ---------------------------------------------------------------------
  // versionFiles definitions
  // ---------------------------------------------------------------------

  /** A `setFiles` entry: a file that takes the version read from its
      definition's base file. Empty text stands for an absent field. */
  datatype SetFile = SetFile(path: string, regex: string, regexVersion: string, regexWrite: string)

  /** A `versionFiles` definition. */
  datatype Definition = Definition(path: string, regex: string, regexVersion: string, regexWrite: string,
                                   setFiles: Option<seq<SetFile>>)

  /** What the definitions' files give when they are looked at: which paths
      exist, the `version` property of a JSON file, group 1 of the first
      match of a pattern in a file (empty when there is none), and whether a
      pattern matches somewhere in a file. The patterns are the user's own
      regular expressions and stay uninterpreted. */
  datatype Disk = Disk(present: set<string>, jsonVersion: string -> string,
                       captured: (string, string) -> string, matches: (string, string) -> bool)

  /** What running the definitions did: the file operations requested, in
      order, and the error thrown, after which nothing more is requested. */
  datatype Run = Run(ops: seq<FileOp>, error: Option<string>)

  const ValidationFailed := "Local version file validation failed"

  /** What one definition requested, and whether it failed validation. */
  datatype Step = Step(ops: seq<FileOp>, failed: bool)

  predicate IsPackageJson(path: string) { Paths.Basename(path) == "package.json" }

  /** An operation that changes a file's contents. */
  predicate IsWrite(op: FileOp) { op.ReplaceInFile? || op.WriteFile? || op.WriteVersionJson? }

  /** The version a `setFiles` definition reads from its base file: the
      `version` property of a `package.json` or `app.json`, otherwise the
      first capture of the search pattern. */
  function BaseVersion(disk: Disk, d: Definition, tv: string): string
  {
    var base := Paths.Basename(tv);
    if base == "package.json" || base == "app.json" then disk.jsonVersion(tv)
    else disk.captured(tv, SearchPattern(d.regex, d.regexVersion))
  }

  /** One `setFiles` entry, with the JSON of the entry's own file updated
      when it is a bare `package.json` entry. */
  function SetFileStep(disk: Disk, sf: SetFile, version: string, recordEditOnly: bool): (r: seq<FileOp>)
    ensures sf.path !in disk.present ==> r == []
    ensures sf.path in disk.present && recordEditOnly ==> r == [AddEdit(sf.path)]
    ensures sf.path in disk.present && !recordEditOnly ==> |r| == 2 && r[1] == EditFile(sf.path) && r[0].path == sf.path
    ensures sf.path in disk.present && !recordEditOnly && r[0].WriteVersionJson? ==> r[0].source == sf.path && r[0].version == version
  {
    if sf.path !in disk.present then []
    else if recordEditOnly then [AddEdit(sf.path)]
    else if sf.regex == "" && sf.regexWrite == "" && IsPackageJson(sf.path) then
      [WriteVersionJson(sf.path, sf.path, version), EditFile(sf.path)]
    else
      [ReplaceInFile(sf.path, SearchPattern(sf.regex, sf.regexVersion), WriteText(sf.regexWrite, version)), EditFile(sf.path)]
  }

  /** The same entry as the source writes it: the JSON document written to
      a bare `package.json` entry is the base file's, not the entry's. */
  function SetFileStepAsWritten(disk: Disk, sf: SetFile, tv: string, version: string, recordEditOnly: bool): (r: seq<FileOp>)
    ensures |r| == |SetFileStep(disk, sf, version, recordEditOnly)|
    ensures forall k :: 0 <= k < |r| && !r[k].WriteVersionJson? ==> r[k] == SetFileStep(disk, sf, version, recordEditOnly)[k]
    ensures forall k :: 0 <= k < |r| && r[k].WriteVersionJson? ==> r[k] == WriteVersionJson(sf.path, tv, version)
  {
    if sf.path !in disk.present then []
    else if recordEditOnly then [AddEdit(sf.path)]
    else if sf.regex == "" && sf.regexWrite == "" && IsPackageJson(sf.path) then
      [WriteVersionJson(sf.path, tv, version), EditFile(sf.path)]
    else
      [ReplaceInFile(sf.path, SearchPattern(sf.regex, sf.regexVersion), WriteText(sf.regexWrite, version)), EditFile(sf.path)]
  }

  /** As written, a `setFiles` entry `b/package.json` of a base file
      `a/package.json` becomes a copy of the base document; the corrected
      entry keeps its own document and only takes the version. */
  lemma SetFileJsonFromBase(disk: Disk, sf: SetFile, tv: string, version: string)
    requires sf.path in disk.present && sf.path != tv
    requires sf.regex == "" && sf.regexWrite == "" && IsPackageJson(sf.path)
    ensures SetFileStepAsWritten(disk, sf, tv, version, false)[0] == WriteVersionJson(sf.path, tv, version)
    ensures SetFileStepAsWritten(disk, sf, tv, version, false) != SetFileStep(disk, sf, version, false)
    ensures SetFileStep(disk, sf, version, false) == [WriteVersionJson(sf.path, sf.path, version), EditFile(sf.path)]
  {
    assert SetFileStepAsWritten(disk, sf, tv, version, false)[0] != SetFileStep(disk, sf, version, false)[0];
  }

  /** The `setFiles` entries, in order. */
  function SetFilesOps(disk: Disk, sfs: seq<SetFile>, version: string, recordEditOnly: bool): (r: seq<FileOp>)
    ensures forall op :: op in r ==> op.path in disk.present
    ensures recordEditOnly ==> forall op :: op in r ==> op.AddEdit?
  {
    if |sfs| == 0 then []
    else SetFilesOps(disk, sfs[..|sfs| - 1], version, recordEditOnly) + SetFileStep(disk, sfs[|sfs| - 1], version, recordEditOnly)
  }

  /** Some entry names an existing file. */
  predicate AnyPresent(disk: Disk, sfs: seq<SetFile>)
  {
    |sfs| > 0 && (AnyPresent(disk, sfs[..|sfs| - 1]) || sfs[|sfs| - 1].path in disk.present)
  }

  lemma {:induction false} AnyPresentExists(disk: Disk, sfs: seq<SetFile>)
    ensures AnyPresent(disk, sfs) <==> exists j :: 0 <= j < |sfs| && sfs[j].path in disk.present
  {
    if |sfs| > 0 {
      var init := sfs[..|sfs| - 1];
      AnyPresentExists(disk, init);
      if exists j :: 0 <= j < |sfs| && sfs[j].path in disk.present {
        var j :| 0 <= j < |sfs| && sfs[j].path in disk.present;
        if j < |sfs| - 1 { assert init[j] == sfs[j]; }
      }
    }
  }

  /** One definition. A target that does not exist is skipped. A `setFiles`
      definition hands the version of its base file to its existing
      entries; a `package.json` target takes the next version in its JSON
      document, in record-only mode too; any other target has the version
      its search pattern captures replaced, or is only recorded as edited.
      Outside record-only mode, an existing target that nothing was written
      for fails validation. */
  function DefinitionStep(disk: Disk, d: Definition, next: string, last: string, recordEditOnly: bool): (r: Step)
    ensures TargetPath(d.path, next, last) !in disk.present ==> r == Step([], false)
    ensures forall op :: op in r.ops ==> op.path in disk.present
    ensures recordEditOnly ==> !r.failed
    ensures recordEditOnly ==> forall op :: op in r.ops ==>
      (op.AddEdit? || (d.setFiles.None? && IsPackageJson(op.path) && op.path == TargetPath(d.path, next, last)))
    ensures r.failed ==> r.ops == []
  {
    var tv := TargetPath(d.path, next, last);
    if tv !in disk.present then Step([], false)
    else if d.setFiles.Some? then
      var version := BaseVersion(disk, d, tv);
      if version == "" then Step([], !recordEditOnly)
      else
        var sfs := d.setFiles.value;
        var ops := SetFilesOps(disk, sfs, version, recordEditOnly);
        SetFilesEmpty(disk, sfs, version, recordEditOnly);
        Step(ops, !recordEditOnly && !AnyPresent(disk, sfs))
    else if IsPackageJson(tv) then Step([WriteVersionJson(tv, tv, next), EditFile(tv)], false)
    else if disk.matches(tv, SearchPattern(d.regex, d.regexVersion)) then
      if recordEditOnly then Step([AddEdit(tv)], false)
      else Step([ReplaceInFile(tv, SearchPattern(d.regex, d.regexVersion), WriteText(d.regexWrite, next)), EditFile(tv)], false)
    else Step([], !recordEditOnly)
  }

  /** Entries none of which exists request nothing. */
  lemma {:induction false} SetFilesEmpty(disk: Disk, sfs: seq<SetFile>, version: string, recordEditOnly: bool)
    ensures !AnyPresent(disk, sfs) ==> SetFilesOps(disk, sfs, version, recordEditOnly) == []
  {
    if |sfs| > 0 {
      SetFilesEmpty(disk, sfs[..|sfs| - 1], version, recordEditOnly);
    }
  }

  /** Outside record-only mode the entries write something exactly when
      one of them exists. */
  lemma {:induction false} SetFilesWrite(disk: Disk, sfs: seq<SetFile>, version: string)
    ensures AnyPresent(disk, sfs) <==> exists op :: op in SetFilesOps(disk, sfs, version, false) && IsWrite(op)
  {
    if |sfs| > 0 {
      var init := sfs[..|sfs| - 1];
      SetFilesWrite(disk, init, version);
      var step := SetFileStep(disk, sfs[|sfs| - 1], version, false);
      var prev := SetFilesOps(disk, init, version, false);
      assert SetFilesOps(disk, sfs, version, false) == prev + step;
      if sfs[|sfs| - 1].path in disk.present {
        assert step[0] in prev + step;
      }
    }
  }

  /** Outside record-only mode an existing target fails validation exactly
      when nothing was written for it: this is the `matched` flag. */
  lemma DefinitionFailsIffNothingWritten(disk: Disk, d: Definition, next: string, last: string)
    requires TargetPath(d.path, next, last) in disk.present
    ensures var r := DefinitionStep(disk, d, next, last, false);
      r.failed <==> !exists op :: op in r.ops && IsWrite(op)
  {
    var tv := TargetPath(d.path, next, last);
    var r := DefinitionStep(disk, d, next, last, false);
    if d.setFiles.Some? && BaseVersion(disk, d, tv) != "" {
      SetFilesWrite(disk, d.setFiles.value, BaseVersion(disk, d, tv));
    } else if r.ops != [] {
      assert IsWrite(r.ops[0]);
    }
  }

  /** The definitions in order, up to the first that fails validation,
      which throws and ends the run. */
  function FilesRun(disk: Disk, defs: seq<Definition>, next: string, last: string, recordEditOnly: bool): (r: Run)
    ensures forall op :: op in r.ops ==> op.path in disk.present
    ensures r.error.Some? ==> r.error == Some(ValidationFailed)
  {
    if |defs| == 0 then Run([], None)
    else
      var prev := FilesRun(disk, defs[..|defs| - 1], next, last, recordEditOnly);
      if prev.error.Some? then prev
      else
        var step := DefinitionStep(disk, defs[|defs| - 1], next, last, recordEditOnly);
        Run(prev.ops + step.ops, if step.failed then Some(ValidationFailed) else None)
  }

  /** The definition fails validation. */
  predicate Fails(disk: Disk, d: Definition, next: string, last: string, recordEditOnly: bool)
  {
    DefinitionStep(disk, d, next, last, recordEditOnly).failed
  }

  /** The run fails exactly when some definition fails validation. */
  lemma {:induction false} FilesRunFails(disk: Disk, defs: seq<Definition>, next: string, last: string, recordEditOnly: bool)
    ensures FilesRun(disk, defs, next, last, recordEditOnly).error.Some? <==>
      exists i :: 0 <= i < |defs| && Fails(disk, defs[i], next, last, recordEditOnly)
  {
    if |defs| > 0 {
      var init := defs[..|defs| - 1];
      var d := defs[|defs| - 1];
      FilesRunFails(disk, init, next, last, recordEditOnly);
      assert FilesRun(disk, defs, next, last, recordEditOnly).error.Some? <==>
        FilesRun(disk, init, next, last, recordEditOnly).error.Some? || Fails(disk, d, next, last, recordEditOnly);
      forall i | 0 <= i < |init| ensures init[i] == defs[i] { }
      if exists i :: 0 <= i < |defs| && Fails(disk, defs[i], next, last, recordEditOnly) {
        var i :| 0 <= i < |defs| && Fails(disk, defs[i], next, last, recordEditOnly);
        assert i < |defs| - 1 ==> Fails(disk, init[i], next, last, recordEditOnly);
      }
    }
  }

  /** In record-only mode the run never fails. */
  lemma {:induction false} RecordOnlyNeverFails(disk: Disk, defs: seq<Definition>, next: string, last: string)
    ensures FilesRun(disk, defs, next, last, true).error == None
  {
    if |defs| > 0 {
      RecordOnlyNeverFails(disk, defs[..|defs| - 1], next, last);
    }
  }

  /** Once the run has failed, later definitions request nothing. */
  lemma {:induction false} FailureIsFinal(disk: Disk, defs: seq<Definition>, n: nat, next: string, last: string, recordEditOnly: bool)
    requires n <= |defs|
    requires FilesRun(disk, defs[..n], next, last, recordEditOnly).error.Some?
    ensures FilesRun(disk, defs, next, last, recordEditOnly) == FilesRun(disk, defs[..n], next, last, recordEditOnly)
    decreases |defs| - n
  {
    if n < |defs| {
      var m := defs[..n + 1];
      assert m[..|m| - 1] == defs[..n];
      assert FilesRun(disk, m, next, last, recordEditOnly) == FilesRun(disk, defs[..n], next, last, recordEditOnly);
      FailureIsFinal(disk, defs, n + 1, next, last, recordEditOnly);
    } else {
      assert defs[..n] == defs;
    }
  }

  /** In record-only mode the definitions only add their targets to the
      edit list, except that a `package.json` target of a definition
      without `setFiles` is still rewritten with the next version. */
  lemma {:induction false} RecordOnlyOps(disk: Disk, defs: seq<Definition>, next: string, last: string)
    ensures forall op :: op in FilesRun(disk, defs, next, last, true).ops ==> op.AddEdit? || IsPackageJson(op.path)
  {
    if |defs| > 0 {
      RecordOnlyOps(disk, defs[..|defs| - 1], next, last);
    }
  }

  /** A `package.json` definition without `setFiles` is rewritten even when
      only the edited files are being recorded. */
  lemma RecordOnlyWritesPackageJson(disk: Disk, path: string, next: string, last: string)
    requires NoChar(path, '$') && IsPackageJson(path) && path in disk.present
    ensures FilesRun(disk, [Definition(path, "", "", "", None)], next, last, true).ops ==
      [WriteVersionJson(path, path, next), EditFile(path)]
  {
    TargetPathPlain(path, next, last);
    var defs := [Definition(path, "", "", "", None)];
    assert defs[..0] == [];
  }

  /** `setVersionFiles`: the definitions in order, each with its
      `matched` flag, stopping at the first that fails validation. */
  method SetVersionFiles(disk: Disk, defs: seq<Definition>, next: string, last: string, recordEditOnly: bool)
    returns (r: Run)
    ensures r == FilesRun(disk, defs, next, last, recordEditOnly)
    ensures |defs| == 0 ==> r == Run([], None)
  {
    var ops: seq<FileOp> := [];
    for i := 0 to |defs|
      invariant FilesRun(disk, defs[..i], next, last, recordEditOnly) == Run(ops, None)
    {
      assert defs[..i + 1][..i] == defs[..i];
      var step := ProcessDefinition(disk, defs[i], next, last, recordEditOnly);
      ops := ops + step.ops;
      if step.failed {
        FailureIsFinal(disk, defs, i + 1, next, last, recordEditOnly);
        return Run(ops, Some(ValidationFailed));
      }
    }
    assert defs[..|defs|] == defs;
    r := Run(ops, None);
  }

  /** The body of the definitions loop for one definition. */
  method ProcessDefinition(disk: Disk, d: Definition, next: string, last: string, recordEditOnly: bool)
    returns (step: Step)
    ensures step == DefinitionStep(disk, d, next, last, recordEditOnly)
  {
    var tv := TargetPath(d.path, next, last);
    if tv !in disk.present {
      return Step([], false);
    }
    var matched := false;
    var ops: seq<FileOp> := [];
    if d.setFiles.Some? {
      var version := BaseVersion(disk, d, tv);
      if version != "" {
        ops, matched := ApplySetFiles(disk, d.setFiles.value, version, recordEditOnly);
      }
    } else if IsPackageJson(tv) {
      ops := [WriteVersionJson(tv, tv, next), EditFile(tv)];
      matched := true;
    } else {
      var pattern := SearchPattern(d.regex, d.regexVersion);
      var write := WriteText(d.regexWrite, next);
      if disk.matches(tv, pattern) {
        if recordEditOnly {
          return Step([AddEdit(tv)], false);
        }
        ops := [ReplaceInFile(tv, pattern, write), EditFile(tv)];
        matched := true;
      }
    }
    step := Step(ops, !matched && !recordEditOnly);
  }

  /** The `setFiles` loop: each existing entry is recorded, or written and
      handed to the editor, which sets `matched`. */
  method ApplySetFiles(disk: Disk, sfs: seq<SetFile>, version: string, recordEditOnly: bool)
    returns (ops: seq<FileOp>, matched: bool)
    ensures ops == SetFilesOps(disk, sfs, version, recordEditOnly)
    ensures matched <==> !recordEditOnly && AnyPresent(disk, sfs)
  {
    ops, matched := [], false;
    for j := 0 to |sfs|
      invariant ops == SetFilesOps(disk, sfs[..j], version, recordEditOnly)
      invariant matched <==> !recordEditOnly && AnyPresent(disk, sfs[..j])
    {
      assert sfs[..j + 1][..j] == sfs[..j];
      var sf := sfs[j];
      if sf.path in disk.present {
        if recordEditOnly {
          ops := ops + [AddEdit(sf.path)];
          continue;
        }
        if sf.regex == "" && sf.regexWrite == "" && IsPackageJson(sf.path) {
          ops := ops + [WriteVersionJson(sf.path, sf.path, version)];
        } else {
          ops := ops + [ReplaceInFile(sf.path, SearchPattern(sf.regex, sf.regexVersion), WriteText(sf.regexWrite, version))];
        }
        ops := ops + [EditFile(sf.path)];
        matched := true;
      }
    }
    assert sfs[..|sfs|] == sfs;
  }

  // ---------------------------------------------------------------------
  // setVersions
  // ---------------------------------------------------------------------

  /** `setVersions`: the writers in their fixed order. The npm, ExtJs, pom
      and MantisBT writers are not part of this model and their requests
      are inputs; the app-publisher, makefile and .NET writers are those of
      `VersionSources`, and the `versionFiles` definitions come last. */
  method SetVersions(npmOps: seq<FileOp>, projectVersion: string, publishRc: seq<VersionSources.PublishRc>,
                     extJsOps: seq<FileOp>, pomOps: seq<FileOp>, mantisBtOps: seq<FileOp>,
                     rcFile: string, rcPresent: bool, assemblyInfoCount: nat,
                     disk: Disk, defs: seq<Definition>, next: string, last: string, recordEditOnly: bool)
    returns (r: Run)
    ensures r.error == FilesRun(disk, defs, next, last, recordEditOnly).error
    ensures r.ops == npmOps
      + (if projectVersion == "" then [] else VersionSources.PublishRcOps(publishRc, recordEditOnly, next))
      + extJsOps + pomOps + mantisBtOps
      + VersionSources.MakefileOps(rcFile, rcPresent, recordEditOnly, next)
      + VersionSources.DotNetOps(assemblyInfoCount, next)
      + FilesRun(disk, defs, next, last, recordEditOnly).ops
  {
    var ops := npmOps;
    var publishOps := VersionSources.SetAppPublisherVersion(projectVersion, publishRc, recordEditOnly, next);
    ops := ops + publishOps + extJsOps + pomOps + mantisBtOps;
    ops := ops + VersionSources.MakefileOps(rcFile, rcPresent, recordEditOnly, next);
    var dotNetOps := VersionSources.SetDotNetVersion(assemblyInfoCount, next);
    ops := ops + dotNetOps;
    var files := SetVersionFiles(disk, defs, next, last, recordEditOnly);
    r := Run(ops + files.ops, files.error);
  }
}
