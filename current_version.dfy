/** `getCurrentVersion`: the local version, reconciled over the version
    sources of the project in a fixed order by the `doCheck` accumulator. */
module CurrentVersion {
  import opened Wrappers
  import opened Text
  import opened Context
  import opened Paths
  import VersionSources
  import Utils

  /** The message every failed validation throws. */
  const ValidationFailed: string := "Local version file validation failed"

  /** The state `doCheck` updates: the `versionInfo` fields and the `warn`
      flag. */
  datatype Acc = Acc(version: string, system: string, info: Option<seq<string>>, warn: bool)

  /** The state before any source is consulted. */
  const Start := Acc("", "", None, false)

  /** Under the incremental system dots are removed before comparing. */
  function Canon(system: string, version: string): string
  {
    if system == "incremental" then RemoveChar(version, '.') else version
  }

  /** Whether `doCheck` reports a mismatch for `v` against a seeded state. */
  predicate Mismatch(acc: Acc, v: VersionInfo, taskRevert: bool)
  {
    Canon(acc.system, v.version) != Canon(acc.system, acc.version) && !taskRevert
  }

  /** `doCheck(v, type, throwError)`: the new state, or the validation error. */
  function Check(acc: Acc, v: VersionInfo, throwError: bool, taskRevert: bool, republish: bool): (r: Result<Acc>)
    ensures v.version == "" ==> r == Ok(acc)
    ensures r.Err? ==> r.msg == ValidationFailed
    // only a checked, non-republish mismatch against a seeded state fails
    ensures r.Err? <==> v.version != "" && acc.version != "" && Mismatch(acc, v, taskRevert) && throwError && !republish
    // a mismatch that does not fail only sets the warning
    ensures r.Ok? ==> r.value.warn == (acc.warn || (v.version != "" && acc.version != "" && Mismatch(acc, v, taskRevert)))
    // a later source fills the information only while it is absent
    ensures r.Ok? && acc.version != "" && acc.info.Some? ==> r.value.info == acc.info
    // and changes the system only while it is unset or `auto`
    ensures r.Ok? && acc.system != "" && acc.system != "auto" ==> r.value.system == acc.system
  {
    if v.version == "" then Ok(acc)
    else if acc.version == "" then
      Ok(Acc(v.version, if acc.system == "" then v.system else acc.system, v.info, acc.warn))
    else if Mismatch(acc, v, taskRevert) && throwError && !republish then Err(ValidationFailed)
    else
      Ok(Acc(Canon(acc.system, acc.version),
             if acc.system == "" || acc.system == "auto" then v.system else acc.system,
             if acc.info.None? then v.info else acc.info,
             acc.warn || Mismatch(acc, v, taskRevert)))
  }

  /** One step of the reconciliation: a source handed to `doCheck`, the
      system taken from the changelog without checking its version, or the
      requirement that a version file matched. */
  datatype Step =
    | Probe(v: VersionInfo, throwError: bool)
    | Classify(system: string)
    | Require(matched: bool)

  function Exec(acc: Acc, s: Step, taskRevert: bool, republish: bool): (r: Result<Acc>)
  {
    match s
    case Probe(v, t) => Check(acc, v, t, taskRevert, republish)
    case Classify(sys) => Ok(acc.(system := sys))
    case Require(m) => if m then Ok(acc) else Err(ValidationFailed)
  }

  /** The steps run in order from `acc`; the first error ends the run. */
  function Run(acc: Acc, steps: seq<Step>, taskRevert: bool, republish: bool): Result<Acc>
    decreases |steps|
  {
    if |steps| == 0 then Ok(acc)
    else match Run(acc, steps[..|steps| - 1], taskRevert, republish)
      case Err(m) => Err(m)
      case Ok(a) => Exec(a, steps[|steps| - 1], taskRevert, republish)
  }

  /** A `versionFiles` entry as far as reading the version is concerned:
      its path, whether it has `setFiles` (then it is only written), whether
      it exists, the `version` field when it is a JSON file, and the first
      group of each successive match of its `regex` in the file. The
      regular expression itself is supplied by the user and is not
      interpreted here; `captures` stands for what it finds. */
  datatype VersionFile = VersionFile(path: string, hasSetFiles: bool, present: bool,
                                     jsonVersion: string, captures: seq<string>)

  predicate IsJsonFile(path: string)
  {
    Basename(path) == "package.json" || Basename(path) == "app.json"
  }

  /** The version a capture stands for, classified by `getVersionSystem`. */
  function CaptureInfo(c: string): VersionInfo
  {
    VersionInfo(c, Utils.GetVersionSystem(c), None)
  }

  /** The checks of a run of versions, each read through `info`. */
  function Probes(info: string -> VersionInfo, captures: seq<string>): (r: seq<Step>)
    ensures |r| == |captures|
    decreases |captures|
  {
    if |captures| == 0 then []
    else Probes(info, captures[..|captures| - 1]) + [Probe(info(captures[|captures| - 1]), true)]
  }

  /** Whether some capture is non-empty, as the loop over the matches
      finds out one capture at a time. */
  predicate AnyNonEmpty(captures: seq<string>)
    decreases |captures|
  {
    |captures| > 0 && (AnyNonEmpty(captures[..|captures| - 1]) || captures[|captures| - 1] != "")
  }

  /** `AnyNonEmpty` holds exactly when some capture is non-empty. */
  lemma {:induction false} AnyNonEmptyMeans(captures: seq<string>)
    ensures AnyNonEmpty(captures) <==> exists i :: 0 <= i < |captures| && captures[i] != ""
    decreases |captures|
  {
    if |captures| > 0 {
      var init := captures[..|captures| - 1];
      AnyNonEmptyMeans(init);
      if AnyNonEmpty(init) {
        var i :| 0 <= i < |init| && init[i] != "";
        assert captures[i] != "";
      }
      if exists i :: 0 <= i < |captures| && captures[i] != "" {
        var i :| 0 <= i < |captures| && captures[i] != "";
        if i < |init| {
          assert init[i] != "";
        }
      }
    }
  }

  /** What reading one version file does, each capture read through
      `info` (which is `CaptureInfo` in `getCurrentVersion`). */
  function FileSteps(info: string -> VersionInfo, f: VersionFile): seq<Step>
  {
    if f.hasSetFiles || !f.present then []
    else if IsJsonFile(f.path) then [Require(f.jsonVersion != "")]
    else Probes(info, f.captures) + [Require(AnyNonEmpty(f.captures))]
  }

  function FilesSteps(info: string -> VersionInfo, files: seq<VersionFile>): seq<Step>
    decreases |files|
  {
    if |files| == 0 then [] else FilesSteps(info, files[..|files| - 1]) + FileSteps(info, files[|files| - 1])
  }

  /** The options `getCurrentVersion` reads; empty text stands for an
      option that is not set. */
  datatype Options = Options(
    versionPreReleaseId: string,
    taskTag: bool, taskCommit: bool, taskChangelog: bool, tests: bool, changelogSkip: bool,
    taskRevert: bool, republish: bool,
    versionForceNext: string)

  /** The changelog is validated only outside pre-release, tag, commit,
      changelog and test runs, and when it is not skipped. */
  predicate ChangelogChecked(o: Options)
  {
    o.versionPreReleaseId == "" && !o.taskTag && !o.taskCommit && !o.taskChangelog && !o.tests && !o.changelogSkip
  }

  /** What each source reported. The npm, ExtJs, pom and MantisBT readers
      are not part of this model; their reports are inputs. */
  datatype Readings = Readings(
    changelog: VersionInfo, npm: VersionInfo, appPublisher: VersionInfo, dotnet: VersionInfo,
    extjs: VersionInfo, pom: VersionInfo, mantisbt: VersionInfo)

  /** The .NET reader names its system field `versionSystem`, so `doCheck`
      sees neither a system nor extra information. */
  function DotNetInfo(sv: VersionSources.SourceVersion): (r: VersionInfo)
    ensures r.version == sv.version && r.system == "" && r.info == None
  {
    VersionInfo(sv.version, "", None)
  }

  /** The seven built-in sources in the order `getCurrentVersion` consults
      them. */
  function SourceSteps(o: Options, rd: Readings): (r: seq<Step>)
    ensures |r| == 7
  {
    [ if ChangelogChecked(o) then Probe(rd.changelog, false) else Classify(rd.changelog.system),
      Probe(rd.npm, true), Probe(rd.appPublisher, true), Probe(rd.dotnet, true),
      Probe(rd.extjs, true), Probe(rd.pom, true), Probe(rd.mantisbt, true) ]
  }

  function AllSteps(o: Options, rd: Readings, files: seq<VersionFile>): seq<Step>
  {
    SourceSteps(o, rd) + FilesSteps(CaptureInfo, files)
  }

  /** Without a version from any source, `versionForceNext` or else the
      first-release version. */
  function Fallback(acc: Acc, versionForceNext: string, firstRelease: string): (r: VersionInfo)
    ensures acc.version != "" ==> r.version == acc.version
    ensures acc.version == "" && versionForceNext != "" ==> r.version == versionForceNext
    ensures acc.version == "" && versionForceNext == "" ==> r.version == firstRelease
    ensures r.system == acc.system && r.info == acc.info
  {
    VersionInfo(if acc.version != "" then acc.version
                else if versionForceNext != "" then versionForceNext
                else firstRelease,
                acc.system, acc.info)
  }

  /** The whole of `getCurrentVersion` from the readings. */
  function Reconcile(o: Options, rd: Readings, files: seq<VersionFile>, firstRelease: string): Result<VersionInfo>
  {
    match Run(Start, AllSteps(o, rd, files), o.taskRevert, o.republish)
    case Err(m) => Err(m)
    case Ok(acc) => Ok(Fallback(acc, o.versionForceNext, firstRelease))
  }

  /** The sources this model reads itself: the changelog version text, the
      configured `projectVersion` and the `assemblyinfo.cs` files found. */
  datatype LocalFiles = LocalFiles(changelogVersion: string, projectVersion: string, assemblyInfos: seq<string>)

  function ReadAll(lf: LocalFiles, npm: VersionInfo, extjs: VersionInfo, pom: VersionInfo, mantisbt: VersionInfo): Readings
  {
    Readings(VersionSources.ChangelogVersion(lf.changelogVersion), npm,
             VersionSources.AppPublisherVersion(lf.projectVersion),
             DotNetInfo(VersionSources.DotNetVersion(lf.assemblyInfos)),
             extjs, pom, mantisbt)
  }

  // ---------------------------------------------------------------------
  // The accumulator as the source keeps it: one object updated in place.

  class Reconciler {
    var version: string
    var system: string
    var info: Option<seq<string>>
    var warn: bool
    const taskRevert: bool
    const republish: bool

    function State(): Acc
      reads this
    {
      Acc(version, system, info, warn)
    }

    constructor (taskRevert: bool, republish: bool)
      ensures State() == Start
      ensures this.taskRevert == taskRevert && this.republish == republish
    {
      version := "";
      system := "";
      info := None;
      warn := false;
      this.taskRevert := taskRevert;
      this.republish := republish;
    }

    /** `doCheck`: on success the fields hold the new state; a thrown
        validation error is returned. */
    method DoCheck(v: VersionInfo, throwError: bool) returns (err: Option<string>)
      modifies this
      ensures Check(old(State()), v, throwError, taskRevert, republish).Ok? ==>
        err == None && State() == Check(old(State()), v, throwError, taskRevert, republish).value
      ensures Check(old(State()), v, throwError, taskRevert, republish).Err? ==> err == Some(ValidationFailed)
    {
      err := None;
      if v.version != "" {
        if version != "" {
          var candidate := v.version;
          if system != "" && system == "incremental" {
            candidate := RemoveChar(v.version, '.');
            version := RemoveChar(version, '.');
          }
          if candidate != version && !taskRevert {
            if throwError && !republish {
              return Some(ValidationFailed);
            }
            warn := true;
          }
          if info.None? {
            info := v.info;
          }
          if system == "" || system == "auto" {
            system := v.system;
          }
        } else {
          version := v.version;
          info := v.info;
          system := if system != "" then system else v.system;
        }
      }
    }

    /** One step of the run, in place. */
    method Perform(s: Step) returns (err: Option<string>)
      modifies this
      ensures Outcome(Exec(old(State()), s, taskRevert, republish), err, State())
    {
      match s
      case Probe(v, t) =>
        err := DoCheck(v, t);
      case Classify(sys) =>
        system := sys;
        err := None;
      case Require(m) =>
        err := if m then None else Some(ValidationFailed);
    }
  }

  /** What a run in place leaves behind: on success no error and the state
      the run computes, otherwise the error it raises. */
  predicate Outcome(r: Result<Acc>, err: Option<string>, state: Acc)
  {
    if r.Ok? then err == None && state == r.value else err == Some(r.msg)
  }

  /** The steps in order on the object, stopping at the first error. */
  method RunSteps(acc: Reconciler, steps: seq<Step>) returns (err: Option<string>)
    modifies acc
    ensures Outcome(Run(old(acc.State()), steps, acc.taskRevert, acc.republish), err, acc.State())
  {
    ghost var a0 := acc.State();
    var i := 0;
    while i < |steps|
      invariant 0 <= i <= |steps|
      invariant Run(a0, steps[..i], acc.taskRevert, acc.republish) == Ok(acc.State())
    {
      err := acc.Perform(steps[i]);
      assert steps[..i + 1][..i] == steps[..i];
      if err.Some? {
        RunErrExtends(a0, steps[..i + 1], steps, acc.taskRevert, acc.republish);
        return;
      }
      i := i + 1;
    }
    assert steps[..i] == steps;
    err := None;
  }

  /** `getCurrentVersion` given what the sources report, in source order:
      the changelog, npm, app-publisher, .NET, ExtJs, pom and MantisBT
      sources, then every `versionFiles` entry, then the fallback. */
  method GetCurrentVersion(o: Options, rd: Readings, files: seq<VersionFile>, firstRelease: string)
    returns (r: Result<VersionInfo>)
    ensures r == Reconcile(o, rd, files, firstRelease)
  {
    var acc := new Reconciler(o.taskRevert, o.republish);
    var steps := SourceSteps(o, rd);
    var err := RunSteps(acc, steps);
    RunAppend(Start, steps, FilesSteps(CaptureInfo, files), o.taskRevert, o.republish);
    if err.Some? {
      return Err(err.value);
    }
    err := ReadVersionFiles(acc, CaptureInfo, files);
    if err.Some? {
      return Err(err.value);
    }
    r := Ok(Fallback(acc.State(), o.versionForceNext, firstRelease));
  }

  /** The loop over `versionFiles`, stopping at the first error. */
  method ReadVersionFiles(acc: Reconciler, info: string -> VersionInfo, files: seq<VersionFile>) returns (err: Option<string>)
    requires forall c :: info(c).version == c
    modifies acc
    ensures Outcome(Run(old(acc.State()), FilesSteps(info, files), acc.taskRevert, acc.republish), err, acc.State())
  {
    ghost var a0 := acc.State();
    assert files[..0] == [];
    var f := 0;
    while f < |files|
      invariant 0 <= f <= |files|
      invariant Run(a0, FilesSteps(info, files[..f]), acc.taskRevert, acc.republish) == Ok(acc.State())
    {
      err := ReadNextFile(acc, a0, info, files, f);
      if err.Some? {
        FilesErrStops(a0, info, files, f + 1, acc.taskRevert, acc.republish);
        return;
      }
      assert Run(a0, FilesSteps(info, files[..f + 1]), acc.taskRevert, acc.republish) == Ok(acc.State());
      f := f + 1;
    }
    assert files[..f] == files;
    err := None;
  }

  /** The body of that loop: the `f`-th file read after the others. */
  method ReadNextFile(acc: Reconciler, ghost a0: Acc, info: string -> VersionInfo, files: seq<VersionFile>, f: nat)
    returns (err: Option<string>)
    requires forall c :: info(c).version == c
    requires f < |files| && Run(a0, FilesSteps(info, files[..f]), acc.taskRevert, acc.republish) == Ok(acc.State())
    modifies acc
    ensures Outcome(Run(a0, FilesSteps(info, files[..f + 1]), acc.taskRevert, acc.republish), err, acc.State())
  {
    ghost var before := acc.State();
    err := ReadVersionFile(acc, info, files[f]);
    FilesNext(a0, before, info, files, f, acc.taskRevert, acc.republish);
  }

  /** Reading one more file runs that file's steps after the others. */
  lemma FilesNext(a0: Acc, before: Acc, info: string -> VersionInfo, files: seq<VersionFile>, f: nat,
                  taskRevert: bool, republish: bool)
    requires f < |files| && Run(a0, FilesSteps(info, files[..f]), taskRevert, republish) == Ok(before)
    ensures Run(a0, FilesSteps(info, files[..f + 1]), taskRevert, republish) ==
      Run(before, FileSteps(info, files[f]), taskRevert, republish)
  {
    assert files[..f + 1][..f] == files[..f];
    RunAppend(a0, FilesSteps(info, files[..f]), FileSteps(info, files[f]), taskRevert, republish);
  }

  /** An error while reading the first `n` files is the error of reading
      them all. */
  lemma FilesErrStops(a0: Acc, info: string -> VersionInfo, files: seq<VersionFile>, n: nat, taskRevert: bool, republish: bool)
    requires n <= |files| && Run(a0, FilesSteps(info, files[..n]), taskRevert, republish).Err?
    ensures Run(a0, FilesSteps(info, files), taskRevert, republish) == Run(a0, FilesSteps(info, files[..n]), taskRevert, republish)
  {
    FilesStepsPrefix(info, files, n);
    RunErrExtends(a0, FilesSteps(info, files[..n]), FilesSteps(info, files), taskRevert, republish);
  }

  /** One `versionFiles` entry: skipped when it has `setFiles` or does not
      exist; a JSON file only has to have a version; otherwise every
      non-empty capture is checked and at least one is required. */
  method ReadVersionFile(acc: Reconciler, info: string -> VersionInfo, f: VersionFile) returns (err: Option<string>)
    requires forall c :: info(c).version == c
    modifies acc
    ensures Outcome(Run(old(acc.State()), FileSteps(info, f), acc.taskRevert, acc.republish), err, acc.State())
  {
    if f.hasSetFiles || !f.present {
      return None;
    }
    if IsJsonFile(f.path) {
      RunSingle(acc.State(), Require(f.jsonVersion != ""), acc.taskRevert, acc.republish);
      return if f.jsonVersion != "" then None else Some(ValidationFailed);
    }
    ghost var a0 := acc.State();
    var matched;
    matched, err := CheckCaptures(acc, info, f.captures);
    RunAppend(a0, Probes(info, f.captures), [Require(AnyNonEmpty(f.captures))], acc.taskRevert, acc.republish);
    if err.None? {
      RunSingle(acc.State(), Require(matched), acc.taskRevert, acc.republish);
      err := if matched then None else Some(ValidationFailed);
    }
  }

  /** The `while (regex.exec(...))` loop: every first group is handed to
      `doCheck` in turn, read through `info`; `matched` says whether one was
      non-empty. */
  method CheckCaptures(acc: Reconciler, info: string -> VersionInfo, captures: seq<string>) returns (matched: bool, err: Option<string>)
    requires forall c :: info(c).version == c
    modifies acc
    ensures matched == AnyNonEmpty(captures)
    ensures Outcome(Run(old(acc.State()), Probes(info, captures), acc.taskRevert, acc.republish), err, acc.State())
  {
    ghost var a0 := acc.State();
    ghost var steps := Probes(info, captures);
    matched := false;
    var k := 0;
    while k < |captures|
      invariant 0 <= k <= |captures|
      invariant Run(a0, steps[..k], acc.taskRevert, acc.republish) == Ok(acc.State())
      invariant matched == AnyNonEmpty(captures[..k])
    {
      var c := captures[k];
      ProbesAt(info, captures, k);
      assert steps[..k + 1][..k] == steps[..k];
      if c != "" {
        matched := true;
      }
      err := ProbeCapture(acc, info(c));
      AnyNonEmptySnoc(captures, k);
      if err.Some? {
        RunErrExtends(a0, steps[..k + 1], steps, acc.taskRevert, acc.republish);
        AnyNonEmptyPrefix(captures, k + 1);
        return;
      }
      k := k + 1;
    }
    assert steps[..k] == steps && captures[..k] == captures;
    err := None;
  }

  /** One capture: `doCheck` on it, which passes over an empty version. */
  method ProbeCapture(acc: Reconciler, v: VersionInfo) returns (err: Option<string>)
    modifies acc
    ensures Outcome(Check(old(acc.State()), v, true, acc.taskRevert, acc.republish), err, acc.State())
  {
    err := acc.DoCheck(v, true);
  }

  /** One more capture is one more check. */
  lemma RunCaptureNext(a0: Acc, before: Acc, info: string -> VersionInfo, captures: seq<string>, k: nat,
                       taskRevert: bool, republish: bool)
    requires k < |captures|
    requires Run(a0, Probes(info, captures[..k]), taskRevert, republish) == Ok(before)
    ensures Run(a0, Probes(info, captures[..k + 1]), taskRevert, republish) ==
      Check(before, info(captures[k]), true, taskRevert, republish)
  {
    assert captures[..k + 1][..k] == captures[..k];
    var s := Probes(info, captures[..k + 1]);
    assert s[..|s| - 1] == Probes(info, captures[..k]);
  }

  /** An error among the first `n` captures is the error of checking them
      all. */
  lemma CapturesErrStops(a0: Acc, info: string -> VersionInfo, captures: seq<string>, n: nat,
                         taskRevert: bool, republish: bool)
    requires n <= |captures| && Run(a0, Probes(info, captures[..n]), taskRevert, republish).Err?
    ensures Run(a0, Probes(info, captures), taskRevert, republish) == Run(a0, Probes(info, captures[..n]), taskRevert, republish)
  {
    ProbesPrefix(info, captures, n);
    RunErrExtends(a0, Probes(info, captures[..n]), Probes(info, captures), taskRevert, republish);
  }

  lemma AnyNonEmptySnoc(captures: seq<string>, k: nat)
    requires k < |captures|
    ensures AnyNonEmpty(captures[..k + 1]) == (AnyNonEmpty(captures[..k]) || captures[k] != "")
  {
    assert captures[..k + 1][..k] == captures[..k];
  }

  /** A non-empty capture among the first `n` is a non-empty capture. */
  lemma AnyNonEmptyPrefix(captures: seq<string>, n: nat)
    requires n <= |captures| && AnyNonEmpty(captures[..n])
    ensures AnyNonEmpty(captures)
  {
    AnyNonEmptyMeans(captures[..n]);
    var i :| 0 <= i < n && captures[..n][i] != "";
    assert captures[i] != "";
    AnyNonEmptyMeans(captures);
  }

  /** A run of one step is that step. */
  lemma RunSingle(acc: Acc, s: Step, taskRevert: bool, republish: bool)
    ensures Run(acc, [s], taskRevert, republish) == Exec(acc, s, taskRevert, republish)
  {
    assert [s][..0] == [];
  }

  // ---------------------------------------------------------------------
  // How runs compose.

  /** The rest of a run after `r`: an error stays, a state runs on. */
  function Continue(r: Result<Acc>, b: seq<Step>, taskRevert: bool, republish: bool): Result<Acc>
  {
    if r.Err? then Err(r.msg) else Run(r.value, b, taskRevert, republish)
  }

  /** Running two lists of steps one after the other. */
  lemma {:induction false} RunAppend(acc: Acc, a: seq<Step>, b: seq<Step>, taskRevert: bool, republish: bool)
    ensures Run(acc, a + b, taskRevert, republish) == Continue(Run(acc, a, taskRevert, republish), b, taskRevert, republish)
    decreases |b|
  {
    if |b| == 0 {
      assert a + b == a;
    } else {
      RunAppend(acc, a, b[..|b| - 1], taskRevert, republish);
      assert (a + b)[..|a + b| - 1] == a + b[..|b| - 1];
    }
  }

  /** An error in a prefix of the steps is the error of the whole run. */
  lemma RunErrExtends(acc: Acc, a: seq<Step>, all: seq<Step>, taskRevert: bool, republish: bool)
    requires |a| <= |all| && all[..|a|] == a
    requires Run(acc, a, taskRevert, republish).Err?
    ensures Run(acc, all, taskRevert, republish) == Run(acc, a, taskRevert, republish)
  {
    assert all == a + all[|a|..];
    RunAppend(acc, a, all[|a|..], taskRevert, republish);
  }

  lemma {:induction false} ProbesPrefix(info: string -> VersionInfo, captures: seq<string>, n: nat)
    requires n <= |captures|
    ensures Probes(info, captures)[..n] == Probes(info, captures[..n])
    decreases |captures|
  {
    if n < |captures| {
      var init := captures[..|captures| - 1];
      ProbesPrefix(info, init, n);
      assert init[..n] == captures[..n];
    } else {
      assert captures[..n] == captures;
    }
  }

  lemma {:induction false} FilesStepsPrefix(info: string -> VersionInfo, files: seq<VersionFile>, n: nat)
    requires n <= |files|
    ensures var s := FilesSteps(info, files[..n]); |s| <= |FilesSteps(info, files)| && FilesSteps(info, files)[..|s|] == s
    decreases |files|
  {
    if n < |files| {
      var init := files[..|files| - 1];
      FilesStepsPrefix(info, init, n);
      assert init[..n] == files[..n];
      assert FilesSteps(info, files) == FilesSteps(info, init) + FileSteps(info, files[|files| - 1]);
    } else {
      assert files[..n] == files;
    }
  }

  // ---------------------------------------------------------------------
  // What a whole run guarantees.

  /** Dots removed, the form in which incremental versions are compared. */
  function Dotless(version: string): string
  {
    RemoveChar(version, '.')
  }

  /** A checked source that reported a version. */
  predicate Checked(s: Step)
  {
    s.Probe? && s.throwError && s.v.version != ""
  }

  /** Every checked source agrees with `version` once dots are removed. */
  predicate Agrees(steps: seq<Step>, version: string)
  {
    forall i :: 0 <= i < |steps| && Checked(steps[i]) ==> Dotless(steps[i].v.version) == Dotless(version)
  }

  /** No source reports a version made of dots only. */
  predicate NoDotsOnly(steps: seq<Step>)
  {
    forall i :: 0 <= i < |steps| && steps[i].Probe? && steps[i].v.version != "" ==> Dotless(steps[i].v.version) != ""
  }

  predicate NoneReported(steps: seq<Step>)
  {
    forall i :: 0 <= i < |steps| && steps[i].Probe? ==> steps[i].v.version == ""
  }

  lemma DotlessIdempotent(version: string)
    ensures Dotless(Dotless(version)) == Dotless(version)
  {
    RemoveCharFacts(version, '.');
    RemoveCharFacts(Dotless(version), '.');
  }

  /** Without `taskRevert` and `republish`, a run that succeeds leaves a
      version every checked source agrees with, up to the dots removed
      under the incremental system; and it is empty only when no source
      reported one. */
  lemma {:induction false} RunAgrees(steps: seq<Step>, acc: Acc)
    requires NoDotsOnly(steps)
    requires Run(Start, steps, false, false) == Ok(acc)
    ensures Agrees(steps, acc.version)
    ensures acc.version != "" ==> Dotless(acc.version) != ""
    ensures acc.version == "" ==> NoneReported(steps)
    decreases |steps|
  {
    if |steps| > 0 {
      var n := |steps| - 1;
      var init := steps[..n];
      var a := Run(Start, init, false, false).value;
      assert NoDotsOnly(init) by {
        forall i | 0 <= i < n && init[i].Probe? && init[i].v.version != "" ensures Dotless(init[i].v.version) != "" {
          assert init[i] == steps[i];
        }
      }
      RunAgrees(init, a);
      assert steps == init + [steps[n]];
      AgreesStep(init, steps[n], a, acc);
    }
  }

  /** One more step keeps the agreement, given a state that agrees with the
      steps before it. */
  lemma AgreesStep(init: seq<Step>, s: Step, a: Acc, acc: Acc)
    requires Exec(a, s, false, false) == Ok(acc)
    requires Agrees(init, a.version)
    requires a.version != "" ==> Dotless(a.version) != ""
    requires a.version == "" ==> NoneReported(init)
    requires s.Probe? && s.v.version != "" ==> Dotless(s.v.version) != ""
    ensures Agrees(init + [s], acc.version)
    ensures acc.version != "" ==> Dotless(acc.version) != ""
    ensures acc.version == "" ==> NoneReported(init + [s])
  {
    var all := init + [s];
    if a.version != "" {
      CheckKeepsDotless(a, s, acc);
    }
    forall i | 0 <= i < |all| && Checked(all[i]) ensures Dotless(all[i].v.version) == Dotless(acc.version) {
      if i < |init| {
        assert all[i] == init[i];
      } else {
        CheckAgrees(a, s, acc);
      }
    }
    if acc.version == "" {
      forall i | 0 <= i < |all| && all[i].Probe? ensures all[i].v.version == "" {
        if i < |init| {
          assert all[i] == init[i];
        }
      }
    }
  }

  /** A step never changes the version beyond removing dots from it. */
  lemma CheckKeepsDotless(a: Acc, s: Step, acc: Acc)
    requires a.version != ""
    requires Exec(a, s, false, false) == Ok(acc)
    ensures Dotless(acc.version) == Dotless(a.version)
  {
    DotlessIdempotent(a.version);
  }

  /** The checked source of the last step agrees with the new state. */
  lemma CheckAgrees(a: Acc, s: Step, acc: Acc)
    requires Checked(s)
    requires Exec(a, s, false, false) == Ok(acc)
    ensures Dotless(s.v.version) == Dotless(acc.version)
  {
    DotlessIdempotent(a.version);
  }

  /** A reading agrees with a version when it reported none or the same
      one up to dots. */
  predicate AgreesWith(v: VersionInfo, version: string)
  {
    v.version != "" ==> Dotless(v.version) == Dotless(version)
  }

  /** `getCurrentVersion` without `taskRevert` or `republish`: every source
      that reported a version and was checked agrees with the result (up
      to dots under the incremental system), or no source reported one;
      and the result always has a version. */
  lemma ReconcileAgrees(o: Options, rd: Readings, files: seq<VersionFile>, firstRelease: string, r: VersionInfo)
    requires !o.taskRevert && !o.republish && firstRelease != ""
    requires NoDotsOnly(AllSteps(o, rd, files))
    requires Reconcile(o, rd, files, firstRelease) == Ok(r)
    ensures r.version != ""
    ensures Agrees(AllSteps(o, rd, files), r.version) || NoneReported(AllSteps(o, rd, files))
  {
    var steps := AllSteps(o, rd, files);
    var acc := Run(Start, steps, false, false).value;
    assert r == Fallback(acc, o.versionForceNext, firstRelease);
    RunAgrees(steps, acc);
  }

  /** In particular the npm, app-publisher, .NET, ExtJs, pom and MantisBT
      readings each agree with the version `getCurrentVersion` settles on. */
  lemma ReconcileReadingsAgree(o: Options, rd: Readings, files: seq<VersionFile>, firstRelease: string, r: VersionInfo)
    requires !o.taskRevert && !o.republish && firstRelease != ""
    requires NoDotsOnly(AllSteps(o, rd, files))
    requires Reconcile(o, rd, files, firstRelease) == Ok(r)
    ensures AgreesWith(rd.npm, r.version) && AgreesWith(rd.appPublisher, r.version) && AgreesWith(rd.dotnet, r.version)
    ensures AgreesWith(rd.extjs, r.version) && AgreesWith(rd.pom, r.version) && AgreesWith(rd.mantisbt, r.version)
  {
    ReconcileAgrees(o, rd, files, firstRelease, r);
    ReadingsAgree(o, rd, files, r.version);
  }

  /** The checked built-in sources agree with any version all checked
      steps agree with. */
  lemma ReadingsAgree(o: Options, rd: Readings, files: seq<VersionFile>, version: string)
    requires Agrees(AllSteps(o, rd, files), version) || NoneReported(AllSteps(o, rd, files))
    ensures AgreesWith(rd.npm, version) && AgreesWith(rd.appPublisher, version) && AgreesWith(rd.dotnet, version)
    ensures AgreesWith(rd.extjs, version) && AgreesWith(rd.pom, version) && AgreesWith(rd.mantisbt, version)
  {
    var steps := AllSteps(o, rd, files);
    SourcesLeadAll(o, rd, files);
    forall k | 1 <= k < 7 ensures AgreesWith(steps[k].v, version) {
      assert steps[k].Probe? && steps[k].throwError;
    }
  }

  /** A step that cannot fail: a probe that is not checked, or is checked
      under `republish` (which only warns) or `taskRevert` (which does not
      compare), a system classification, or a requirement that is met. */
  predicate Lenient(s: Step, taskRevert: bool, republish: bool)
  {
    match s
    case Probe(_, t) => !t || taskRevert || republish
    case Classify(_) => true
    case Require(m) => m
  }

  /** A run of lenient steps never fails. */
  lemma {:induction false} RunLenient(acc: Acc, steps: seq<Step>, taskRevert: bool, republish: bool)
    requires forall i :: 0 <= i < |steps| ==> Lenient(steps[i], taskRevert, republish)
    ensures Run(acc, steps, taskRevert, republish).Ok?
    decreases |steps|
  {
    if |steps| > 0 {
      var n := |steps| - 1;
      forall i | 0 <= i < n ensures Lenient(steps[..n][i], taskRevert, republish) {
        assert steps[..n][i] == steps[i];
      }
      RunLenient(acc, steps[..n], taskRevert, republish);
      assert Lenient(steps[n], taskRevert, republish);
    }
  }

  /** The changelog probe is run with `throwError` false, so whatever the
      changelog reports never makes `getCurrentVersion` fail. */
  lemma ChangelogNeverThrows(o: Options, rd: Readings, taskRevert: bool, republish: bool)
    ensures Lenient(SourceSteps(o, rd)[0], taskRevert, republish)
    ensures forall acc :: Exec(acc, SourceSteps(o, rd)[0], taskRevert, republish).Ok?
  {
    forall acc ensures Exec(acc, SourceSteps(o, rd)[0], taskRevert, republish).Ok? {
      RunLenient(acc, [SourceSteps(o, rd)[0]], taskRevert, republish);
      RunSingle(acc, SourceSteps(o, rd)[0], taskRevert, republish);
    }
  }

  /** A version file that is only written, is missing, or yields a version. */
  predicate FileMatched(f: VersionFile)
  {
    f.hasSetFiles || !f.present || (if IsJsonFile(f.path) then f.jsonVersion != "" else AnyNonEmpty(f.captures))
  }

  /** Under `republish` or `taskRevert` the version files only fail by not
      yielding a version. */
  lemma {:induction false} FilesLenient(info: string -> VersionInfo, files: seq<VersionFile>, taskRevert: bool, republish: bool)
    requires taskRevert || republish
    requires forall j :: 0 <= j < |files| ==> FileMatched(files[j])
    ensures forall i :: 0 <= i < |FilesSteps(info, files)| ==> Lenient(FilesSteps(info, files)[i], taskRevert, republish)
    decreases |files|
  {
    if |files| > 0 {
      var n := |files| - 1;
      FilesLenient(info, files[..n], taskRevert, republish);
      var f := files[n];
      var a := FilesSteps(info, files[..n]);
      var b := FileSteps(info, f);
      assert FileMatched(f);
      forall i | 0 <= i < |b| ensures Lenient(b[i], taskRevert, republish) {
        if !f.hasSetFiles && f.present && !IsJsonFile(f.path) && i < |f.captures| {
          assert b[i] == Probes(info, f.captures)[i];
          ProbesAt(info, f.captures, i);
        }
      }
      LenientJoin(a, b, taskRevert, republish);
    }
  }

  /** Under `republish` a version mismatch only warns and under
      `taskRevert` versions are not compared at all: `getCurrentVersion`
      then fails only on a version file that yields no version. */
  lemma ReconcileLenient(o: Options, rd: Readings, files: seq<VersionFile>, firstRelease: string)
    requires o.taskRevert || o.republish
    requires forall j :: 0 <= j < |files| ==> FileMatched(files[j])
    ensures Reconcile(o, rd, files, firstRelease).Ok?
  {
    var src := SourceSteps(o, rd);
    var fs := FilesSteps(CaptureInfo, files);
    SourcesLenient(o, rd);
    FilesLenient(CaptureInfo, files, o.taskRevert, o.republish);
    LenientJoin(src, fs, o.taskRevert, o.republish);
    RunLenient(Start, AllSteps(o, rd, files), o.taskRevert, o.republish);
  }

  /** Under `republish` or `taskRevert` none of the built-in sources fails. */
  lemma SourcesLenient(o: Options, rd: Readings)
    requires o.taskRevert || o.republish
    ensures forall i :: 0 <= i < 7 ==> Lenient(SourceSteps(o, rd)[i], o.taskRevert, o.republish)
  {
  }

  lemma LenientJoin(a: seq<Step>, b: seq<Step>, taskRevert: bool, republish: bool)
    requires forall i :: 0 <= i < |a| ==> Lenient(a[i], taskRevert, republish)
    requires forall i :: 0 <= i < |b| ==> Lenient(b[i], taskRevert, republish)
    ensures forall i :: 0 <= i < |a + b| ==> Lenient((a + b)[i], taskRevert, republish)
  {
    forall i | 0 <= i < |a + b| ensures Lenient((a + b)[i], taskRevert, republish) {
      if i < |a| {
        assert (a + b)[i] == a[i];
      } else {
        assert (a + b)[i] == b[i - |a|];
      }
    }
  }

  /** Under `taskRevert` no source is compared, so the warning is never set
      either. */
  lemma {:induction false} RevertNeverWarns(acc: Acc, steps: seq<Step>, republish: bool)
    requires !acc.warn
    requires Run(acc, steps, true, republish).Ok?
    ensures !Run(acc, steps, true, republish).value.warn
    decreases |steps|
  {
    if |steps| > 0 {
      RevertNeverWarns(acc, steps[..|steps| - 1], republish);
    }
  }

  /** The built-in sources are the first seven steps. */
  lemma SourcesLeadAll(o: Options, rd: Readings, files: seq<VersionFile>)
    ensures var s := AllSteps(o, rd, files);
      |s| >= 7 && s[1] == Probe(rd.npm, true) && s[2] == Probe(rd.appPublisher, true) &&
      s[3] == Probe(rd.dotnet, true) && s[4] == Probe(rd.extjs, true) &&
      s[5] == Probe(rd.pom, true) && s[6] == Probe(rd.mantisbt, true)
  {
    PrefixKept(SourceSteps(o, rd), FilesSteps(CaptureInfo, files));
  }

  /** Appending steps leaves the earlier ones in place. */
  lemma PrefixKept(a: seq<Step>, b: seq<Step>)
    ensures |a + b| >= |a| && forall i :: 0 <= i < |a| ==> (a + b)[i] == a[i]
  {
  }

  /** A run whose last step is a failed requirement fails. */
  lemma RunLastFails(acc: Acc, steps: seq<Step>, taskRevert: bool, republish: bool)
    requires |steps| > 0 && steps[|steps| - 1] == Require(false)
    ensures Run(acc, steps, taskRevert, republish).Err?
  {
  }

  /** Every error a run raises is the validation failure. */
  lemma {:induction false} RunErrMessage(acc: Acc, steps: seq<Step>, taskRevert: bool, republish: bool)
    ensures Run(acc, steps, taskRevert, republish).Err? ==> Run(acc, steps, taskRevert, republish).msg == ValidationFailed
    decreases |steps|
  {
    if |steps| > 0 {
      RunErrMessage(acc, steps[..|steps| - 1], taskRevert, republish);
    }
  }

  /** A version file that exists and is not only written must yield a
      version: a JSON file without one, or a file where the pattern finds
      none, makes `getCurrentVersion` fail. */
  lemma UnmatchedFileFails(o: Options, rd: Readings, files: seq<VersionFile>, firstRelease: string, j: nat)
    requires j < |files| && !files[j].hasSetFiles && files[j].present
    requires if IsJsonFile(files[j].path) then files[j].jsonVersion == "" else !AnyNonEmpty(files[j].captures)
    ensures Reconcile(o, rd, files, firstRelease) == Err(ValidationFailed)
  {
    var src := SourceSteps(o, rd);
    RunAppend(Start, src, FilesSteps(CaptureInfo, files), o.taskRevert, o.republish);
    var r0 := Run(Start, src, o.taskRevert, o.republish);
    if r0.Ok? {
      FileFails(r0.value, CaptureInfo, files, j, o.taskRevert, o.republish);
    }
    RunErrMessage(Start, AllSteps(o, rd, files), o.taskRevert, o.republish);
  }

  /** Reading the files fails from any state once one of them fails. */
  lemma FileFails(a: Acc, info: string -> VersionInfo, files: seq<VersionFile>, j: nat, taskRevert: bool, republish: bool)
    requires j < |files| && !files[j].hasSetFiles && files[j].present
    requires if IsJsonFile(files[j].path) then files[j].jsonVersion == "" else !AnyNonEmpty(files[j].captures)
    ensures Run(a, FilesSteps(info, files), taskRevert, republish).Err?
  {
    var fs := FileSteps(info, files[j]);
    assert |fs| > 0 && fs[|fs| - 1] == Require(false);
    assert files[..j + 1][..j] == files[..j];
    assert FilesSteps(info, files[..j + 1]) == FilesSteps(info, files[..j]) + fs;
    RunAppend(a, FilesSteps(info, files[..j]), fs, taskRevert, republish);
    var r1 := Run(a, FilesSteps(info, files[..j]), taskRevert, republish);
    if r1.Ok? {
      RunLastFails(r1.value, fs, taskRevert, republish);
    }
    FilesErrStops(a, info, files, j + 1, taskRevert, republish);
  }

  /** Once the system is set to something other than `auto`, no source
      changes it. */
  lemma {:induction false} SystemSticks(acc: Acc, steps: seq<Step>, taskRevert: bool, republish: bool)
    requires acc.system != "" && acc.system != "auto"
    requires NoClassify(steps)
    requires Run(acc, steps, taskRevert, republish).Ok?
    ensures Run(acc, steps, taskRevert, republish).value.system == acc.system
    decreases |steps|
  {
    if |steps| > 0 {
      SystemSticks(acc, steps[..|steps| - 1], taskRevert, republish);
    }
  }

  /** When the changelog is not validated, the system it reports is the
      system of the result, as long as it is set and not `auto` (the
      changelog reader never reports either). */
  lemma ChangelogSystemWins(o: Options, rd: Readings, files: seq<VersionFile>, firstRelease: string)
    requires !ChangelogChecked(o) && rd.changelog.system != "" && rd.changelog.system != "auto"
    requires Reconcile(o, rd, files, firstRelease).Ok?
    ensures Reconcile(o, rd, files, firstRelease).value.system == rd.changelog.system
  {
    var rest := SourceSteps(o, rd)[1..] + FilesSteps(CaptureInfo, files);
    ChangelogLeads(o, rd, files);
    ClassifyThenSticks(rd.changelog.system, rest, o.taskRevert, o.republish);
  }

  /** Without validation the changelog only sets the system, and no later
      step does. */
  lemma ChangelogLeads(o: Options, rd: Readings, files: seq<VersionFile>)
    requires !ChangelogChecked(o)
    ensures var rest := SourceSteps(o, rd)[1..] + FilesSteps(CaptureInfo, files);
      AllSteps(o, rd, files) == [Classify(rd.changelog.system)] + rest && NoClassify(rest)
  {
    var src := SourceSteps(o, rd);
    assert src == [src[0]] + src[1..];
    assert NoClassify(src[1..]);
    FilesStepsNoClassify(CaptureInfo, files);
    NoClassifyJoin(src[1..], FilesSteps(CaptureInfo, files));
  }

  /** No step of the run sets the system. */
  predicate NoClassify(steps: seq<Step>)
  {
    forall i :: 0 <= i < |steps| ==> !steps[i].Classify?
  }

  /** Two runs that never set the system, one after the other. */
  lemma NoClassifyJoin(a: seq<Step>, b: seq<Step>)
    requires NoClassify(a) && NoClassify(b)
    ensures NoClassify(a + b)
  {
    forall i | |a| <= i < |a + b| ensures (a + b)[i] == b[i - |a|] { }
  }

  /** A run that starts by setting the system and never sets it again ends
      with that system. */
  lemma ClassifyThenSticks(system: string, rest: seq<Step>, taskRevert: bool, republish: bool)
    requires system != "" && system != "auto"
    requires NoClassify(rest)
    requires Run(Start, [Classify(system)] + rest, taskRevert, republish).Ok?
    ensures Run(Start, [Classify(system)] + rest, taskRevert, republish).value.system == system
  {
    RunAppend(Start, [Classify(system)], rest, taskRevert, republish);
    RunSingle(Start, Classify(system), taskRevert, republish);
    SystemSticks(Start.(system := system), rest, taskRevert, republish);
  }

  /** The changelog reader's system is never unset and never `auto`. */
  lemma ChangelogReaderSystem(lf: LocalFiles, npm: VersionInfo, extjs: VersionInfo, pom: VersionInfo, mantisbt: VersionInfo)
    ensures var s := ReadAll(lf, npm, extjs, pom, mantisbt).changelog.system; s != "" && s != "auto"
  {
    var s := VersionSources.ChangelogVersion(lf.changelogVersion).system;
    assert s == "manual" || s == "semver" || s == "incremental";
  }

  lemma {:induction false} FilesStepsNoClassify(info: string -> VersionInfo, files: seq<VersionFile>)
    ensures NoClassify(FilesSteps(info, files))
    decreases |files|
  {
    if |files| > 0 {
      var n := |files| - 1;
      FilesStepsNoClassify(info, files[..n]);
      var f := files[n];
      if !f.hasSetFiles && f.present && !IsJsonFile(f.path) {
        forall i | 0 <= i < |Probes(info, f.captures)| ensures Probes(info, f.captures)[i].Probe? {
          ProbesAt(info, f.captures, i);
        }
        NoClassifyJoin(Probes(info, f.captures), [Require(AnyNonEmpty(f.captures))]);
      }
      NoClassifyJoin(FilesSteps(info, files[..n]), FileSteps(info, f));
    }
  }

  lemma {:induction false} ProbesAt(info: string -> VersionInfo, captures: seq<string>, i: nat)
    requires i < |captures|
    ensures Probes(info, captures)[i] == Probe(info(captures[i]), true)
    decreases |captures|
  {
    var n := |captures| - 1;
    if i < n {
      assert captures[..n][i] == captures[i];
      ProbesAt(info, captures[..n], i);
    }
  }
}
