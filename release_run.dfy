/** `runRelease` and the task levels of `src/index.ts`: the decisions a
    run takes from the validated options and the versions the earlier
    stages found, up to the point where the changelog edits and the
    releases begin. The stages it calls (option validation, the version
    readers, the commit analysis, the header lookup, the prompt) are
    inputs; what the run writes to stdout and the files it asks for are
    kept, and so are the `lastRelease` and `nextRelease` records it fills
    in step by step. */
module ReleaseRun {
  import opened Wrappers
  import opened Text
  import opened Context
  import Semver
  import Utils
  import LastRelease

  /** What a task level returns: `false` when no task ran, `true` when one
      did, and an error message when one failed. */
  datatype TaskResult = Flag(b: bool) | Message(text: string)

  /** A truthy result ends the run. */
  predicate Ends(r: TaskResult)
  {
    match r
    case Flag(b) => b
    case Message(t) => t != ""
  }

  /** The line `logTaskResult` writes for a result. */
  datatype LogLine = Error(text: string) | Success(text: string)

  function LogTaskResult(result: TaskResult, taskName: string): (r: Option<LogLine>)
    ensures result.Message? <==> r.Some? && r.value.Error?
    ensures r.Some? && r.value.Error? ==> r.value.text == result.text
    ensures r.Some? && r.value.Success? ==> result == Flag(true) && EndsWith(r.value.text, taskName)
    ensures result == Flag(false) ==> r.None?
  {
    match result
    case Message(t) => Some(Error(t))
    case Flag(b) => if b then Some(Success("Successfully completed task " + taskName)) else None
  }

  /** The options a run reads. `tasks` holds the name of every boolean
      task option that is set (and of the changelog print tasks whose
      version argument is given); an empty string is an option not
      given. */
  datatype Options = Options(
    tasks: set<string>,
    taskVersionPreReleaseId: string, taskChangelogHdrPrintVersion: string, taskTagVersion: string,
    versionForceNext: string, buildCommand: seq<string>, changelogFile: string, tagFormat: string,
    promptVersion: string, taskMode: bool, republish: bool, versionForceCurrent: bool,
    forceRelease: bool, tests: bool, noCi: bool)

  /** `context.lastRelease`. */
  datatype LastRel = LastRel(version: Option<string>, tag: Option<string>, versionInfo: VersionInfo)

  /** `context.nextRelease`. */
  datatype NextRel = NextRel(level: Option<string>, head: Option<string>, version: Option<string>,
                             tag: Option<string>, versionInfo: VersionInfo)

  const NoNextRelease := NextRel(None, None, None, None, NoVersionInfo)

  /** What the stages `runRelease` calls produce. */
  datatype Inputs = Inputs(
    validated: bool,                          // validateOptions
    help: TaskResult,                         // generateHelp
    headerOf: string -> Option<string>,       // changelog getHeader for a version
    latestHeader: Option<string>,             // changelog getHeader
    localVersion: VersionInfo,                // getCurrentVersion
    tagged: LastRel,                          // getLastRelease
    level: Option<string>,                    // getReleaseLevel
    head: Option<string>,                     // getHead
    next: VersionInfo,                        // getNextVersion
    prompted: string,                         // promptForVersion
    coerce: string -> Option<string>,         // semver.coerce, printed
    firstRelease: string)                     // FIRST_RELEASE

  /** What the run has produced so far. */
  datatype RunState = RunState(last: LastRel, next: NextRel, firstRelease: bool, stdout: string, files: seq<FileOp>)

  /** How a stage leaves the run: it goes on, or `runRelease` returns. */
  datatype RunResult = Proceeds | Ended(result: TaskResult) | Crashed(message: string)

  datatype Step = Step(result: RunResult, state: RunState)

  /** An optional string in a template literal or a concatenation. */
  function JsText(s: Option<string>): string
  {
    if s.Some? then s.value else "undefined"
  }

  /** An empty string field is an absent one. */
  function Given(s: string): (r: Option<string>)
    ensures r.None? <==> s == ""
  {
    if s == "" then None else Some(s)
  }

  predicate Truthy(s: Option<string>) { s.Some? && s.value != "" }

  /** `a || b` on optional strings. */
  function Or(a: Option<string>, b: Option<string>): (r: Option<string>)
    ensures Truthy(a) ==> r == a
    ensures !Truthy(a) ==> r == b
  {
    if Truthy(a) then a else b
  }

  // ---------------------------------------------------------------------
  // Level 1: tasks that need nothing from version control
  // ---------------------------------------------------------------------

  /** What `stdout.write` throws when handed something other than a
      string: `undefined`, or a number. */
  function WriteRejected(received: string): string
  {
    InvalidChunk + received
  }

  const InvalidChunk := "TypeError [ERR_INVALID_ARG_TYPE]: The \"chunk\" argument must be of type string or an instance of Buffer or Uint8Array. Received "

  /** `stdout.write` of an optional string: `undefined` throws. */
  function WriteText(out: string, v: Option<string>): (r: Result<string>)
    ensures r.Ok? <==> v.Some?
    ensures r.Ok? ==> r.value == out + v.value
    ensures r.Err? ==> r.msg == WriteRejected("undefined")
  {
    if v.Some? then Ok(out + v.value) else Err(WriteRejected("undefined"))
  }

  /** The pre-release identifier task's output: the first identifier of
      the cleaned version's pre-release, which node-semver keeps as a
      number when it is numeric, and writing a number throws. */
  function PreReleaseText(id: string): (r: Result<string>)
    ensures r.Err? <==> Semver.Clean(id).Some? && Semver.Prerelease(Semver.Clean(id).value).Some? &&
                        Semver.Prerelease(Semver.Clean(id).value).value[0].Num?
    ensures r.Err? ==> r.msg == WriteRejected("type number (" + Semver.IdentText(Semver.Prerelease(Semver.Clean(id).value).value[0]) + ")")
    ensures r.Ok? && Semver.Clean(id).Some? && Semver.Prerelease(Semver.Clean(id).value).Some? ==>
              r.value == Semver.Prerelease(Semver.Clean(id).value).value[0].s
    ensures r.Ok? && (Semver.Clean(id).None? || Semver.Prerelease(Semver.Clean(id).value).None?) ==>
              r.value == "error_invalid_prerelease_identifier"
  {
    var clean := Semver.Clean(id);
    var rc := if clean.Some? then Semver.Prerelease(clean.value) else None;
    if rc.None? then Ok("error_invalid_prerelease_identifier")
    else if rc.value[0].Num? then Err(WriteRejected("type number (" + Semver.IdentText(rc.value[0]) + ")"))
    else Ok(rc.value[0].s)
  }

  /** `processTasksLevel1`: the first task set, in a fixed order, runs. */
  function Level1(o: Options, inp: Inputs, out: string): (r: (Result<TaskResult>, string))
    ensures "taskDevTest" in o.tasks ==> r == (Ok(Flag(true)), out)
    ensures "taskDevTest" !in o.tasks && "taskGenerateCommands" in o.tasks ==> r == (Ok(inp.help), out)
    ensures r.0.Err? <==>
      "taskDevTest" !in o.tasks && "taskGenerateCommands" !in o.tasks && o.taskVersionPreReleaseId != "" &&
      PreReleaseText(o.taskVersionPreReleaseId).Err?
    ensures r.0.Err? ==> r.0.msg == PreReleaseText(o.taskVersionPreReleaseId).msg && r.1 == out
    ensures r.0 == Ok(Flag(false)) <==>
      ("taskDevTest" !in o.tasks && "taskGenerateCommands" in o.tasks && inp.help == Flag(false)) ||
      ("taskDevTest" !in o.tasks && "taskGenerateCommands" !in o.tasks && o.taskVersionPreReleaseId == "" &&
       o.taskChangelogHdrPrintVersion == "" && "taskTests" !in o.tasks)
    ensures r.1 != out ==>
      "taskDevTest" !in o.tasks && "taskGenerateCommands" !in o.tasks &&
      (o.taskVersionPreReleaseId != "" || o.taskChangelogHdrPrintVersion != "")
  {
    if "taskDevTest" in o.tasks then (Ok(Flag(true)), out)
    else if "taskGenerateCommands" in o.tasks then (Ok(inp.help), out)
    else if o.taskVersionPreReleaseId != "" then
      var text := PreReleaseText(o.taskVersionPreReleaseId);
      if text.Err? then (Err(text.msg), out) else (Ok(Flag(true)), out + text.value)
    else if o.taskChangelogHdrPrintVersion != "" then
      var hdr := inp.headerOf(o.taskChangelogHdrPrintVersion);
      (Ok(Flag(true)), out + (if hdr.Some? then hdr.value else "error_cannot_retrieve_header"))
    else if "taskTests" in o.tasks then (Ok(Flag(true)), out)
    else (Ok(Flag(false)), out)
  }

  // ---------------------------------------------------------------------
  // Last release against the local version files
  // ---------------------------------------------------------------------

  /** With no tag found the local version is the last release and this
      is a first release; any other disagreement ends the run outside
      task and republish modes. */
  function Reconciled(o: Options, inp: Inputs, s: RunState): (r: Step)
    ensures r.state.stdout == s.stdout && r.state.files == s.files && r.state.next == s.next
    ensures r.result.Proceeds? || r.result == Ended(Flag(false))
    ensures r.result.Proceeds? && r.state.last != inp.tagged ==>
      r.state.firstRelease && r.state.last.versionInfo == inp.localVersion && r.state.last.version == Given(inp.localVersion.version)
    ensures r.state.last == inp.tagged || r.result.Proceeds?
    ensures r.result == Ended(Flag(false)) <==>
      inp.tagged.version != Given(inp.tagged.versionInfo.version) &&
      (Truthy(inp.tagged.version) || Truthy(inp.tagged.tag)) && !o.taskMode && !o.republish
  {
    var last := inp.tagged;
    if last.version == Given(last.versionInfo.version) then Step(Proceeds, s.(last := last))
    else if !Truthy(last.version) && !Truthy(last.tag) then
      Step(Proceeds, s.(last := last.(version := Given(inp.localVersion.version), versionInfo := inp.localVersion),
                        firstRelease := true))
    else if !o.taskMode && !o.republish then Step(Ended(Flag(false)), s.(last := last))
    else Step(Proceeds, s.(last := last))
  }

  // ---------------------------------------------------------------------
  // Level 2: tasks that need the last release
  // ---------------------------------------------------------------------

  /** The version `taskVersionCurrent` prints. */
  function CurrentVersionText(last: LastRel, firstRelease: string): (r: string)
    ensures Truthy(last.version) ==> r == last.version.value
    ensures !Truthy(last.version) && last.versionInfo.version != "" ==> r == last.versionInfo.version
    ensures !Truthy(last.version) && last.versionInfo.version == "" ==> r == firstRelease
  {
    if Truthy(last.version) then last.version.value
    else if last.versionInfo.version != "" then last.versionInfo.version
    else firstRelease
  }

  /** A version given to the commit and tag tasks must be valid in the
      local versioning system. */
  function TagVersionCheck(tagVersion: string, system: string): (r: Option<string>)
    ensures r.Some? <==> tagVersion != "" && Utils.ValidateVersion(tagVersion, system, "") != Ok(true)
    ensures r.Some? ==> EndsWith(r.value, tagVersion)
  {
    if tagVersion != "" && Utils.ValidateVersion(tagVersion, system, "") != Ok(true) then
      Some("Invalid version provided with --task-tag-version : " + tagVersion)
    else None
  }

  /** The commit and tag tasks release the given version, or the local
      one, under the tag the tag format makes of it. */
  function CommitTag(o: Options, s: RunState): (r: (TaskResult, RunState))
    ensures r.0.Message? <==> TagVersionCheck(o.taskTagVersion, s.last.versionInfo.system).Some?
    ensures r.0.Flag? ==>
      r.0 == Flag(true) &&
      r.1.next.version == Or(Given(o.taskTagVersion), Given(s.last.versionInfo.version)) &&
      r.1.next.tag == Some(LastRelease.RenderTag(o.tagFormat, if r.1.next.version.Some? then r.1.next.version.value else "")) &&
      r.1.files == s.files + [AddEdit(o.changelogFile)]
    ensures r.0.Message? ==> r.1 == s
  {
    var bad := TagVersionCheck(o.taskTagVersion, s.last.versionInfo.system);
    if bad.Some? then (Message(bad.value), s)
    else
      var version := Or(Given(o.taskTagVersion), Given(s.last.versionInfo.version));
      var tag := LastRelease.RenderTag(o.tagFormat, if version.Some? then version.value else "");
      (Flag(true), s.(next := s.next.(version := version, tag := Some(tag)), files := s.files + [AddEdit(o.changelogFile)]))
  }

  /** `processTasksLevel2`. */
  function Level2(o: Options, firstRelease: string, s: RunState): (r: (TaskResult, RunState))
    ensures "taskVersionCurrent" in o.tasks ==>
      r == (Flag(true), s.(stdout := s.stdout + CurrentVersionText(s.last, firstRelease)))
    ensures r.0 == Flag(false) <==>
      "taskVersionCurrent" !in o.tasks && "taskRevert" !in o.tasks && "taskCommit" !in o.tasks &&
      "taskTag" !in o.tasks && "taskBuild" !in o.tasks
    ensures r.0 == Flag(false) ==> r.1 == s
    ensures r.1.last == s.last && r.1.firstRelease == s.firstRelease
  {
    if "taskVersionCurrent" in o.tasks then (Flag(true), s.(stdout := s.stdout + CurrentVersionText(s.last, firstRelease)))
    else if "taskRevert" in o.tasks then (Flag(true), s.(files := s.files + [AddEdit(o.changelogFile)]))
    else if "taskCommit" in o.tasks || "taskTag" in o.tasks then CommitTag(o, s)
    else if "taskBuild" in o.tasks then
      if |o.buildCommand| > 0 then (Flag(true), s.(next := s.next.(version := Or(s.last.version, Given(s.last.versionInfo.version)))))
      else (Flag(true), s)
    else (Flag(false), s)
  }

  // ---------------------------------------------------------------------
  // Release level and the next version
  // ---------------------------------------------------------------------

  /** The tasks that only show a changelog section of a given version. */
  predicate NeedNoCommits(o: Options)
  {
    "taskChangelogPrintVersion" in o.tasks || "taskChangelogHtmlPrintVersion" in o.tasks ||
    "taskChangelogViewVersion" in o.tasks
  }

  /** The changelog tasks that may run without a release level. */
  predicate TasksCanPass(o: Options)
  {
    "taskChangelogPrint" in o.tasks || "taskChangelogPrintVersion" in o.tasks || "taskChangelogHdrPrint" in o.tasks ||
    "taskChangelogHdrPrintVersion" in o.tasks || "taskChangelogView" in o.tasks || "taskChangelogViewVersion" in o.tasks ||
    "taskChangelogHtmlPrint" in o.tasks || "taskChangelogHtmlPrintVersion" in o.tasks || "taskChangelogHtmlView" in o.tasks
  }

  /** The release level and head revision, unless the current version is
      forced. */
  function Levelled(o: Options, inp: Inputs, s: RunState): (r: RunState)
    ensures o.versionForceCurrent ==> r == s
    ensures !o.versionForceCurrent ==> r.next.level == inp.level && r.next.head == inp.head
    ensures r.next.version == s.next.version && r.last == s.last
  {
    if o.versionForceCurrent then s else s.(next := s.next.(level := inp.level, head := inp.head))
  }

  /** Without a release level only a changelog task, a forced version or
      a forced release goes on; the version tasks print the last version. */
  function RelevantCommits(o: Options, s: RunState): (r: Step)
    ensures r.state.last == s.last && r.state.next == s.next && r.state.files == s.files
    ensures r.result.Proceeds? <==>
      Truthy(s.next.level) || NeedNoCommits(o) || o.tests || TasksCanPass(o) ||
      o.versionForceCurrent || o.versionForceNext != "" || o.forceRelease
    ensures r.result.Proceeds? || r.result.Crashed? ==> r.state == s
    ensures r.result.Crashed? <==> !r.result.Proceeds? && "taskVersionNext" in o.tasks && s.last.version.None?
    ensures r.result.Crashed? ==> r.result.message == WriteRejected("undefined")
    ensures r.result.Ended? && "taskVersionNext" in o.tasks ==>
      r.result == Ended(Flag(true)) && s.last.version.Some? && r.state.stdout == s.stdout + s.last.version.value
    ensures r.result == Ended(Flag(false)) <==>
      !r.result.Proceeds? && "taskVersionNext" !in o.tasks && "taskVersionInfo" !in o.tasks
  {
    if Truthy(s.next.level) || NeedNoCommits(o) || o.tests then Step(Proceeds, s)
    else if TasksCanPass(o) || o.versionForceCurrent || o.versionForceNext != "" || o.forceRelease then Step(Proceeds, s)
    else if "taskVersionNext" in o.tasks then
      var w := WriteText(s.stdout, s.last.version);
      if w.Err? then Step(Crashed(w.msg), s) else Step(Ended(Flag(true)), s.(stdout := w.value))
    else if "taskVersionInfo" in o.tasks then
      var v := JsText(s.last.version);
      Step(Ended(Flag(true)), s.(stdout := s.stdout + v + "|" + v + "|none"))
    else Step(Ended(Flag(false)), s)
  }

  /** On a first release, whether the local version is ahead of the
      computed next version; `semver.gt` throws on an uncoercible one. */
  function FirstReleaseAhead(inp: Inputs, s: RunState, next: Option<string>): (r: Result<bool>)
    ensures !s.firstRelease ==> r == Ok(false)
  {
    if !s.firstRelease then Ok(false)
    else
      var a := inp.coerce(s.last.versionInfo.version);
      var b := inp.coerce(JsText(next));
      if a.None? || b.None? then Err("TypeError: Invalid Version: null")
      else Semver.Gt(a.value, b.value)
  }

  /** The computed next version, prompted for when asked to or when a
      first release outside CI finds the local version ahead. */
  function Computed(o: Options, inp: Inputs, s: RunState): (r: Step)
    ensures r.state.last == s.last && r.state.firstRelease == s.firstRelease && r.state.next.level == s.next.level
    ensures r.state.stdout == s.stdout && r.state.files == s.files
    ensures r.result.Proceeds? && o.promptVersion == "Y" ==> r.state.next.version == Some(inp.prompted) && inp.prompted != ""
    ensures r.result.Proceeds? && o.promptVersion != "Y" && !o.noCi ==> r.state.next.version == Given(inp.next.version)
    ensures FirstReleaseAhead(inp, s, Given(inp.next.version)) == Ok(false) && o.promptVersion != "Y" ==>
      r.result.Proceeds? && r.state.next.version == Given(inp.next.version)
    ensures FirstReleaseAhead(inp, s, Given(inp.next.version)) == Ok(true) && !o.noCi && o.promptVersion != "Y" ==>
      r.result == Ended(Flag(false))
    ensures r.state.next.versionInfo == inp.next
  {
    var version := Given(inp.next.version);
    var s1 := s.(next := s.next.(versionInfo := inp.next, version := version));
    var ahead := FirstReleaseAhead(inp, s, version);
    if ahead.Err? then Step(Crashed(ahead.msg), s1)
    else if o.promptVersion == "Y" || (o.noCi && ahead.value) then
      var s2 := s1.(next := s1.next.(version := Some(inp.prompted)));
      if inp.prompted == "" then Step(Ended(Flag(false)), s2) else Step(Proceeds, s2)
    else if ahead.value then Step(Ended(Flag(false)), s1)
    else Step(Proceeds, s1)
  }

  /** A forced version: the current one, which a first release does not
      have, or the one given, which must pass `validateVersion` against
      the last release. */
  function Forced(o: Options, s: RunState): (r: Step)
    ensures r.state.last == s.last && r.state.firstRelease == s.firstRelease && r.state.next.level == s.next.level
    ensures r.state.stdout == s.stdout && r.state.files == s.files
    ensures o.versionForceCurrent && s.firstRelease ==> r.result == Ended(Flag(false))
    ensures r.result.Proceeds? && o.versionForceNext != "" ==>
      r.state.next.version == Some(o.versionForceNext) &&
      Utils.ValidateVersion(o.versionForceNext, s.last.versionInfo.system, if s.last.version.Some? then s.last.version.value else "") == Ok(true)
    ensures r.result.Proceeds? && o.versionForceNext == "" ==> r.state.next.version == s.last.version
    ensures r.result.Proceeds? ==> r.state.next.versionInfo == s.last.versionInfo
  {
    if o.versionForceCurrent && s.firstRelease then Step(Ended(Flag(false)), s)
    else if o.versionForceNext != "" then
      var s1 := s.(next := s.next.(versionInfo := s.last.versionInfo, version := Some(o.versionForceNext)));
      var valid := Utils.ValidateVersion(o.versionForceNext, s.last.versionInfo.system,
                                         if s.last.version.Some? then s.last.version.value else "");
      if valid.Err? then Step(Crashed(valid.msg), s1)
      else if !valid.value then Step(Ended(Flag(false)), s1)
      else Step(Proceeds, s1)
    else Step(Proceeds, s.(next := s.next.(versionInfo := s.last.versionInfo, version := s.last.version)))
  }

  /** The next version: computed, unless one is forced or only a
      changelog section is shown. */
  function Chosen(o: Options, inp: Inputs, s: RunState): (r: Step)
    ensures r.state.last == s.last && r.state.firstRelease == s.firstRelease
    ensures r.state.stdout == s.stdout && r.state.files == s.files
  {
    if !o.versionForceCurrent && o.versionForceNext == "" && !NeedNoCommits(o) then Computed(o, inp, s) else Forced(o, s)
  }

  /** The next version and its tag. */
  function Versioned(o: Options, inp: Inputs, s: RunState): (r: Step)
    ensures r.state.last == s.last && r.state.firstRelease == s.firstRelease
    ensures r.state.stdout == s.stdout && r.state.files == s.files
    ensures r.result.Proceeds? ==>
      r.state.next.tag == Some(LastRelease.RenderTag(o.tagFormat, if r.state.next.version.Some? then r.state.next.version.value else ""))
  {
    var v := Chosen(o, inp, s);
    if !v.result.Proceeds? then v
    else
      var n := v.state.next;
      Step(Proceeds, v.state.(next := n.(tag := Some(LastRelease.RenderTag(o.tagFormat, if n.version.Some? then n.version.value else "")))))
  }

  // ---------------------------------------------------------------------
  // Level 3: tasks that need the next release
  // ---------------------------------------------------------------------

  /** The `ap.env` file the CI environment task writes. */
  function CiEnvFile(last: LastRel, next: NextRel, changelogFile: string): (r: string)
    ensures StartsWith(r, JsText(last.version) + EOL + JsText(next.version) + EOL)
    ensures changelogFile != "" ==> EndsWith(r, changelogFile + EOL)
  {
    var head := JsText(last.version) + EOL + JsText(next.version) + EOL;
    if changelogFile != "" then head + (changelogFile + EOL) else head
  }

  /** `processTasksLevel3`: the first task set, in a fixed order, runs. */
  function Level3(o: Options, inp: Inputs, s: RunState): (r: (Result<TaskResult>, RunState))
    ensures r.1.last == s.last && r.1.next == s.next && r.1.firstRelease == s.firstRelease
    ensures r.0 == Ok(Flag(false)) <==> NoLevel3Task(o)
    ensures r.0 == Ok(Flag(false)) || r.0 == Ok(Flag(true)) || r.0 == Err(WriteRejected("undefined"))
    ensures r.0.Err? <==> "taskVersionNext" in o.tasks && s.next.version.None?
    ensures r.0.Err? ==> r.1 == s
    ensures "taskVersionNext" in o.tasks && r.0.Ok? ==> s.next.version.Some? && r.1.stdout == s.stdout + s.next.version.value
    ensures "taskVersionNext" !in o.tasks && "taskVersionInfo" in o.tasks ==>
      r.1.stdout == s.stdout + (JsText(s.last.version) + "|" + JsText(s.next.version) + "|" + JsText(s.next.level))
    ensures "taskVersionNext" !in o.tasks && "taskVersionInfo" !in o.tasks && "taskCiEnvSet" in o.tasks ==>
      r.1.files == s.files + [WriteFile("ap.env", CiEnvFile(s.last, s.next, o.changelogFile))]
    ensures r.1.files != s.files ==> "taskCiEnvSet" in o.tasks
    ensures s.stdout <= r.1.stdout && s.files <= r.1.files
  {
    if "taskVersionNext" in o.tasks then
      var w := WriteText(s.stdout, s.next.version);
      if w.Err? then (Err(w.msg), s) else (Ok(Flag(true)), s.(stdout := w.value))
    else if "taskVersionInfo" in o.tasks then
      (Ok(Flag(true)), s.(stdout := s.stdout + (JsText(s.last.version) + "|" + JsText(s.next.version) + "|" + JsText(s.next.level))))
    else if "taskCiEnvSet" in o.tasks then
      (Ok(Flag(true)), s.(files := s.files + [WriteFile("ap.env", CiEnvFile(s.last, s.next, o.changelogFile))]))
    else if "taskCiEnvInfo" in o.tasks then
      var text := JsText(s.last.version) + "|" + JsText(s.next.version);
      (Ok(Flag(true)), s.(stdout := s.stdout + (if o.changelogFile != "" then text + "|" + o.changelogFile else text)))
    else if "taskReleaseLevel" in o.tasks then
      (Ok(Flag(true)), s.(stdout := s.stdout + (if s.next.level.Some? then s.next.level.value else "none")))
    else if "taskChangelogHdrPrint" in o.tasks then
      (Ok(Flag(true)), s.(stdout := s.stdout + (if inp.latestHeader.Some? then inp.latestHeader.value else "Error")))
    else (Ok(Flag(false)), s)
  }

  // ---------------------------------------------------------------------
  // The run
  // ---------------------------------------------------------------------

  const Initial := RunState(LastRel(None, None, NoVersionInfo), NoNextRelease, false, "", [])

  /** A task level's result as a stage: a truthy one ends the run, and
      one that threw crashes it. */
  function Gate(t: (Result<TaskResult>, RunState)): (r: Step)
    ensures r.state == t.1
    ensures r.result.Proceeds? <==> t.0.Ok? && !Ends(t.0.value)
    ensures r.result.Ended? <==> t.0.Ok? && Ends(t.0.value)
    ensures r.result.Ended? ==> r.result.result == t.0.value
    ensures r.result.Crashed? <==> t.0.Err?
    ensures r.result.Crashed? ==> r.result.message == t.0.msg
  {
    if t.0.Err? then Step(Crashed(t.0.msg), t.1)
    else if Ends(t.0.value) then Step(Ended(t.0.value), t.1) else Step(Proceeds, t.1)
  }

  /** A level-2 task's result, which never throws, as a stage. */
  function Gate2(t: (TaskResult, RunState)): (r: Step)
    ensures r == Gate((Ok(t.0), t.1))
    ensures !r.result.Crashed?
  {
    Gate((Ok(t.0), t.1))
  }

  /** `runRelease` up to the changelog edits. Without validated options
      the run ends at once; the last release it settles is none when a
      level-1 task ends it, otherwise the tag found or, on a first release,
      the local version. */
  function Released(o: Options, inp: Inputs): (r: Step)
    ensures !inp.validated ==> r == Step(Ended(Flag(false)), Initial)
    ensures r.state.last == Initial.last || r.state.last == inp.tagged ||
            (r.state.firstRelease && r.state.last.versionInfo == inp.localVersion && r.state.last.version == Given(inp.localVersion.version))
    ensures r.result.Crashed? ==> inp.validated
  {
    if !inp.validated then Step(Ended(Flag(false)), Initial) else
    var l1 := Level1(o, inp, "");
    var a := Gate((l1.0, Initial.(stdout := l1.1)));
    if !a.result.Proceeds? then a else FromReconcile(o, inp, a.state)
  }

  /** The run from the version check on: the last release becomes the tag
      found or, on a first release, the local version; output and file
      requests are only added to. */
  function FromReconcile(o: Options, inp: Inputs, s: RunState): (r: Step)
    ensures r.state.last == inp.tagged ||
            (r.state.firstRelease && r.state.last.versionInfo == inp.localVersion && r.state.last.version == Given(inp.localVersion.version))
    ensures s.stdout <= r.state.stdout && s.files <= r.state.files
  {
    var b := Reconciled(o, inp, s);
    if !b.result.Proceeds? then b else FromLevel2(o, inp, b.state)
  }

  /** The run from the level-2 tasks on: the last release stays as settled,
      output and file requests are only added to, and a run that goes on
      ran no task and carries its tag. */
  function FromLevel2(o: Options, inp: Inputs, s: RunState): (r: Step)
    ensures r.state.last == s.last && r.state.firstRelease == s.firstRelease
    ensures s.stdout <= r.state.stdout && s.files <= r.state.files
    ensures r.result.Proceeds? ==>
      "taskVersionCurrent" !in o.tasks && "taskRevert" !in o.tasks && "taskCommit" !in o.tasks &&
      "taskTag" !in o.tasks && "taskBuild" !in o.tasks && NoLevel3Task(o) && Tagged(o, r.state.next)
  {
    var c := Gate2(Level2(o, inp.firstRelease, s));
    if !c.result.Proceeds? then c else FromCommits(o, inp, c.state)
  }

  /** The run from the release level on, with the same guarantees. */
  function FromCommits(o: Options, inp: Inputs, s: RunState): (r: Step)
    ensures r.state.last == s.last && r.state.firstRelease == s.firstRelease
    ensures s.stdout <= r.state.stdout && s.files <= r.state.files
    ensures r.result.Proceeds? ==> NoLevel3Task(o) && Tagged(o, r.state.next)
  {
    var d := RelevantCommits(o, Levelled(o, inp, s));
    if !d.result.Proceeds? then d else FromVersion(o, inp, d.state)
  }

  /** The run from the next version on, with the same guarantees. */
  function FromVersion(o: Options, inp: Inputs, s: RunState): (r: Step)
    ensures r.state.last == s.last && r.state.firstRelease == s.firstRelease
    ensures s.stdout <= r.state.stdout && s.files <= r.state.files
    ensures r.result.Proceeds? ==> NoLevel3Task(o) && Tagged(o, r.state.next)
  {
    var e := Versioned(o, inp, s);
    if !e.result.Proceeds? then e else Gate(Level3(o, inp, e.state))
  }

  /** A truthy level-1 result ends a run with validated options, and one
      that threw crashes it, before version control is consulted. */
  lemma Level1EndsRun(o: Options, inp: Inputs)
    requires inp.validated
    requires Level1(o, inp, "").0.Err? || Ends(Level1(o, inp, "").0.value)
    ensures Level1(o, inp, "").0.Ok? ==> Released(o, inp).result == Ended(Level1(o, inp, "").0.value)
    ensures Level1(o, inp, "").0.Err? ==> Released(o, inp).result == Crashed(Level1(o, inp, "").0.msg)
    ensures Released(o, inp).state.last == Initial.last
  {
  }

  /** A run that goes on to the edits ran no task of any level, and
      carries the tag of its next version. */
  lemma ProceedingRun(o: Options, inp: Inputs)
    requires Released(o, inp).result.Proceeds?
    ensures inp.validated
    ensures Level1(o, inp, "").0.Ok? && !Ends(Level1(o, inp, "").0.value)
    ensures "taskVersionCurrent" !in o.tasks && "taskRevert" !in o.tasks && "taskCommit" !in o.tasks &&
            "taskTag" !in o.tasks && "taskBuild" !in o.tasks
    ensures NoLevel3Task(o)
    ensures var n := Released(o, inp).state.next;
            n.tag == Some(LastRelease.RenderTag(o.tagFormat, if n.version.Some? then n.version.value else ""))
  {
    var l1 := Level1(o, inp, "");
    var a := Gate((l1.0, Initial.(stdout := l1.1)));
    var b := Reconciled(o, inp, a.state);
    assert FromReconcile(o, inp, a.state) == FromLevel2(o, inp, b.state);
  }

  predicate NoLevel3Task(o: Options)
  {
    "taskVersionNext" !in o.tasks && "taskVersionInfo" !in o.tasks && "taskCiEnvSet" !in o.tasks &&
    "taskCiEnvInfo" !in o.tasks && "taskReleaseLevel" !in o.tasks && "taskChangelogHdrPrint" !in o.tasks
  }

  predicate Tagged(o: Options, n: NextRel)
  {
    n.tag == Some(LastRelease.RenderTag(o.tagFormat, if n.version.Some? then n.version.value else ""))
  }

  // ---------------------------------------------------------------------
  // The run, step by step
  // ---------------------------------------------------------------------

  /** The records `runRelease` fills in as it goes. */
  class Run {
    var last: LastRel
    var next: NextRel
    var firstRelease: bool
    var stdout: string
    var files: seq<FileOp>

    function State(): RunState
      reads this
    {
      RunState(last, next, firstRelease, stdout, files)
    }

    constructor()
      ensures State() == Initial
    {
      last := LastRel(None, None, NoVersionInfo);
      next := NoNextRelease;
      firstRelease := false;
      stdout := "";
      files := [];
    }

    /** `runRelease`, from fresh records. */
    method RunRelease(o: Options, inp: Inputs) returns (r: RunResult)
      requires State() == Initial
      modifies this
      ensures Released(o, inp) == Step(r, State())
    {
      if !inp.validated {
        return Ended(Flag(false));
      }
      var level1 := ProcessTasksLevel1(o, inp);
      if level1.Err? {
        return Crashed(level1.msg);
      }
      if Ends(level1.value) {
        return Ended(level1.value);
      }
      ghost var s := State();
      r := ReconcileLastRelease(o, inp);
      if !r.Proceeds? { return; }
      assert Released(o, inp) == FromReconcile(o, inp, s) == FromLevel2(o, inp, State());
      s := State();
      var done := ProcessTasksLevel2(o, inp.firstRelease);
      if Ends(done) {
        return Ended(done);
      }
      assert FromLevel2(o, inp, s) == FromCommits(o, inp, State());
      r := RunFromCommits(o, inp);
    }

    /** The rest of the run, from the release level on. */
    method RunFromCommits(o: Options, inp: Inputs) returns (r: RunResult)
      modifies this
      ensures FromCommits(o, inp, old(State())) == Step(r, State())
    {
      if !o.versionForceCurrent {
        next := next.(level := inp.level, head := inp.head);
      }
      r := CheckRelevantCommits(o);
      if !r.Proceeds? { return; }
      ghost var s := State();
      r := NextVersion(o, inp);
      if !r.Proceeds? { return; }
      next := next.(tag := Some(LastRelease.RenderTag(o.tagFormat, if next.version.Some? then next.version.value else "")));
      assert FromVersion(o, inp, s) == Gate(Level3(o, inp, State()));
      var done := ProcessTasksLevel3(o, inp);
      r := if done.Err? then Crashed(done.msg) else if Ends(done.value) then Ended(done.value) else Proceeds;
    }

    method ProcessTasksLevel1(o: Options, inp: Inputs) returns (done: Result<TaskResult>)
      modifies this`stdout
      ensures (done, stdout) == Level1(o, inp, old(stdout))
    {
      if "taskDevTest" in o.tasks {
        return Ok(Flag(true));
      }
      if "taskGenerateCommands" in o.tasks {
        return Ok(inp.help);
      }
      if o.taskVersionPreReleaseId != "" {
        var text := PreReleaseText(o.taskVersionPreReleaseId);
        if text.Err? {
          return Err(text.msg);
        }
        stdout := stdout + text.value;
        return Ok(Flag(true));
      }
      if o.taskChangelogHdrPrintVersion != "" {
        var hdr := inp.headerOf(o.taskChangelogHdrPrintVersion);
        stdout := stdout + (if hdr.Some? then hdr.value else "error_cannot_retrieve_header");
        return Ok(Flag(true));
      }
      if "taskTests" in o.tasks {
        return Ok(Flag(true));
      }
      done := Ok(Flag(false));
    }

    method ReconcileLastRelease(o: Options, inp: Inputs) returns (r: RunResult)
      modifies this
      ensures Reconciled(o, inp, old(State())) == Step(r, State())
    {
      last := inp.tagged;
      r := Proceeds;
      if last.version != Given(last.versionInfo.version) {
        if !Truthy(last.version) && !Truthy(last.tag) {
          last := last.(version := Given(inp.localVersion.version), versionInfo := inp.localVersion);
          firstRelease := true;
        } else if !o.taskMode && !o.republish {
          r := Ended(Flag(false));
        }
      }
    }

    method ProcessTasksLevel2(o: Options, firstReleaseText: string) returns (done: TaskResult)
      modifies this
      ensures Level2(o, firstReleaseText, old(State())) == (done, State())
    {
      if "taskVersionCurrent" in o.tasks {
        stdout := stdout + CurrentVersionText(last, firstReleaseText);
        return Flag(true);
      }
      if "taskRevert" in o.tasks {
        files := files + [AddEdit(o.changelogFile)];
        return Flag(true);
      }
      if "taskCommit" in o.tasks || "taskTag" in o.tasks {
        var bad := TagVersionCheck(o.taskTagVersion, last.versionInfo.system);
        if bad.Some? {
          return Message(bad.value);
        }
        next := next.(version := Or(Given(o.taskTagVersion), Given(last.versionInfo.version)));
        next := next.(tag := Some(LastRelease.RenderTag(o.tagFormat, if next.version.Some? then next.version.value else "")));
        files := files + [AddEdit(o.changelogFile)];
        return Flag(true);
      }
      if "taskBuild" in o.tasks {
        if |o.buildCommand| > 0 {
          next := next.(version := Or(last.version, Given(last.versionInfo.version)));
        }
        return Flag(true);
      }
      done := Flag(false);
    }

    method CheckRelevantCommits(o: Options) returns (r: RunResult)
      modifies this
      ensures RelevantCommits(o, old(State())) == Step(r, State())
    {
      r := Proceeds;
      if !Truthy(next.level) && !NeedNoCommits(o) && !o.tests {
        if !TasksCanPass(o) && !o.versionForceCurrent && o.versionForceNext == "" && !o.forceRelease {
          if "taskVersionNext" in o.tasks {
            if last.version.None? {
              return Crashed(WriteRejected("undefined"));
            }
            stdout := stdout + last.version.value;
            return Ended(Flag(true));
          } else if "taskVersionInfo" in o.tasks {
            stdout := stdout + JsText(last.version) + "|" + JsText(last.version) + "|none";
            return Ended(Flag(true));
          }
          r := Ended(Flag(false));
        }
      }
    }

    method NextVersion(o: Options, inp: Inputs) returns (r: RunResult)
      modifies this
      ensures Chosen(o, inp, old(State())) == Step(r, State())
    {
      if !o.versionForceCurrent && o.versionForceNext == "" && !NeedNoCommits(o) {
        r := ComputeVersion(o, inp);
      } else {
        r := ForceVersion(o);
      }
    }

    method ComputeVersion(o: Options, inp: Inputs) returns (r: RunResult)
      modifies this
      ensures Computed(o, inp, old(State())) == Step(r, State())
    {
      next := next.(versionInfo := inp.next);
      next := next.(version := Given(next.versionInfo.version));
      var ahead := FirstReleaseAhead(inp, State(), next.version);
      if ahead.Err? {
        return Crashed(ahead.msg);
      }
      if o.promptVersion == "Y" || (o.noCi && ahead.value) {
        next := next.(version := Some(inp.prompted));
        if inp.prompted == "" {
          return Ended(Flag(false));
        }
      } else if ahead.value {
        return Ended(Flag(false));
      }
      r := Proceeds;
    }

    method ForceVersion(o: Options) returns (r: RunResult)
      modifies this
      ensures Forced(o, old(State())) == Step(r, State())
    {
      if o.versionForceCurrent && firstRelease {
        return Ended(Flag(false));
      }
      if o.versionForceNext != "" {
        next := next.(versionInfo := last.versionInfo);
        next := next.(version := Some(o.versionForceNext));
        var valid := Utils.ValidateVersion(o.versionForceNext, next.versionInfo.system,
                                           if last.version.Some? then last.version.value else "");
        if valid.Err? {
          return Crashed(valid.msg);
        }
        if !valid.value {
          return Ended(Flag(false));
        }
      } else {
        next := next.(versionInfo := last.versionInfo);
        next := next.(version := last.version);
      }
      r := Proceeds;
    }

    method ProcessTasksLevel3(o: Options, inp: Inputs) returns (done: Result<TaskResult>)
      modifies this
      ensures Level3(o, inp, old(State())) == (done, State())
    {
      if "taskVersionNext" in o.tasks {
        if next.version.None? {
          return Err(WriteRejected("undefined"));
        }
        stdout := stdout + next.version.value;
        return Ok(Flag(true));
      }
      if "taskVersionInfo" in o.tasks {
        stdout := stdout + (JsText(last.version) + "|" + JsText(next.version) + "|" + JsText(next.level));
        return Ok(Flag(true));
      }
      if "taskCiEnvSet" in o.tasks {
        var content := JsText(last.version) + EOL + JsText(next.version) + EOL;
        if o.changelogFile != "" {
          content := content + (o.changelogFile + EOL);
        }
        files := files + [WriteFile("ap.env", content)];
        return Ok(Flag(true));
      }
      if "taskCiEnvInfo" in o.tasks {
        if o.changelogFile != "" {
          stdout := stdout + (JsText(last.version) + "|" + JsText(next.version) + "|" + o.changelogFile);
        } else {
          stdout := stdout + (JsText(last.version) + "|" + JsText(next.version));
        }
        return Ok(Flag(true));
      }
      if "taskReleaseLevel" in o.tasks {
        stdout := stdout + (if next.level.Some? then next.level.value else "none");
        return Ok(Flag(true));
      }
      if "taskChangelogHdrPrint" in o.tasks {
        stdout := stdout + (if inp.latestHeader.Some? then inp.latestHeader.value else "Error");
        return Ok(Flag(true));
      }
      done := Ok(Flag(false));
    }
  }
}
