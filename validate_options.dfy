/** `validateOptions` (src/lib/validate-options.ts): the normalisation,
    defaulting and checking of the options object before a run. The
    options object is updated in place; the checks stop at the first
    failure with `false`, modelled as a rejection carrying the first
    error line logged, and an exception the function does not catch is a
    crash. Files and environment variables the function consults are
    parameters (`Env`). */
module ValidateOptions {
  import opened Wrappers
  import opened Text
  import Paths

  /** An option value. */
  datatype Value = Undefined | Str(s: string) | Strs(items: seq<string>) | Bool(b: bool) | Num(n: int)

  /** Options by name; a name missing from the map is `undefined`. */
  type OptionMap = map<string, Value>

  /** JavaScript truthiness of a value: every array is truthy. */
  predicate Truthy(v: Value)
  {
    match v
    case Undefined => false
    case Str(s) => s != ""
    case Strs(_) => true
    case Bool(b) => b
    case Num(n) => n != 0
  }

  /** `if (options.k)` for an option kept in a map. */
  predicate IsSet(m: OptionMap, k: string) { k in m && Truthy(m[k]) }

  /** `String(v)`. */
  function JsText(v: Value): string
  {
    match v
    case Undefined => "undefined"
    case Str(s) => s
    case Strs(items) => Join(items, ",")
    case Bool(b) => if b then "true" else "false"
    case Num(n) => IntToString(n)
  }

  /** The options object: the options this function reads or writes by
      name, the list options, and the task flags (every option whose
      name starts with `task`). */
  datatype Opts = Opts(
    repo: Value, repoType: Value, branch: Value, pathToRoot: Value, npmRegistry: Value,
    textEditor: Value, pathPreRoot: Value, pathToDist: Value, historyLineLen: Value,
    npmPackDist: Value, npmRelease: Value, distRelease: Value, githubRelease: Value, githubUser: Value,
    mantisBtPlugin: Value, mantisbtRelease: Value, cProjectRcFile: Value,
    skipDeployPush: Value, dryRunVcRevert: Value, writeLog: Value, promptVersion: Value, vcTag: Value,
    skipChangelogEdits: Value, skipVersionEdits: Value, dryRun: Value,
    vcTagPrefix: Value, versionText: Value, noCi: Value,
    lists: OptionMap, tasks: OptionMap)

  datatype Verdict = Accepted | Rejected(message: string) | Crashed(message: string)

  /** The verdict and the options object as the function leaves it; a
      stage that accepts hands its options to the next stage. */
  datatype Outcome = Outcome(verdict: Verdict, options: Opts)

  /** The `repository` object of `package.json`; an absent url or type is
      the empty string. */
  datatype PackageRepository = PackageRepository(url: string, kind: string)

  /** What the function reads outside the options object. */
  datatype Env = Env(packageJson: bool,                 // package.json exists in cwd
                     repository: Option<PackageRepository>,
                     pathExists: string -> bool,        // relative to cwd
                     path: Option<string>,              // the `Path` environment variable
                     githubToken: bool)                 // GITHUB_TOKEN is set

  function ReadUndefined(field: string): string
  {
    "TypeError: Cannot read properties of undefined (reading '" + field + "')"
  }

  function NotAFunction(key: string, member: string): string
  {
    "TypeError: options." + key + "." + member + " is not a function"
  }

  // ---------------------------------------------------------------------
  // List options given as one string; root path and registry defaults
  // ---------------------------------------------------------------------

  /** The options that hold lists, in the order they are converted. */
  const ListOptions: seq<string> := [
    "deployCommand", "buildCommand", "postBuildCommand", "preBuildCommand", "postReleaseCommand",
    "postCommitCommand", "preCommitCommand", "distReleasePreCommand", "distReleasePostCommand",
    "githubAssets", "githubReleasePreCommand", "githubReleasePostCommand", "mantisbtUrl",
    "mantisbtApiToken", "mantisbtAssets", "mantisbtReleasePreCommand", "mantisbtReleasePostCommand",
    "npmReleasePreCommand", "npmReleasePostCommand", "versionFiles", "versionFilesEditAlways",
    "versionFilesScrollDown", "versionReplaceTags", "emailRecip", "testEmailRecip"]

  /** A non-empty string becomes a one-element list. */
  function AsList(v: Value): Value
  {
    if v.Str? && v.s != "" then Strs([v.s]) else v
  }

  /** The conversions of `keys`, one after the other. */
  function AsLists(m: OptionMap, keys: seq<string>): (r: OptionMap)
    ensures r.Keys == m.Keys
    decreases |keys|
  {
    if |keys| == 0 then m
    else
      var m1 := AsLists(m, keys[..|keys| - 1]);
      var k := keys[|keys| - 1];
      if k in m1 then m1[k := AsList(m1[k])] else m1
  }

  /** The conversions applied one after the other are the conversion of
      every listed name at once. */
  lemma {:induction false} AsListsPointwise(m: OptionMap, keys: seq<string>)
    ensures AsLists(m, keys) == map k | k in m :: if k in keys then AsList(m[k]) else m[k]
    decreases |keys|
  {
    if |keys| > 0 {
      var init := keys[..|keys| - 1];
      AsListsPointwise(m, init);
      forall k | k in keys ensures k in init || k == keys[|keys| - 1] {
        var i :| 0 <= i < |keys| && keys[i] == k;
        if i < |keys| - 1 { assert init[i] == k; }
      }
    }
  }

  /** Converting twice changes nothing more. */
  lemma AsListsIdempotent(m: OptionMap, keys: seq<string>)
    ensures AsLists(AsLists(m, keys), keys) == AsLists(m, keys)
  {
    AsListsPointwise(m, keys);
    AsListsPointwise(AsLists(m, keys), keys);
  }

  /** After the conversion no listed option holds a non-empty string, and
      a string `s` given for one has become `[s]`. */
  lemma AsListsConverts(m: OptionMap, keys: seq<string>, k: string)
    requires k in keys && k in m
    ensures k in AsLists(m, keys)
    ensures !(AsLists(m, keys)[k].Str? && AsLists(m, keys)[k].s != "")
    ensures m[k].Str? && m[k].s != "" ==> AsLists(m, keys)[k] == Strs([m[k].s])
  {
    AsListsPointwise(m, keys);
  }

  /** An option set to a falsy value takes the default. */
  function Default(v: Value, d: Value): (r: Value)
    ensures Truthy(d) ==> Truthy(r)
    ensures Truthy(v) ==> r == v
  {
    if Truthy(v) then v else d
  }

  /** The conversions, then the `pathToRoot` and `npmRegistry` defaults. */
  function Normalised(o: Opts): (r: Opts)
    ensures Truthy(r.pathToRoot) && Truthy(r.npmRegistry)
    ensures forall k | k in ListOptions && k in r.lists :: !(r.lists[k].Str? && r.lists[k].s != "")
  {
    forall k | k in ListOptions && k in o.lists ensures !(AsLists(o.lists, ListOptions)[k].Str? && AsLists(o.lists, ListOptions)[k].s != "") {
      AsListsConverts(o.lists, ListOptions, k);
    }
    o.(lists := AsLists(o.lists, ListOptions),
       pathToRoot := Default(o.pathToRoot, Str(".")),
       npmRegistry := Default(o.npmRegistry, Str("https://registry.npmjs.org")))
  }

  // ---------------------------------------------------------------------
  // Repository, repository type, branch
  // ---------------------------------------------------------------------

  /** Reading a missing `repo` and `repoType` from `package.json` (a
      package without a `repository` object throws). */
  function FromPackage(o: Opts, env: Env): (r: Outcome)
    ensures r.verdict.Accepted? && env.packageJson && env.repository.Some? && env.repository.value.url != "" ==> Truthy(r.options.repo)
    ensures r.verdict.Accepted? && env.packageJson && env.repository.Some? && env.repository.value.kind != "" ==> Truthy(r.options.repoType)
    ensures !env.packageJson ==> r == Outcome(Accepted, o)
    ensures !r.verdict.Rejected?
  {
    if !env.packageJson then Outcome(Accepted, o)
    else if !Truthy(o.repo) && env.repository.None? then Outcome(Crashed(ReadUndefined("url")), o)
    else
      var o1 := if Truthy(o.repo) then o else o.(repo := Str(env.repository.value.url));
      if !Truthy(o1.repoType) && env.repository.None? then Outcome(Crashed(ReadUndefined("type")), o1)
      else Outcome(Accepted, if Truthy(o1.repoType) then o1 else o1.(repoType := Str(env.repository.value.kind)))
  }

  /** `FromPackage` as written: the type read from `package.json` is
      stored in `repo`. */
  function FromPackageAsWritten(o: Opts, env: Env): (r: Outcome)
    ensures r.verdict == FromPackage(o, env).verdict
    ensures r.options.repoType == o.repoType
    ensures r.verdict.Accepted? && env.packageJson && !Truthy(o.repoType) ==>
      r.options.repo == Str(env.repository.value.kind)
  {
    if !env.packageJson then Outcome(Accepted, o)
    else if !Truthy(o.repo) && env.repository.None? then Outcome(Crashed(ReadUndefined("url")), o)
    else
      var o1 := if Truthy(o.repo) then o else o.(repo := Str(env.repository.value.url));
      if !Truthy(o1.repoType) && env.repository.None? then Outcome(Crashed(ReadUndefined("type")), o1)
      else Outcome(Accepted, if Truthy(o1.repoType) then o1 else o1.(repo := Str(env.repository.value.kind)))
  }

  const RepoMissing := "Repository must be specified on cmd line, package.json or publishrc"
  const RepoTypeMissing := "Repository type must be specified on cmd line, package.json or publishrc"
  const RepoTypeInvalid := "Invalid repository type, must be 'git' or 'svn'"

  function RepoCheck(o: Opts): (v: Verdict)
    ensures v.Accepted? <==> Truthy(o.repo) && (o.repoType == Str("git") || o.repoType == Str("svn"))
  {
    if !Truthy(o.repo) then Rejected(RepoMissing)
    else if !Truthy(o.repoType) then Rejected(RepoTypeMissing)
    else if o.repoType != Str("git") && o.repoType != Str("svn") then Rejected(RepoTypeInvalid)
    else Accepted
  }

  /** With `package.json` giving both url and type and neither option
      set, the type is lost as written, and the options are rejected for
      a missing type; the corrected reading accepts them. */
  lemma PackageTypeLost(o: Opts, env: Env)
    requires env.packageJson && env.repository.Some? && env.repository.value.url != ""
    requires env.repository.value.kind in {"git", "svn"}
    requires !Truthy(o.repo) && !Truthy(o.repoType)
    ensures RepoCheck(FromPackageAsWritten(o, env).options) == Rejected(RepoTypeMissing)
    ensures RepoCheck(FromPackage(o, env).options) == Accepted
  {
  }

  /** The default branch of each repository type. */
  function DefaultBranch(o: Opts): (r: Opts)
    ensures Truthy(r.branch)
    ensures !Truthy(o.branch) ==> r.branch == (if o.repoType == Str("git") then Str("main") else Str("trunk"))
    ensures r == o.(branch := r.branch)
  {
    if Truthy(o.branch) then o
    else if o.repoType == Str("git") then o.(branch := Str("main"))
    else o.(branch := Str("trunk"))
  }

  /** `repo + "/" + tail` with a doubled slash at the join collapsed. */
  function JoinUrl(repo: string, tail: string): (r: string)
    ensures EndsWith(r, tail) && StartsWith(r, repo)
  {
    if EndsWith(repo, "/") then repo + tail else repo + "/" + tail
  }

  /** The SVN repository path pointing at the branch: `trunk`, or
      `branches/<branch>`, by replacing the one it names or by appending. */
  function SvnPath(repo: string, branch: string): (r: string)
    ensures r != ""
    ensures branch == "trunk" && !Contains(repo, "trunk") ==> EndsWith(r, "trunk")
    ensures branch == "trunk" && Contains(repo, "trunk") ==> r == repo
    ensures branch != "trunk" && Contains(repo, "branches/") ==> r == repo
    ensures branch != "trunk" && !Contains(repo, "branches/") && !Contains(repo, "trunk") ==>
      StartsWith(r, repo) && EndsWith(r, "branches/" + branch)
  {
    if branch == "trunk" then
      if Contains(repo, "trunk") then repo
      else if Contains(repo, "branches/") then
        repo[..IndexOf(repo, "branches/")] + "trunk"
      else JoinUrl(repo, "trunk")
    else if Contains(repo, "branches/") then repo
    else if Contains(repo, "trunk") then ReplaceFirst(repo, "trunk", "branches/" + branch)
    else JoinUrl(repo, "branches/" + branch)
  }

  /** `SvnPath` as written: the first `//` of the joined path collapses. */
  function SvnPathAsWritten(repo: string, branch: string): (r: string)
    ensures Contains(repo, "branches/") || Contains(repo, "trunk") ==> r == SvnPath(repo, branch)
  {
    if branch == "trunk" then
      if Contains(repo, "trunk") then repo
      else if Contains(repo, "branches/") then
        repo[..IndexOf(repo, "branches/")] + "trunk"
      else ReplaceFirst(repo + "/" + branch, "//", "/")
    else if Contains(repo, "branches/") then repo
    else if Contains(repo, "trunk") then ReplaceFirst(repo, "trunk", "branches/" + branch)
    else ReplaceFirst(repo + "/branches/" + branch, "//", "/")
  }

  /** The first `//` of `a + "//" + b` is the one after `a` when `a` has
      no slash. */
  lemma FirstDoubleSlash(a: string, b: string)
    requires NoChar(a, '/')
    ensures ReplaceFirst(a + "//" + b, "//", "/") == a + "/" + b
  {
    var s := a + "//" + b;
    assert s[|a|..|a| + 2] == "//";
    assert OccursAt(s, "//", |a|);
    forall k | 0 <= k < |a| ensures !OccursAt(s, "//", k) {
      assert s[k] == a[k];
      if k + 2 <= |s| { assert s[k..k + 2][0] == s[k]; }
    }
    assert IndexOf(s, "//") == |a|;
    assert s[|a| + 2..] == b;
  }

  /** A `scheme://` URL loses a slash of its scheme separator as written;
      the corrected path keeps the URL and appends `/trunk`. */
  lemma SchemeSlashLost(scheme: string, rest: string, url: string)
    requires url == scheme + "://" + rest && NoChar(scheme, '/')
    requires !Contains(url, "trunk") && !Contains(url, "branches/") && !EndsWith(url, "/")
    ensures SvnPathAsWritten(url, "trunk") == scheme + ":/" + rest + "/trunk"
    ensures SvnPath(url, "trunk") == url + "/trunk"
  {
    var a := scheme + ":";
    assert NoChar(a, '/');
    var joined := url + "/" + "trunk";
    assert joined == a + "//" + (rest + "/trunk");
    FirstDoubleSlash(a, rest + "/trunk");
  }

  /** The SVN path rewrite, for an SVN repository. */
  function SvnRepo(o: Opts): (r: Outcome)
    ensures r.options == o.(repo := r.options.repo)
    ensures r.verdict.Accepted? && o.repoType == Str("svn") && o.repo.Str? ==>
      r.options.repo == Str(SvnPath(o.repo.s, JsText(o.branch)))
    ensures o.repoType != Str("svn") ==> r == Outcome(Accepted, o)
  {
    if o.repoType != Str("svn") then Outcome(Accepted, o)
    else if !o.repo.Str? then Outcome(Crashed(NotAFunction("repo", "includes")), o)
    else Outcome(Accepted, o.(repo := Str(SvnPath(o.repo.s, JsText(o.branch)))))
  }

  /** Repository from `package.json`, its checks, the default branch and
      the SVN path. */
  function RepositoryChecked(o: Opts, env: Env): (r: Outcome)
    ensures r.verdict.Accepted? ==>
      Truthy(r.options.repo) && Truthy(r.options.branch) && (r.options.repoType == Str("git") || r.options.repoType == Str("svn"))
    ensures r.verdict.Accepted? && !Truthy(FromPackage(o, env).options.branch) ==>
      r.options.branch == (if r.options.repoType == Str("git") then Str("main") else Str("trunk"))
  {
    var p := FromPackage(o, env);
    if !p.verdict.Accepted? then p
    else
      var v := RepoCheck(p.options);
      if !v.Accepted? then Outcome(v, p.options)
      else
        var d := DefaultBranch(p.options);
        SvnRepo(d)
  }

  // ---------------------------------------------------------------------
  // Editor, version control directory, history, npm packing
  // ---------------------------------------------------------------------

  /** The directories of the `Path` variable, `;`-separated. The variable
      is looked up by its exact name in a plain object, so on a host whose
      environment calls it `PATH` it is absent. */
  function PathDirs(path: string): seq<string>
  {
    Split(path, ';')
  }

  /** `name`, or `name.exe`, exists in one of `dirs`. */
  predicate OnPath(dirs: seq<string>, name: string, env: Env)
  {
    exists i | 0 <= i < |dirs| :: env.pathExists(Paths.Join(dirs[i], name)) || env.pathExists(Paths.Join(dirs[i], name + ".exe"))
  }

  /** The editor needs looking for on the `Path`: it is neither `notepad`
      nor found as given. */
  predicate Searched(t: string, env: Env)
  {
    !StartsWith(ToLower(t), "notepad") && !env.pathExists(t)
  }

  /** The editor to use: the one given, trimmed, when it is `notepad` or
      can be found as given or on the `Path`, otherwise `notepad`; none when
      the search is reached without a `Path` variable to split, where the
      source throws. */
  function Editor(given: string, env: Env): (r: Option<string>)
    ensures r.None? <==> Searched(Trim(given), env) && env.path.None?
    ensures r.Some? ==> r.value == "notepad" || r.value == Trim(given)
    ensures !Searched(Trim(given), env) ==> r == Some(Trim(given))
    ensures env.path.Some? && OnPath(PathDirs(env.path.value), Trim(given), env) ==> r == Some(Trim(given))
    ensures r.Some? && r.value != Trim(given) ==> env.path.Some? && !OnPath(PathDirs(env.path.value), Trim(given), env)
  {
    var t := Trim(given);
    if !Searched(t, env) then Some(t)
    else if env.path.None? then None
    else if OnPath(PathDirs(env.path.value), t, env) then Some(t)
    else Some("notepad")
  }

  /** An editor given as a string is trimmed and resolved by `Editor`; the
      search without a `Path` variable throws, the trimmed editor already
      stored. */
  function TextEditor(o: Opts, env: Env): (r: Outcome)
    ensures r.options == o.(textEditor := r.options.textEditor)
    ensures r.verdict.Accepted? && Truthy(o.textEditor) ==> o.textEditor.Str? && Editor(o.textEditor.s, env).Some? && r.options.textEditor == Str(Editor(o.textEditor.s, env).value)
    ensures Truthy(o.textEditor) && o.textEditor.Str? && Editor(o.textEditor.s, env).None? ==>
              r == Outcome(Crashed(ReadUndefined("split")), o.(textEditor := Str(Trim(o.textEditor.s))))
    ensures r.verdict.Accepted? || r.verdict.Crashed?
    ensures !Truthy(o.textEditor) ==> r == Outcome(Accepted, o)
  {
    if !Truthy(o.textEditor) then Outcome(Accepted, o)
    else if !o.textEditor.Str? then Outcome(Crashed(NotAFunction("textEditor", "trim")), o)
    else
      var e := Editor(o.textEditor.s, env);
      if e.None? then Outcome(Crashed(ReadUndefined("split")), o.(textEditor := Str(Trim(o.textEditor.s))))
      else Outcome(Accepted, o.(textEditor := Str(e.value)))
  }

  const PackDistNeedsDist := "You must specify 'pathToDist' if 'npmPackDist' flag is set to Y"

  /** The version control directory must exist unless a pre-root path is
      given; the history line length defaults to 80; packing into the
      dist directory needs the dist path. */
  function EnvironmentChecked(o: Opts, env: Env): (r: Outcome)
    ensures r.options == o.(historyLineLen := r.options.historyLineLen)
    ensures r.verdict.Accepted? ==> Truthy(r.options.historyLineLen)
    ensures r.verdict.Accepted? ==> Truthy(o.pathPreRoot) || env.pathExists("." + JsText(o.repoType))
    ensures r.verdict.Accepted? && o.npmPackDist == Str("Y") ==> Truthy(o.pathToDist)
  {
    if !Truthy(o.pathPreRoot) && !env.pathExists("." + JsText(o.repoType)) then
      Outcome(Rejected("The ." + JsText(o.repoType) + " directory was not found"), o)
    else
      var o1 := o.(historyLineLen := Default(o.historyLineLen, Num(80)));
      if o1.npmPackDist == Str("Y") && !Truthy(o1.pathToDist) then Outcome(Rejected(PackDistNeedsDist), o1)
      else Outcome(Accepted, o1)
  }

  // ---------------------------------------------------------------------
  // Y/N options and the releases
  // ---------------------------------------------------------------------

  function InvalidYesNo(title: string): string
  {
    "Invalid value specified for " + title + ", accepted values are y/n/Y/N"
  }

  predicate IsYesNo(v: Value) { v == Str("Y") || v == Str("N") }

  /** A checked Y/N option: the verdict and the option's new value. */
  datatype Checked = Checked(verdict: Verdict, value: Value)

  /** A Y/N option, set to `Y` first when its task is run: upper-cased
      when set, and rejected unless `Y` or `N`. */
  function YesNo(v: Value, title: string, force: bool): (r: Checked)
    ensures r.verdict.Accepted? && Truthy(r.value) ==> IsYesNo(r.value)
    ensures r.verdict.Accepted? && force ==> r.value == Str("Y")
    ensures !Truthy(v) && !force ==> r == Checked(Accepted, v)
    ensures r.verdict.Rejected? ==> r.verdict.message == InvalidYesNo(title)
    ensures v.Str? && v.s != "" && !force ==> (r.verdict.Accepted? <==> v.s in {"y", "Y", "n", "N"})
  {
    var v1 := if force then Str("Y") else v;
    if !Truthy(v1) then Checked(Accepted, v1)
    else if !v1.Str? then Checked(Crashed(NotAFunction(title, "toUpperCase")), v1)
    else
      var u := ToUpper(v1.s);
      UpperYesNo(v1.s);
      if u != "Y" && u != "N" then Checked(Rejected(InvalidYesNo(title)), Str(u))
      else Checked(Accepted, Str(u))
  }

  /** Upper-casing gives `Y` or `N` exactly for `y`, `Y`, `n` and `N`. */
  lemma UpperYesNo(s: string)
    ensures ToUpper(s) == "Y" <==> s == "y" || s == "Y"
    ensures ToUpper(s) == "N" <==> s == "n" || s == "N"
  {
    if |s| == 1 {
      assert s == [s[0]];
      assert ToUpper(s) == [UpperChar(s[0])];
    }
  }

  /** Checking a Y/N option a second time accepts it and changes nothing. */
  lemma YesNoIdempotent(v: Value, title: string, force: bool)
    requires YesNo(v, title, force).verdict.Accepted?
    ensures YesNo(YesNo(v, title, force).value, title, false) == YesNo(v, title, force)
  {
    var r := YesNo(v, title, force).value;
    if Truthy(r) {
      UpperYesNo(r.s);
    }
  }

  /** `options.tasks[name]` is truthy. */
  predicate Task(o: Opts, name: string) { IsSet(o.tasks, name) }

  /** The npm, dist and GitHub release switches, each set to `Y` when
      its release task is run. */
  function ReleaseSwitches(o: Opts): (r: Outcome)
    ensures r.options == o.(npmRelease := r.options.npmRelease, distRelease := r.options.distRelease,
                            githubRelease := r.options.githubRelease)
    ensures r.verdict.Accepted? && Task(o, "taskNpmRelease") ==> r.options.npmRelease == Str("Y")
    ensures r.verdict.Accepted? && Task(o, "taskDistRelease") ==> r.options.distRelease == Str("Y")
    ensures r.verdict.Accepted? && Task(o, "taskGithubRelease") ==> r.options.githubRelease == Str("Y")
  {
    var a := YesNo(o.npmRelease, "npmRelease", Task(o, "taskNpmRelease"));
    var o1 := o.(npmRelease := a.value);
    if !a.verdict.Accepted? then Outcome(a.verdict, o1) else
    var b := YesNo(o.distRelease, "distRelease", Task(o, "taskDistRelease"));
    var o2 := o1.(distRelease := b.value);
    if !b.verdict.Accepted? then Outcome(b.verdict, o2) else
    var c := YesNo(o.githubRelease, "githubRelease", Task(o, "taskGithubRelease"));
    Outcome(c.verdict, o2.(githubRelease := c.value))
  }

  /** A GitHub release needs a user and a token. */
  function GithubCheck(o: Opts, env: Env): (v: Verdict)
    ensures v.Accepted? <==> o.githubRelease != Str("Y") || (Truthy(o.githubUser) && env.githubToken)
    ensures !v.Crashed?
  {
    if o.githubRelease != Str("Y") then Accepted
    else if !Truthy(o.githubUser) then Rejected("You must specify githubUser for a GitHub release type")
    else if !env.githubToken then Rejected("You must have GITHUB_TOKEN defined in the environment for a GitHub release type")
    else Accepted
  }

  /** The release switches, then the GitHub release's needs. */
  function ReleasesChecked(o: Opts, env: Env): (r: Outcome)
    ensures r.options == o.(npmRelease := r.options.npmRelease, distRelease := r.options.distRelease,
                            githubRelease := r.options.githubRelease)
    ensures r.verdict.Accepted? && Task(o, "taskGithubRelease") ==> Truthy(o.githubUser) && env.githubToken
  {
    var s := ReleaseSwitches(o);
    if !s.verdict.Accepted? then s else Outcome(GithubCheck(s.options, env), s.options)
  }

  /** `value.length`: of a string or a list, otherwise `undefined`. */
  function Length(v: Value): Option<nat>
  {
    match v
    case Str(s) => Some(|s|)
    case Strs(items) => Some(|items|)
    case _ => None
  }

  const MantisUrlMissing := "You must specify mantisbtUrl for a MantisBT release type"
  const MantisTokenMissing := "You must have MANTISBT_API_TOKEN defined for a MantisBT release type"
  const MantisCountMismatch := "You must specify the same number of MantisBT urls and API tokens"

  /** The option reads as `undefined`: it is missing, or present with
      that value. */
  predicate UndefinedAt(lists: OptionMap, k: string)
  {
    k !in lists || lists[k] == Undefined
  }

  /** A MantisBT release needs urls and as many API tokens; reading the
      length of an undefined url or token throws. */
  function MantisChecks(lists: OptionMap): (v: Verdict)
    ensures v.Accepted? ==>
      !UndefinedAt(lists, "mantisbtUrl") && !UndefinedAt(lists, "mantisbtApiToken") &&
      Length(lists["mantisbtUrl"]) == Length(lists["mantisbtApiToken"]) && Length(lists["mantisbtUrl"]) != Some(0)
    ensures v.Crashed? <==>
      UndefinedAt(lists, "mantisbtUrl") ||
      (Length(lists["mantisbtUrl"]) != Some(0) && UndefinedAt(lists, "mantisbtApiToken"))
    ensures v.Crashed? ==> v == Crashed(ReadUndefined("length"))
  {
    if UndefinedAt(lists, "mantisbtUrl") then Crashed(ReadUndefined("length"))
    else if Length(lists["mantisbtUrl"]) == Some(0) then Rejected(MantisUrlMissing)
    else if UndefinedAt(lists, "mantisbtApiToken") then Crashed(ReadUndefined("length"))
    else if Length(lists["mantisbtApiToken"]) == Some(0) then Rejected(MantisTokenMissing)
    else if Length(lists["mantisbtUrl"]) != Length(lists["mantisbtApiToken"]) then Rejected(MantisCountMismatch)
    else Accepted
  }

  /** A url or token present with the value `undefined` is checked exactly
      as a missing one. */
  lemma MantisUndefinedAsMissing(lists: OptionMap, k: string)
    requires k == "mantisbtUrl" || k == "mantisbtApiToken"
    ensures MantisChecks(lists[k := Undefined]) == MantisChecks(lists - {k})
  {
    var a, b := lists[k := Undefined], lists - {k};
    var other := if k == "mantisbtUrl" then "mantisbtApiToken" else "mantisbtUrl";
    assert UndefinedAt(a, k) && UndefinedAt(b, k);
    assert other in a <==> other in b;
    assert other in a ==> a[other] == b[other];
  }

  /** A MantisBT plugin must name an existing `.php` file. */
  function PluginCheck(plugin: Value, env: Env): (v: Verdict)
    ensures v.Accepted? && Truthy(plugin) ==> plugin.Str? && Contains(plugin.s, ".php") && env.pathExists(plugin.s)
  {
    if !Truthy(plugin) then Accepted
    else if !plugin.Str? then Crashed(NotAFunction("mantisBtPlugin", "includes"))
    else if !Contains(plugin.s, ".php") then Rejected("Invalid value for mantisbtPlugin, file must have a php extension")
    else if !env.pathExists(plugin.s) then Rejected("Invalid value for mantisbtPlugin, non-existent file specified")
    else Accepted
  }

  /** A C project's resource file must name an existing `.rc` file. */
  function RcFileCheck(rcFile: Value, env: Env): (v: Verdict)
    ensures v.Accepted? && Truthy(rcFile) ==> rcFile.Str? && Contains(rcFile.s, ".rc") && env.pathExists(rcFile.s)
  {
    if !Truthy(rcFile) then Accepted
    else if !rcFile.Str? then Crashed(NotAFunction("cProjectRcFile", "includes"))
    else if !Contains(rcFile.s, ".rc") then Rejected("Invalid value for cProjectRcFile, file must have an rc extension")
    else if !env.pathExists(rcFile.s) then Rejected("Invalid value for cProjectRcFile, non-existent file specified")
    else Accepted
  }

  /** `RcFileCheck` as written: strings have no `Contains` method. */
  function RcFileCheckAsWritten(rcFile: Value): (v: Verdict)
    ensures v.Accepted? <==> !Truthy(rcFile)
    ensures !v.Rejected?
  {
    if !Truthy(rcFile) then Accepted
    else Crashed(NotAFunction("cProjectRcFile", "Contains"))
  }

  /** As written, any resource file given, even a good one, throws. */
  lemma RcFileAlwaysThrows(s: string, env: Env)
    requires EndsWith(s, ".rc") && env.pathExists(s)
    ensures RcFileCheckAsWritten(Str(s)).Crashed?
    ensures RcFileCheck(Str(s), env) == Accepted
  {
    assert OccursAt(s, ".rc", |s| - 3);
  }

  /** The MantisBT plugin and release, and the resource file. */
  function MantisChecked(o: Opts, env: Env): (r: Outcome)
    ensures r.options == o.(mantisbtRelease := r.options.mantisbtRelease)
    ensures r.verdict.Accepted? && Task(o, "taskMantisbtRelease") ==> r.options.mantisbtRelease == Str("Y")
    ensures r.verdict.Accepted? && r.options.mantisbtRelease == Str("Y") ==> MantisChecks(o.lists).Accepted?
    ensures r.verdict.Accepted? ==> PluginCheck(o.mantisBtPlugin, env).Accepted? && RcFileCheck(o.cProjectRcFile, env).Accepted?
  {
    var p := PluginCheck(o.mantisBtPlugin, env);
    if !p.Accepted? then Outcome(p, o) else
    var a := YesNo(o.mantisbtRelease, "mantisbtRelease", Task(o, "taskMantisbtRelease"));
    var o1 := o.(mantisbtRelease := a.value);
    if !a.verdict.Accepted? then Outcome(a.verdict, o1) else
    var v := if a.value == Str("Y") then MantisChecks(o.lists) else Accepted;
    if !v.Accepted? then Outcome(v, o1)
    else Outcome(RcFileCheck(o.cProjectRcFile, env), o1)
  }

  /** The remaining Y/N switches. */
  function SwitchesChecked(o: Opts): (r: Outcome)
    ensures r.options == o.(skipDeployPush := r.options.skipDeployPush, dryRunVcRevert := r.options.dryRunVcRevert,
                            writeLog := r.options.writeLog, promptVersion := r.options.promptVersion, vcTag := r.options.vcTag)
    ensures r.verdict.Accepted? ==>
      (Truthy(r.options.skipDeployPush) ==> IsYesNo(r.options.skipDeployPush)) &&
      (Truthy(r.options.dryRunVcRevert) ==> IsYesNo(r.options.dryRunVcRevert)) &&
      (Truthy(r.options.writeLog) ==> IsYesNo(r.options.writeLog)) &&
      (Truthy(r.options.promptVersion) ==> IsYesNo(r.options.promptVersion)) &&
      (Truthy(r.options.vcTag) ==> IsYesNo(r.options.vcTag))
  {
    var a := YesNo(o.skipDeployPush, "skipDeployPush", false);
    var o1 := o.(skipDeployPush := a.value);
    if !a.verdict.Accepted? then Outcome(a.verdict, o1) else
    var b := YesNo(o.dryRunVcRevert, "testModeSvnRevert", false);
    var o2 := o1.(dryRunVcRevert := b.value);
    if !b.verdict.Accepted? then Outcome(b.verdict, o2) else
    var c := YesNo(o.writeLog, "writeLog", false);
    var o3 := o2.(writeLog := c.value);
    if !c.verdict.Accepted? then Outcome(c.verdict, o3) else
    var d := YesNo(o.promptVersion, "promptVersion", false);
    var o4 := o3.(promptVersion := d.value);
    if !d.verdict.Accepted? then Outcome(d.verdict, o4) else
    var e := YesNo(o.vcTag, "svnTag", false);
    Outcome(e.verdict, o4.(vcTag := e.value))
  }

  /** The edit-skipping switches, cleared on a dry run (the changelog one
      only outside task mode). */
  function EditsChecked(o: Opts): (r: Outcome)
    ensures r.options == o.(skipChangelogEdits := r.options.skipChangelogEdits, skipVersionEdits := r.options.skipVersionEdits)
    ensures r.verdict.Accepted? && Truthy(o.skipChangelogEdits) && o.dryRun == Bool(true) && !Task(o, "taskMode") ==>
      r.options.skipChangelogEdits == Str("N")
    ensures r.verdict.Accepted? && Truthy(o.skipVersionEdits) && o.dryRun == Bool(true) ==>
      r.options.skipVersionEdits == Str("N")
  {
    var a := YesNo(o.skipChangelogEdits, "skipChangelogEdits", false);
    var changelog := if a.verdict.Accepted? && Truthy(o.skipChangelogEdits) && o.dryRun == Bool(true) && !Task(o, "taskMode")
                     then Str("N") else a.value;
    var o1 := o.(skipChangelogEdits := changelog);
    if !a.verdict.Accepted? then Outcome(a.verdict, o1) else
    var b := YesNo(o.skipVersionEdits, "skipVersionEdits", false);
    var version := if b.verdict.Accepted? && Truthy(o.skipVersionEdits) && o.dryRun == Bool(true) then Str("N") else b.value;
    Outcome(b.verdict, o1.(skipVersionEdits := version))
  }

  // ---------------------------------------------------------------------
  // Dist path, tag defaults, CI and transitive task flags
  // ---------------------------------------------------------------------

  /** Outside CI-less runs the interactive edits are switched off. */
  function Ci(o: Opts): (r: Opts)
    ensures !Truthy(o.noCi) ==>
      r.skipChangelogEdits == Str("Y") && r.skipVersionEdits == Str("Y") && r.promptVersion == Str("N") &&
      r.lists == o.lists["versionFilesEditAlways" := Str("")]
    ensures Truthy(o.noCi) ==> r == o
  {
    if Truthy(o.noCi) then o
    else o.(skipChangelogEdits := Str("Y"), skipVersionEdits := Str("Y"),
            lists := o.lists["versionFilesEditAlways" := Str("")], promptVersion := Str("N"))
  }

  /** Tasks that imply other tasks, and tasks that skip changelog edits. */
  function Transitive(o: Opts): (r: Opts)
    ensures Task(o, "taskChangelogFile") ==> Task(r, "taskChangelog")
    ensures Task(o, "taskTouchVersionsCommit") ==> Task(r, "taskTouchVersions")
    ensures Task(r, "taskEmail") || Task(r, "taskTouchVersions") || Task(r, "taskMantisbtRelease") ==>
      r.skipChangelogEdits == Str("Y")
    ensures r == o.(tasks := r.tasks, skipChangelogEdits := r.skipChangelogEdits)
  {
    var t1 := if IsSet(o.tasks, "taskChangelogFile") then o.tasks["taskChangelog" := Bool(true)] else o.tasks;
    var t2 := if IsSet(t1, "taskTouchVersionsCommit") then t1["taskTouchVersions" := Bool(true)] else t1;
    var skip := if IsSet(t2, "taskEmail") || IsSet(t2, "taskTouchVersions") || IsSet(t2, "taskMantisbtRelease") then Str("Y")
                else o.skipChangelogEdits;
    o.(tasks := t2, skipChangelogEdits := skip)
  }

  /** A dist release needs the dist path; then the tag prefix and version
      label defaults, CI and the transitive task flags. */
  function Finished(o: Opts): (r: Outcome)
    ensures r.verdict.Accepted? ==> Truthy(r.options.vcTagPrefix) && Truthy(r.options.versionText)
    ensures r.verdict.Accepted? && o.distRelease == Str("Y") ==> Truthy(o.pathToDist)
    ensures r.verdict.Accepted? ==> r.options.distRelease == o.distRelease && r.options.repoType == o.repoType
    ensures r.verdict.Accepted? ==> r.options.branch == o.branch
  {
    if o.distRelease == Str("Y") && !Truthy(o.pathToDist) then Outcome(Rejected("pathToDist must be specified for dist release"), o)
    else
      var o1 := o.(vcTagPrefix := Default(o.vcTagPrefix, Str("v")), versionText := Default(o.versionText, Str("Version")));
      Outcome(Accepted, Transitive(Ci(o1)))
  }

  // ---------------------------------------------------------------------
  // Task combinations
  // ---------------------------------------------------------------------

  /** Two single-task options that cannot be run together. */
  predicate Conflicting(o: Opts)
  {
    (Task(o, "taskChangelog") && Task(o, "taskEmail")) || (Task(o, "taskChangelog") && Task(o, "taskTouchVersions")) ||
    (Task(o, "taskTouchVersions") && Task(o, "taskEmail")) || (Task(o, "taskMantisbtRelease") && Task(o, "taskEmail")) ||
    (Task(o, "taskMantisbtRelease") && Task(o, "taskTouchVersions")) || (Task(o, "taskMantisbtRelease") && Task(o, "taskChangelog")) ||
    (Task(o, "taskGithubRelease") && Task(o, "taskEmail")) || (Task(o, "taskGithubRelease") && Task(o, "taskTouchVersions")) ||
    (Task(o, "taskGithubRelease") && Task(o, "taskChangelog"))
  }

  /** The tasks that may run with a task writing to stdout. */
  const StdOutTasks: set<string> := {"taskVersionCurrent", "taskVersionNext", "taskVersionInfo", "taskCiEnvInfo",
                                     "taskVersionPreReleaseId", "taskMode", "taskModeStdOut"}

  /** The list as written names `taskCiEvInfo`, which is not an option. */
  function StdOutTasksAsWritten(): (r: set<string>)
    ensures "taskCiEnvInfo" !in r && "taskCiEnvInfo" in StdOutTasks
    ensures r - {"taskCiEvInfo"} == StdOutTasks - {"taskCiEnvInfo"}
  {
    {"taskVersionCurrent", "taskVersionNext", "taskVersionInfo", "taskCiEvInfo",
     "taskVersionPreReleaseId", "taskMode", "taskModeStdOut"}
  }

  /** A task option set to `true` that may not run with a stdout task. */
  predicate NotForStdOut(tasks: OptionMap, t: string, allowed: set<string>)
  {
    t in tasks && StartsWith(t, "task") && tasks[t] == Bool(true) && t !in allowed
  }

  predicate StdOutConflict(o: Opts, allowed: set<string>)
  {
    Task(o, "taskModeStdOut") && exists t | t in o.tasks :: NotForStdOut(o.tasks, t, allowed)
  }

  const TasksConflict := "Invalid options specified:"
  const StdOutTaskConflict := "The specified task cannot be used with a 'stdout' type task:"

  function TasksChecked(o: Opts): (v: Verdict)
    ensures v.Accepted? <==> !Conflicting(o) && !StdOutConflict(o, StdOutTasks)
    ensures !v.Crashed?
  {
    if Conflicting(o) then Rejected(TasksConflict)
    else if StdOutConflict(o, StdOutTasks) then Rejected(StdOutTaskConflict)
    else Accepted
  }

  /** As written, the CI environment task is refused beside a stdout
      task; the corrected list admits it. */
  lemma CiEnvInfoRefused(o: Opts)
    requires Task(o, "taskModeStdOut") && "taskCiEnvInfo" in o.tasks && o.tasks["taskCiEnvInfo"] == Bool(true)
    ensures StdOutConflict(o, StdOutTasksAsWritten())
    ensures !NotForStdOut(o.tasks, "taskCiEnvInfo", StdOutTasks)
  {
    assert StartsWith("taskCiEnvInfo", "task");
    assert NotForStdOut(o.tasks, "taskCiEnvInfo", StdOutTasksAsWritten());
  }

  // ---------------------------------------------------------------------
  // The whole function
  // ---------------------------------------------------------------------

  /** `validateOptions`: each stage in turn, stopping at the first that
      does not accept. Accepted options name a git or svn repository and
      carry a branch, a tag prefix and a version label, no conflicting
      tasks, and under a stdout task no other task. */
  function Validated(o: Opts, env: Env): (r: Outcome)
    ensures r.verdict.Accepted? ==>
      (r.options.repoType == Str("git") || r.options.repoType == Str("svn")) && Truthy(r.options.branch) &&
      Truthy(r.options.vcTagPrefix) && Truthy(r.options.versionText)
    ensures r.verdict.Accepted? ==> !Conflicting(r.options) && !StdOutConflict(r.options, StdOutTasks)
  {
    var a := RepositoryChecked(Normalised(o), env);
    if !a.verdict.Accepted? then a else
    var t := TextEditor(a.options, env);
    if !t.verdict.Accepted? then t else
    var b := EnvironmentChecked(t.options, env);
    if !b.verdict.Accepted? then b else
    var c := ReleasesChecked(b.options, env);
    if !c.verdict.Accepted? then c else
    var d := MantisChecked(c.options, env);
    if !d.verdict.Accepted? then d else
    var e := SwitchesChecked(d.options);
    if !e.verdict.Accepted? then e else
    var f := EditsChecked(e.options);
    if !f.verdict.Accepted? then f else
    var g := Finished(f.options);
    if !g.verdict.Accepted? then g else
    Outcome(TasksChecked(g.options), g.options)
  }

  // ---------------------------------------------------------------------
  // The options object
  // ---------------------------------------------------------------------

  /** The options object `validateOptions` updates in place. */
  class Options {
    var values: Opts

    constructor(o: Opts)
      ensures values == o
    {
      values := o;
    }

    /** `validateOptions`. */
    method Validate(env: Env) returns (v: Verdict)
      modifies this
      ensures Validated(old(values), env) == Outcome(v, values)
    {
      ConvertLists();
      values := values.(pathToRoot := Default(values.pathToRoot, Str(".")));
      values := values.(npmRegistry := Default(values.npmRegistry, Str("https://registry.npmjs.org")));
      v := CheckRepository(env);
      if !v.Accepted? { return; }
      v := ResolveEditor(env);
      if !v.Accepted? { return; }
      v := CheckEnvironment(env);
      if !v.Accepted? { return; }
      v := CheckReleases(env);
      if !v.Accepted? { return; }
      v := CheckMantis(env);
      if !v.Accepted? { return; }
      v := CheckSwitches();
      if !v.Accepted? { return; }
      v := CheckEdits();
      if !v.Accepted? { return; }
      v := Finish();
      if !v.Accepted? { return; }
      v := CheckTasks();
    }

    /** Every list option given as a non-empty string becomes a list. */
    method ConvertLists()
      modifies this
      ensures values == old(values).(lists := AsLists(old(values).lists, ListOptions))
    {
      for i := 0 to |ListOptions|
        invariant values == old(values).(lists := AsLists(old(values).lists, ListOptions[..i]))
      {
        var k := ListOptions[i];
        assert ListOptions[..i + 1][..i] == ListOptions[..i];
        if k in values.lists && values.lists[k].Str? && values.lists[k].s != "" {
          values := values.(lists := values.lists[k := Strs([values.lists[k].s])]);
        }
      }
      assert ListOptions[..|ListOptions|] == ListOptions;
    }

    method CheckRepository(env: Env) returns (v: Verdict)
      modifies this
      ensures RepositoryChecked(old(values), env) == Outcome(v, values)
    {
      if env.packageJson {
        if !Truthy(values.repo) {
          if env.repository.None? {
            return Crashed(ReadUndefined("url"));
          }
          values := values.(repo := Str(env.repository.value.url));
        }
        if !Truthy(values.repoType) {
          if env.repository.None? {
            return Crashed(ReadUndefined("type"));
          }
          values := values.(repoType := Str(env.repository.value.kind));
        }
      }
      if !Truthy(values.repo) {
        return Rejected(RepoMissing);
      } else if !Truthy(values.repoType) {
        return Rejected(RepoTypeMissing);
      } else if values.repoType != Str("git") && values.repoType != Str("svn") {
        return Rejected(RepoTypeInvalid);
      }
      if !Truthy(values.branch) {
        if values.repoType == Str("git") {
          values := values.(branch := Str("main"));
        } else {
          values := values.(branch := Str("trunk"));
        }
      }
      if values.repoType == Str("svn") {
        if !values.repo.Str? {
          return Crashed(NotAFunction("repo", "includes"));
        }
        values := values.(repo := Str(SvnPath(values.repo.s, JsText(values.branch))));
      }
      v := Accepted;
    }

    method ResolveEditor(env: Env) returns (v: Verdict)
      modifies this
      ensures TextEditor(old(values), env) == Outcome(v, values)
    {
      if Truthy(values.textEditor) {
        if !values.textEditor.Str? {
          return Crashed(NotAFunction("textEditor", "trim"));
        }
        var t := Trim(values.textEditor.s);
        values := values.(textEditor := Str(t));
        if !StartsWith(ToLower(t), "notepad") && !env.pathExists(t) {
          if env.path.None? {
            return Crashed(ReadUndefined("split"));
          }
          var found := SearchPath(PathDirs(env.path.value), t, env);
          if !found {
            values := values.(textEditor := Str("notepad"));
          }
        }
      }
      v := Accepted;
    }

    /** Looks for the editor in each directory of the `Path`, stopping at
        the first that holds it. */
    method SearchPath(dirs: seq<string>, name: string, env: Env) returns (found: bool)
      ensures found <==> OnPath(dirs, name, env)
    {
      for i := 0 to |dirs|
        invariant forall j | 0 <= j < i :: !env.pathExists(Paths.Join(dirs[j], name)) && !env.pathExists(Paths.Join(dirs[j], name + ".exe"))
      {
        if env.pathExists(Paths.Join(dirs[i], name)) {
          return true;
        }
        if env.pathExists(Paths.Join(dirs[i], name + ".exe")) {
          return true;
        }
      }
      found := false;
    }

    method CheckEnvironment(env: Env) returns (v: Verdict)
      modifies this
      ensures EnvironmentChecked(old(values), env) == Outcome(v, values)
    {
      if !Truthy(values.pathPreRoot) && !env.pathExists("." + JsText(values.repoType)) {
        return Rejected("The ." + JsText(values.repoType) + " directory was not found");
      }
      if !Truthy(values.historyLineLen) {
        values := values.(historyLineLen := Num(80));
      }
      if values.npmPackDist == Str("Y") && !Truthy(values.pathToDist) {
        return Rejected(PackDistNeedsDist);
      }
      v := Accepted;
    }

    /** One Y/N option; changes nothing of the object. */
    method CheckYesNo(given: Value, title: string, force: bool) returns (v: Verdict, value: Value)
      ensures YesNo(given, title, force) == Checked(v, value)
    {
      value := given;
      if force {
        value := Str("Y");
      }
      if Truthy(value) {
        if !value.Str? {
          return Crashed(NotAFunction(title, "toUpperCase")), value;
        }
        value := Str(ToUpper(value.s));
        if value != Str("Y") && value != Str("N") {
          return Rejected(InvalidYesNo(title)), value;
        }
      }
      v := Accepted;
    }

    method CheckReleases(env: Env) returns (v: Verdict)
      modifies this
      ensures ReleasesChecked(old(values), env) == Outcome(v, values)
    {
      v := CheckReleaseSwitches();
      if !v.Accepted? { return; }
      v := GithubCheck(values, env);
    }

    method CheckReleaseSwitches() returns (v: Verdict)
      modifies this
      ensures ReleaseSwitches(old(values)) == Outcome(v, values)
    {
      var value;
      v, value := CheckYesNo(values.npmRelease, "npmRelease", IsSet(values.tasks, "taskNpmRelease"));
      values := values.(npmRelease := value);
      if !v.Accepted? { return; }
      v, value := CheckYesNo(values.distRelease, "distRelease", IsSet(values.tasks, "taskDistRelease"));
      values := values.(distRelease := value);
      if !v.Accepted? { return; }
      v, value := CheckYesNo(values.githubRelease, "githubRelease", IsSet(values.tasks, "taskGithubRelease"));
      values := values.(githubRelease := value);
    }

    method CheckMantis(env: Env) returns (v: Verdict)
      modifies this
      ensures MantisChecked(old(values), env) == Outcome(v, values)
    {
      v := PluginCheck(values.mantisBtPlugin, env);
      if !v.Accepted? { return; }
      var value;
      v, value := CheckYesNo(values.mantisbtRelease, "mantisbtRelease", IsSet(values.tasks, "taskMantisbtRelease"));
      values := values.(mantisbtRelease := value);
      if !v.Accepted? { return; }
      if values.mantisbtRelease == Str("Y") {
        v := MantisChecks(values.lists);
        if !v.Accepted? { return; }
      }
      v := RcFileCheck(values.cProjectRcFile, env);
    }

    method CheckSwitches() returns (v: Verdict)
      modifies this
      ensures SwitchesChecked(old(values)) == Outcome(v, values)
    {
      var value;
      v, value := CheckYesNo(values.skipDeployPush, "skipDeployPush", false);
      values := values.(skipDeployPush := value);
      if !v.Accepted? { return; }
      v, value := CheckYesNo(values.dryRunVcRevert, "testModeSvnRevert", false);
      values := values.(dryRunVcRevert := value);
      if !v.Accepted? { return; }
      v, value := CheckYesNo(values.writeLog, "writeLog", false);
      values := values.(writeLog := value);
      if !v.Accepted? { return; }
      v, value := CheckYesNo(values.promptVersion, "promptVersion", false);
      values := values.(promptVersion := value);
      if !v.Accepted? { return; }
      v, value := CheckYesNo(values.vcTag, "svnTag", false);
      values := values.(vcTag := value);
    }

    method CheckEdits() returns (v: Verdict)
      modifies this
      ensures EditsChecked(old(values)) == Outcome(v, values)
    {
      var value;
      if Truthy(values.skipChangelogEdits) {
        v, value := CheckYesNo(values.skipChangelogEdits, "skipChangelogEdits", false);
        values := values.(skipChangelogEdits := value);
        if !v.Accepted? { return; }
        if values.dryRun == Bool(true) && !IsSet(values.tasks, "taskMode") {
          values := values.(skipChangelogEdits := Str("N"));
        }
      }
      if Truthy(values.skipVersionEdits) {
        v, value := CheckYesNo(values.skipVersionEdits, "skipVersionEdits", false);
        values := values.(skipVersionEdits := value);
        if !v.Accepted? { return; }
        if values.dryRun == Bool(true) {
          values := values.(skipVersionEdits := Str("N"));
        }
      }
      v := Accepted;
    }

    method Finish() returns (v: Verdict)
      modifies this
      ensures Finished(old(values)) == Outcome(v, values)
    {
      if values.distRelease == Str("Y") && !Truthy(values.pathToDist) {
        return Rejected("pathToDist must be specified for dist release");
      }
      if !Truthy(values.vcTagPrefix) {
        values := values.(vcTagPrefix := Str("v"));
      }
      if !Truthy(values.versionText) {
        values := values.(versionText := Str("Version"));
      }
      ApplyCi();
      ApplyTransitive();
      v := Accepted;
    }

    /** Outside CI-less runs, the switches CI runs need. */
    method ApplyCi()
      modifies this
      ensures values == Ci(old(values))
    {
      if !Truthy(values.noCi) {
        values := values.(skipChangelogEdits := Str("Y"));
        values := values.(skipVersionEdits := Str("Y"));
        values := values.(lists := values.lists["versionFilesEditAlways" := Str("")]);
        values := values.(promptVersion := Str("N"));
      }
    }

    /** The task flags other task flags imply. */
    method ApplyTransitive()
      modifies this
      ensures values == Transitive(old(values))
    {
      if IsSet(values.tasks, "taskChangelogFile") {
        values := values.(tasks := values.tasks["taskChangelog" := Bool(true)]);
      }
      if IsSet(values.tasks, "taskTouchVersionsCommit") {
        values := values.(tasks := values.tasks["taskTouchVersions" := Bool(true)]);
      }
      if IsSet(values.tasks, "taskEmail") || IsSet(values.tasks, "taskTouchVersions") || IsSet(values.tasks, "taskMantisbtRelease") {
        values := values.(skipChangelogEdits := Str("Y"));
      }
    }

    method CheckTasks() returns (v: Verdict)
      ensures v == TasksChecked(values)
    {
      if Conflicting(values) {
        return Rejected(TasksConflict);
      }
      if IsSet(values.tasks, "taskModeStdOut") {
        var ok := NoStdOutConflict();
        if !ok {
          return Rejected(StdOutTaskConflict);
        }
      }
      v := Accepted;
    }

    /** Looks at every task option for one that may not run under a
        stdout task. */
    method NoStdOutConflict() returns (ok: bool)
      ensures ok <==> !exists t | t in values.tasks :: NotForStdOut(values.tasks, t, StdOutTasks)
    {
      var rest := values.tasks.Keys;
      while rest != {}
        invariant rest <= values.tasks.Keys
        invariant forall t | t in values.tasks && t !in rest :: !NotForStdOut(values.tasks, t, StdOutTasks)
        decreases |rest|
      {
        var t :| t in rest;
        if NotForStdOut(values.tasks, t, StdOutTasks) {
          return false;
        }
        rest := rest - {t};
      }
      ok := true;
    }
  }
}
