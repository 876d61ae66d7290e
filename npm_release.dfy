/** `src/lib/releases/npm.ts`: the npm release. Before a release,
    `setPackageJson` overrides the repository, homepage and bugs fields of
    `package.json` with the configured ones and renames a scoped package
    under the configured scope, remembering each value it replaced in
    module-level defaults; after the release `restorePackageJson` writes
    those defaults back. `doNpmRelease` packs the tarball and publishes it.
    Reading and writing the JSON files, `npm` itself and the version control
    revert are not part of this model: the files are values given to and
    returned by the operations. */
module NpmRelease {
  import opened Wrappers
  import opened Text
  import Paths

  // ---------------------------------------------------------------------
  // Data
  // ---------------------------------------------------------------------

  /** The `repository` object of `package.json`. Empty text stands for an
      absent field. */
  datatype Repository = Repository(url: string, kind: string)

  /** The JSON value of the `bugs.email` field: the text `package.json`
      gives (empty when absent), or a list of recipients, which is what the
      validated `testEmailRecip` option is. */
  datatype Email = EmailText(text: string) | EmailList(items: seq<string>)

  const NoEmail := EmailText("")

  /** The field is truthy: any list, or text that is not empty. */
  predicate EmailSet(e: Email)
  {
    e.EmailList? || e.text != ""
  }

  /** The `bugs` object of `package.json`. */
  datatype Bugs = Bugs(url: string, email: Email)

  /** The fields of `package.json` the release touches. */
  datatype PackageJson = PackageJson(name: string, repository: Option<Repository>, homepage: string, bugs: Option<Bugs>)

  /** The `package.json` found, and the `name` of the `package-lock.json`
      beside it when that file exists. */
  datatype PackageFiles = PackageFiles(json: PackageJson, lockName: Option<string>)

  /** The options the npm release reads, as validation leaves them; empty
      text is an unset option, and `testEmailRecip`, a list option, is a
      list of recipients or unset. */
  datatype NpmOptions = NpmOptions(
    taskMode: bool, taskNpmRelease: bool, taskNpmJsonUpdate: bool, taskNpmJsonRestore: bool, taskVersionUpdate: bool,
    repo: string, repoType: string, homePage: string, bugs: string, testEmailRecip: Option<seq<string>>, npmScope: string)

  /** The module-level `default*` variables, as one value. */
  datatype Defaults = Defaults(bugs: string, bugsEmail: Email, homePage: string, name: string,
                               repo: string, repoType: string, scope: string, nameWoScope: string)

  /** The variables before anything has been set. */
  const Unset := Defaults("", NoEmail, "", "", "", "", "", "")

  function RepoUrl(p: PackageJson): string { if p.repository.Some? then p.repository.value.url else "" }
  function RepoKind(p: PackageJson): string { if p.repository.Some? then p.repository.value.kind else "" }
  function BugsUrl(p: PackageJson): string { if p.bugs.Some? then p.bugs.value.url else "" }
  function BugsEmail(p: PackageJson): Email { if p.bugs.Some? then p.bugs.value.email else NoEmail }

  /** A field is overridden when the option is set, the field exists and
      the two differ. */
  predicate Overrides(option: string, current: string)
  {
    option != "" && current != "" && option != current
  }

  /** The bugs email is overridden when the option is set and the field is:
      a list is never identical to the field's value, so the two always
      differ. */
  predicate EmailOverrides(option: Option<seq<string>>, current: Email)
  {
    option.Some? && EmailSet(current)
  }

  /** In task mode, only the npm release, json update and version update
      tasks set the package fields. */
  predicate SetSkipped(o: NpmOptions)
  {
    o.taskMode && !o.taskNpmRelease && !o.taskNpmJsonUpdate && !o.taskVersionUpdate
  }

  /** In task mode, only the npm release, json restore and version update
      tasks restore them. */
  predicate RestoreSkipped(o: NpmOptions)
  {
    o.taskMode && !o.taskNpmRelease && !o.taskNpmJsonRestore && !o.taskVersionUpdate
  }

  // ---------------------------------------------------------------------
  // Scope and name
  // ---------------------------------------------------------------------

  /** A name `@scope/rest` splits at its first `/` into the scope and the
      name without it; any other name has no scope and is its own name
      without scope. */
  function SplitScope(name: string): (r: (Option<string>, string))
    ensures r.0.Some? <==> StartsWith(name, "@") && Contains(name, "/")
    ensures r.0.Some? ==> name == r.0.value + "/" + r.1 && NoChar(r.0.value, '/') && StartsWith(r.0.value, "@")
    ensures r.0.None? ==> r.1 == name
  {
    if StartsWith(name, "@") && Contains(name, "/") then
      var i := IndexOf(name, "/");
      CharIndex(name, '/');
      assert name == name[..i] + "/" + name[i + 1..];
      assert name[..i][..1] == name[..1];
      (Some(name[..i]), name[i + 1..])
    else
      (None, name)
  }

  /** The split of a scoped name. */
  lemma SplitScoped(s: string, rest: string)
    requires NoChar(s, '/')
    ensures SplitScope("@" + s + "/" + rest) == (Some("@" + s), rest)
  {
    var name := "@" + s + "/" + rest;
    assert NoChar("@" + s, '/');
    FirstCharAfter("@" + s, '/', rest);
    assert name[..1] == "@";
    assert OccursAt(name, "/", |s| + 1);
  }

  /** The scoped name a package takes under `npmScope`. */
  predicate Renames(npmScope: string, scope: string, nameWoScope: string, name: string)
  {
    npmScope != "" && scope != "" && nameWoScope != "" && !Contains(name, npmScope)
  }

  /** The new name contains the scope the old one lacked, so a rename
      always changes the name. */
  lemma RenameChanges(npmScope: string, nameWoScope: string, name: string)
    requires !Contains(name, npmScope)
    ensures npmScope + "/" + nameWoScope != name
  {
    var n := npmScope + "/" + nameWoScope;
    assert OccursAt(n, npmScope, 0);
  }

  // ---------------------------------------------------------------------
  // setPackageJson
  // ---------------------------------------------------------------------

  /** What `setPackageJson` did: whether anything changed (and so the
      files were written and recorded as edited), the defaults afterwards,
      and the files as they now are. */
  datatype SetOutcome = SetOutcome(modified: bool, defaults: Defaults, files: Option<PackageFiles>)

  /** The five field overrides, each saving the value it replaces. */
  function Override(d: Defaults, o: NpmOptions, p: PackageJson): (r: (Defaults, PackageJson))
    ensures r.1.name == p.name
    ensures r.1.repository.Some? <==> p.repository.Some?
    ensures r.1.bugs.Some? <==> p.bugs.Some?
    ensures RepoUrl(r.1) == (if Overrides(o.repo, RepoUrl(p)) then o.repo else RepoUrl(p))
    ensures RepoKind(r.1) == (if Overrides(o.repoType, RepoKind(p)) then o.repoType else RepoKind(p))
    ensures r.1.homepage == (if Overrides(o.homePage, p.homepage) then o.homePage else p.homepage)
    ensures BugsUrl(r.1) == (if Overrides(o.bugs, BugsUrl(p)) then o.bugs else BugsUrl(p))
    ensures BugsEmail(r.1) == (if EmailOverrides(o.testEmailRecip, BugsEmail(p)) then EmailList(o.testEmailRecip.value) else BugsEmail(p))
    ensures r.0.repo == (if Overrides(o.repo, RepoUrl(p)) then RepoUrl(p) else d.repo)
    ensures r.0.repoType == (if Overrides(o.repoType, RepoKind(p)) then RepoKind(p) else d.repoType)
    ensures r.0.homePage == (if Overrides(o.homePage, p.homepage) then p.homepage else d.homePage)
    ensures r.0.bugs == (if Overrides(o.bugs, BugsUrl(p)) then BugsUrl(p) else d.bugs)
    ensures r.0.bugsEmail == (if EmailOverrides(o.testEmailRecip, BugsEmail(p)) then BugsEmail(p) else d.bugsEmail)
    ensures r.0.name == d.name && r.0.scope == d.scope && r.0.nameWoScope == d.nameWoScope
  {
    var url := if Overrides(o.repo, RepoUrl(p)) then o.repo else RepoUrl(p);
    var kind := if Overrides(o.repoType, RepoKind(p)) then o.repoType else RepoKind(p);
    var bugsUrl := if Overrides(o.bugs, BugsUrl(p)) then o.bugs else BugsUrl(p);
    var email := if EmailOverrides(o.testEmailRecip, BugsEmail(p)) then EmailList(o.testEmailRecip.value) else BugsEmail(p);
    (d.(repo := if Overrides(o.repo, RepoUrl(p)) then RepoUrl(p) else d.repo,
        repoType := if Overrides(o.repoType, RepoKind(p)) then RepoKind(p) else d.repoType,
        homePage := if Overrides(o.homePage, p.homepage) then p.homepage else d.homePage,
        bugs := if Overrides(o.bugs, BugsUrl(p)) then BugsUrl(p) else d.bugs,
        bugsEmail := if EmailOverrides(o.testEmailRecip, BugsEmail(p)) then BugsEmail(p) else d.bugsEmail),
     p.(repository := if p.repository.Some? then Some(Repository(url, kind)) else None,
        homepage := if Overrides(o.homePage, p.homepage) then o.homePage else p.homepage,
        bugs := if p.bugs.Some? then Some(Bugs(bugsUrl, email)) else None))
  }

  /** Whether any of the five overrides applies. */
  predicate AnyOverride(o: NpmOptions, p: PackageJson)
  {
    Overrides(o.repo, RepoUrl(p)) || Overrides(o.repoType, RepoKind(p)) || Overrides(o.homePage, p.homepage) ||
    Overrides(o.bugs, BugsUrl(p)) || EmailOverrides(o.testEmailRecip, BugsEmail(p))
  }

  /** `setPackageJson`. Skipped in task mode without a task that needs it,
      without a `package.json`, or for a package without a name; otherwise
      the overrides, then the scope split (a scope found earlier is kept
      when the name has none), then the rename under `npmScope`, of the
      lock file too. */
  function SetPackage(d: Defaults, o: NpmOptions, file: Option<PackageFiles>): (r: SetOutcome)
    ensures SetSkipped(o) || file.None? || file.value.json.name == "" ==> r == SetOutcome(false, d, file)
  {
    if SetSkipped(o) || file.None? || file.value.json.name == "" then SetOutcome(false, d, file)
    else
      var p := file.value.json;
      var (d1, p1) := Override(d, o, p);
      var (scope, woScope) := SplitScope(p.name);
      var d2 := d1.(name := p.name, scope := if scope.Some? then scope.value else d1.scope, nameWoScope := woScope);
      if Renames(o.npmScope, d2.scope, d2.nameWoScope, p.name) then
        var name := o.npmScope + "/" + d2.nameWoScope;
        var lock := if file.value.lockName.Some? then Some(name) else None;
        SetOutcome(true, d2, Some(PackageFiles(p1.(name := name), lock)))
      else
        SetOutcome(AnyOverride(o, p), d2, Some(PackageFiles(p1, file.value.lockName)))
  }

  /** The option's list is written over a field that already holds the
      same list. */
  predicate SameListRewritten(o: NpmOptions, p: PackageJson)
  {
    o.testEmailRecip.Some? && BugsEmail(p) == EmailList(o.testEmailRecip.value)
  }

  /** The files change exactly when `setPackageJson` reports a
      modification, which is when it writes them, except when all it
      rewrote is the bugs email list, over the same list. */
  lemma SetModifiedIffChanged(d: Defaults, o: NpmOptions, file: Option<PackageFiles>)
    ensures SetPackage(d, o, file).files != file ==> SetPackage(d, o, file).modified
    ensures SetPackage(d, o, file).modified && SetPackage(d, o, file).files == file ==>
              file.Some? && SameListRewritten(o, file.value.json)
  {
    var r := SetPackage(d, o, file);
    if !(SetSkipped(o) || file.None? || file.value.json.name == "") {
      var p := file.value.json;
      var (d1, p1) := Override(d, o, p);
      var (scope, woScope) := SplitScope(p.name);
      var sc := if scope.Some? then scope.value else d1.scope;
      if Renames(o.npmScope, sc, woScope, p.name) {
        RenameChanges(o.npmScope, woScope, p.name);
      } else if !AnyOverride(o, p) {
        assert p1.repository == p.repository && p1.bugs == p.bugs;
      } else if p1 == p {
        assert RepoUrl(p1) == RepoUrl(p) && RepoKind(p1) == RepoKind(p) && BugsUrl(p1) == BugsUrl(p) && BugsEmail(p1) == BugsEmail(p);
        assert EmailOverrides(o.testEmailRecip, BugsEmail(p));
      }
    }
  }

  /** The bugs email is overridden even when the option names the very
      address the package gives: the option is a list, and the package is
      written with that list, its own address saved. */
  lemma SameEmailOverridden(d: Defaults, o: NpmOptions, p: PackageJson, lock: Option<string>, email: string, url: string)
    requires !SetSkipped(o) && p.name != "" && email != ""
    requires p.bugs == Some(Bugs(url, EmailText(email))) && o.testEmailRecip == Some([email])
    ensures var r := SetPackage(d, o, Some(PackageFiles(p, lock)));
      r.modified && r.files.Some? && r.files.value.json.bugs == Some(Bugs(if Overrides(o.bugs, url) then o.bugs else url, EmailList([email]))) &&
      r.defaults.bugsEmail == EmailText(email)
  {
    var r := SetPackage(d, o, Some(PackageFiles(p, lock)));
    assert AnyOverride(o, p);
    var (d1, p1) := Override(d, o, p);
    assert BugsEmail(p1) == EmailList([email]);
    assert r.files.value.json.bugs == p1.bugs;
  }

  /** A package `@s/x` under the scope `@t`, which its name lacks, is
      renamed `@t/x`, lock file and all, and remembers its scope and
      original name. */
  lemma SetRenamesScoped(d: Defaults, o: NpmOptions, s: string, x: string, p: PackageJson, lock: Option<string>)
    requires !SetSkipped(o) && NoChar(s, '/') && x != "" && p.name == "@" + s + "/" + x
    requires o.npmScope != "" && !Contains(p.name, o.npmScope)
    ensures var r := SetPackage(d, o, Some(PackageFiles(p, lock)));
      r.modified && r.files.Some? && r.files.value.json.name == o.npmScope + "/" + x &&
      (r.files.value.lockName.Some? <==> lock.Some?) &&
      (lock.Some? ==> r.files.value.lockName == Some(o.npmScope + "/" + x)) &&
      r.defaults.scope == "@" + s && r.defaults.nameWoScope == x && r.defaults.name == p.name
  {
    SplitScoped(s, x);
  }

  // ---------------------------------------------------------------------
  // restorePackageJson
  // ---------------------------------------------------------------------

  /** What `restorePackageJson` did: nothing; handed `package.json` to the
      version control revert and set the version again (a restore task run
      without the defaults of an earlier set); wrote back the defaults,
      reporting whether it changed anything; or failed, setting a field of
      a `repository` or `bugs` object the package lacks. */
  datatype RestoreOutcome = Skipped | Reverted | Restored(modified: bool, files: PackageFiles) | Crashed(message: string)

  function SetUndefined(field: string): string
  {
    "TypeError: Cannot set properties of undefined (setting '" + field + "')"
  }

  /** Each saved default, when set, goes back into its field; the name
      goes back under the same scope condition as the rename. */
  function Restore(d: Defaults, o: NpmOptions, file: Option<PackageFiles>): (r: RestoreOutcome)
    ensures RestoreSkipped(o) || file.None? ==> r == Skipped
    ensures r.Crashed? ==> ((d.repo != "" || d.repoType != "") && file.value.json.repository.None?) ||
                           ((d.bugs != "" || EmailSet(d.bugsEmail)) && file.value.json.bugs.None?)
    ensures r.Restored? ==> r.files.json.name == (if NameRestored(d, o) then d.name else file.value.json.name)
  {
    if RestoreSkipped(o) || file.None? then Skipped
    else if o.taskNpmJsonRestore && d.name == "" then Reverted
    else
      var p := file.value.json;
      var crash := RestoreCrash(d, p);
      if crash.Some? then Crashed(crash.value)
      else
        var restoreName := NameRestored(d, o);
        var lock := if restoreName && file.value.lockName.Some? then Some(d.name) else file.value.lockName;
        var modified := d.repo != "" || d.repoType != "" || d.bugs != "" || EmailSet(d.bugsEmail) || d.homePage != "" || restoreName;
        Restored(modified, PackageFiles(RestoreFields(d, o, p), lock))
  }

  /** The first saved default whose object the package lacks, in the order
      the fields are restored. */
  function RestoreCrash(d: Defaults, p: PackageJson): Option<string>
  {
    if d.repo != "" && p.repository.None? then Some(SetUndefined("url"))
    else if d.repoType != "" && p.repository.None? then Some(SetUndefined("type"))
    else if d.bugs != "" && p.bugs.None? then Some(SetUndefined("url"))
    else if EmailSet(d.bugsEmail) && p.bugs.None? then Some(SetUndefined("email"))
    else None
  }

  /** Every saved default written back into its field. */
  function RestoreFields(d: Defaults, o: NpmOptions, p: PackageJson): PackageJson
  {
    var url := if d.repo != "" then d.repo else RepoUrl(p);
    var kind := if d.repoType != "" then d.repoType else RepoKind(p);
    var bugsUrl := if d.bugs != "" then d.bugs else BugsUrl(p);
    var email := if EmailSet(d.bugsEmail) then d.bugsEmail else BugsEmail(p);
    p.(name := if NameRestored(d, o) then d.name else p.name,
       repository := if p.repository.Some? then Some(Repository(url, kind)) else None,
       homepage := if d.homePage != "" then d.homePage else p.homepage,
       bugs := if p.bugs.Some? then Some(Bugs(bugsUrl, email)) else None)
  }

  predicate NameRestored(d: Defaults, o: NpmOptions)
  {
    d.name != "" && o.npmScope != "" && !Contains(d.name, o.npmScope)
  }

  /** Restoring after setting, from unset defaults, gives back the original
      `package.json`; the lock file's name becomes the package's original
      name whenever the name is restored. */
  lemma RestoreAfterSet(o: NpmOptions, p: PackageJson, lock: Option<string>)
    requires !SetSkipped(o) && !RestoreSkipped(o) && p.name != ""
    ensures var s := SetPackage(Unset, o, Some(PackageFiles(p, lock)));
      Restore(s.defaults, o, s.files) ==
        Restored(Restore(s.defaults, o, s.files).modified,
                 PackageFiles(p, if NameRestored(s.defaults, o) && lock.Some? then Some(p.name) else lock))
  {
    var s := SetPackage(Unset, o, Some(PackageFiles(p, lock)));
    SetSavesOriginals(o, p, lock);
    SetSavesName(o, p, lock);
    RestoredFields(s.defaults, o, s.files.value, p);
    var r := Restore(s.defaults, o, s.files);
    assert r.files.lockName == (if NameRestored(s.defaults, o) && lock.Some? then Some(p.name) else lock);
  }

  /** From unset defaults, each default `setPackageJson` saves is the
      original field, and a field without a saved default is unchanged. */
  lemma SetSavesOriginals(o: NpmOptions, p: PackageJson, lock: Option<string>)
    requires !SetSkipped(o) && p.name != ""
    ensures var s := SetPackage(Unset, o, Some(PackageFiles(p, lock)));
      var d := s.defaults;
      var f := s.files.value;
      s.files.Some? &&
      (f.json.repository.Some? <==> p.repository.Some?) && (f.json.bugs.Some? <==> p.bugs.Some?) &&
      (d.repo != "" ==> d.repo == RepoUrl(p) && p.repository.Some?) &&
      (d.repo == "" ==> RepoUrl(f.json) == RepoUrl(p)) &&
      (d.repoType != "" ==> d.repoType == RepoKind(p) && p.repository.Some?) &&
      (d.repoType == "" ==> RepoKind(f.json) == RepoKind(p)) &&
      (d.bugs != "" ==> d.bugs == BugsUrl(p) && p.bugs.Some?) &&
      (d.bugs == "" ==> BugsUrl(f.json) == BugsUrl(p)) &&
      (EmailSet(d.bugsEmail) ==> d.bugsEmail == BugsEmail(p) && p.bugs.Some?) &&
      (!EmailSet(d.bugsEmail) ==> BugsEmail(f.json) == BugsEmail(p)) &&
      (d.homePage != "" ==> d.homePage == p.homepage) &&
      (d.homePage == "" ==> f.json.homepage == p.homepage)
  {
    var s := SetPackage(Unset, o, Some(PackageFiles(p, lock)));
    var (d1, p1) := Override(Unset, o, p);
    var f := s.files.value;
    assert s.defaults.repo == d1.repo && s.defaults.repoType == d1.repoType && s.defaults.homePage == d1.homePage;
    assert s.defaults.bugs == d1.bugs && s.defaults.bugsEmail == d1.bugsEmail;
    assert f.json.repository == p1.repository && f.json.bugs == p1.bugs && f.json.homepage == p1.homepage;
  }

  /** `setPackageJson` remembers the original name, and changes the name
      and the lock file's name only when the restore will rename back. */
  lemma SetSavesName(o: NpmOptions, p: PackageJson, lock: Option<string>)
    requires !SetSkipped(o) && p.name != ""
    ensures var s := SetPackage(Unset, o, Some(PackageFiles(p, lock)));
      var d := s.defaults;
      var f := s.files.value;
      s.files.Some? && d.name == p.name &&
      (NameRestored(d, o) || f.json.name == p.name) &&
      (f.lockName.Some? <==> lock.Some?) && (!NameRestored(d, o) ==> f.lockName == lock)
  {
  }

  /** The field-by-field part of the round trip. */
  lemma RestoredFields(d: Defaults, o: NpmOptions, f: PackageFiles, p: PackageJson)
    requires !RestoreSkipped(o) && d.name == p.name && p.name != ""
    requires f.json.repository.Some? <==> p.repository.Some?
    requires f.json.bugs.Some? <==> p.bugs.Some?
    requires d.repo != "" ==> d.repo == RepoUrl(p) && p.repository.Some?
    requires d.repo == "" ==> RepoUrl(f.json) == RepoUrl(p)
    requires d.repoType != "" ==> d.repoType == RepoKind(p) && p.repository.Some?
    requires d.repoType == "" ==> RepoKind(f.json) == RepoKind(p)
    requires d.bugs != "" ==> d.bugs == BugsUrl(p) && p.bugs.Some?
    requires d.bugs == "" ==> BugsUrl(f.json) == BugsUrl(p)
    requires EmailSet(d.bugsEmail) ==> d.bugsEmail == BugsEmail(p) && p.bugs.Some?
    requires !EmailSet(d.bugsEmail) ==> BugsEmail(f.json) == BugsEmail(p)
    requires d.homePage != "" ==> d.homePage == p.homepage
    requires d.homePage == "" ==> f.json.homepage == p.homepage
    requires NameRestored(d, o) || f.json.name == p.name
    ensures Restore(d, o, Some(f)).Restored?
    ensures Restore(d, o, Some(f)).files.json == p
  {
  }

  // ---------------------------------------------------------------------
  // doNpmRelease
  // ---------------------------------------------------------------------

  /** The tarball `npm pack` leaves: `<scope>-<name>-<version>.tgz` with
      the scope's first character (its `@`) dropped, or
      `<name>-<version>.tgz` for a package without scope. */
  function TarballName(scope: string, nameWoScope: string, name: string, version: string): (r: string)
    ensures scope != "" ==> r == scope[1..] + "-" + nameWoScope + "-" + version + ".tgz"
    ensures scope == "" ==> r == name + "-" + version + ".tgz"
  {
    if scope != "" then
      var t := scope + "-" + nameWoScope + "-" + version + ".tgz";
      assert t == [scope[0]] + (scope[1..] + "-" + nameWoScope + "-" + version + ".tgz");
      t[1..]
    else name + "-" + version + ".tgz"
  }

  /** The scope `@s` gives `s-<name>-<version>.tgz`. */
  lemma TarballOfScope(s: string, nameWoScope: string, name: string, version: string)
    ensures TarballName("@" + s, nameWoScope, name, version) == s + "-" + nameWoScope + "-" + version + ".tgz"
  {
    assert ("@" + s)[1..] == s;
  }

  /** The file the tarball is moved to in the dist directory. */
  function PackedFileName(nameWoScope: string, configName: string): (r: string)
    ensures EndsWith(r, ".tgz") && StartsWith(r, nameWoScope)
  {
    if configName == "" then nameWoScope + ".tgz" else nameWoScope + "-" + configName + ".tgz"
  }

  /** The `npm publish` arguments. */
  function PublishArgs(npmRegistry: string, dryRun: bool): (r: seq<string>)
    ensures |r| >= 1 && r[0] == "publish"
    ensures |r| == 1 + (if npmRegistry != "" then 2 else 0) + (if dryRun then 1 else 0)
    ensures npmRegistry != "" ==> r[1] == "--registry" && r[2] == npmRegistry
    ensures dryRun ==> r[|r| - 1] == "--dry-run"
  {
    (["publish"] + (if npmRegistry != "" then ["--registry", npmRegistry] else []))
      + (if dryRun then ["--dry-run"] else [])
  }

  /** Moving the packed tarball into the dist directory: from, to, and
      whether the destination is recorded as edited (it is not when the
      directory was just created and recorded instead). */
  datatype PackMove = PackMove(tarball: string, destination: string, createDir: bool, recordDestination: bool)

  /** What `doNpmRelease` runs: nothing without a `package.json`; otherwise
      the optional pack-and-move, and the publish command. */
  datatype ReleasePlan = NoPackage | Publish(pack: Option<PackMove>, args: seq<string>)

  /** The options `doNpmRelease` reads. */
  datatype ReleaseOptions = ReleaseOptions(npmPackDist: string, distReleasePathSrc: string, configName: string,
                                           npmScope: string, npmRegistry: string, dryRun: bool)

  // ---------------------------------------------------------------------
  // The module state
  // ---------------------------------------------------------------------

  /** The module-level `default*` variables, which `setPackageJson` sets
      and `restorePackageJson` and `doNpmRelease` read. */
  class NpmState {
    var defaultBugs: string
    var defaultBugsEmail: Email
    var defaultHomePage: string
    var defaultName: string
    var defaultRepo: string
    var defaultRepoType: string
    var defaultScope: string
    var defaultNameWoScope: string

    function Snapshot(): Defaults
      reads this
    {
      Defaults(defaultBugs, defaultBugsEmail, defaultHomePage, defaultName,
               defaultRepo, defaultRepoType, defaultScope, defaultNameWoScope)
    }

    constructor()
      ensures Snapshot() == Unset
    {
      defaultBugs, defaultBugsEmail, defaultHomePage, defaultName := "", NoEmail, "", "";
      defaultRepo, defaultRepoType, defaultScope, defaultNameWoScope := "", "", "", "";
    }

    /** `setPackageJson`: the package object and the defaults updated
        field by field. */
    method SetPackageJson(o: NpmOptions, file: Option<PackageFiles>) returns (modified: bool, files: Option<PackageFiles>)
      modifies this
      ensures SetPackage(old(Snapshot()), o, file) == SetOutcome(modified, Snapshot(), files)
    {
      modified, files := false, file;
      if SetSkipped(o) || file.None? {
        return;
      }
      var packageJson := file.value.json;
      var lockName := file.value.lockName;
      if packageJson.name == "" {
        return;
      }
      packageJson, modified := OverrideFields(o, packageJson);
      defaultName := packageJson.name;
      if StartsWith(defaultName, "@") && Contains(defaultName, "/") {
        var i := IndexOf(defaultName, "/");
        defaultScope := defaultName[..i];
        defaultNameWoScope := defaultName[i + 1..];
      } else {
        defaultNameWoScope := defaultName;
      }
      if o.npmScope != "" && defaultScope != "" && defaultNameWoScope != "" {
        if !Contains(defaultName, o.npmScope) {
          var name := o.npmScope + "/" + defaultNameWoScope;
          packageJson := packageJson.(name := name);
          if lockName.Some? {
            lockName := Some(name);
          }
          modified := true;
        }
      }
      files := Some(PackageFiles(packageJson, lockName));
    }

    /** The five overrides of `setPackageJson`, one after the other. */
    method OverrideFields(o: NpmOptions, p: PackageJson) returns (packageJson: PackageJson, modified: bool)
      modifies this
      ensures Snapshot() == Override(old(Snapshot()), o, p).0
      ensures packageJson == Override(old(Snapshot()), o, p).1
      ensures modified == AnyOverride(o, p)
    {
      var c1, c2, c3, c4, c5;
      packageJson, c1 := OverrideRepoUrl(o, p);
      packageJson, c2 := OverrideRepoType(o, packageJson);
      packageJson, c3 := OverrideHomePage(o, packageJson);
      packageJson, c4 := OverrideBugsUrl(o, packageJson);
      packageJson, c5 := OverrideBugsEmail(o, packageJson);
      modified := c1 || c2 || c3 || c4 || c5;
    }

    method OverrideRepoUrl(o: NpmOptions, p: PackageJson) returns (q: PackageJson, changed: bool)
      modifies this
      ensures changed == Overrides(o.repo, RepoUrl(p))
      ensures Snapshot() == if changed then old(Snapshot()).(repo := RepoUrl(p)) else old(Snapshot())
      ensures q == if changed then p.(repository := Some(Repository(o.repo, RepoKind(p)))) else p
    {
      q, changed := p, false;
      if o.repo != "" && p.repository.Some? && p.repository.value.url != "" && o.repo != p.repository.value.url {
        defaultRepo := p.repository.value.url;
        q := p.(repository := Some(p.repository.value.(url := o.repo)));
        changed := true;
      }
    }

    method OverrideRepoType(o: NpmOptions, p: PackageJson) returns (q: PackageJson, changed: bool)
      modifies this
      ensures changed == Overrides(o.repoType, RepoKind(p))
      ensures Snapshot() == if changed then old(Snapshot()).(repoType := RepoKind(p)) else old(Snapshot())
      ensures q == if changed then p.(repository := Some(Repository(RepoUrl(p), o.repoType))) else p
    {
      q, changed := p, false;
      if o.repoType != "" && p.repository.Some? && p.repository.value.kind != "" && o.repoType != p.repository.value.kind {
        defaultRepoType := p.repository.value.kind;
        q := p.(repository := Some(p.repository.value.(kind := o.repoType)));
        changed := true;
      }
    }

    method OverrideHomePage(o: NpmOptions, p: PackageJson) returns (q: PackageJson, changed: bool)
      modifies this
      ensures changed == Overrides(o.homePage, p.homepage)
      ensures Snapshot() == if changed then old(Snapshot()).(homePage := p.homepage) else old(Snapshot())
      ensures q == if changed then p.(homepage := o.homePage) else p
    {
      q, changed := p, false;
      if o.homePage != "" && p.homepage != "" && o.homePage != p.homepage {
        defaultHomePage := p.homepage;
        q := p.(homepage := o.homePage);
        changed := true;
      }
    }

    method OverrideBugsUrl(o: NpmOptions, p: PackageJson) returns (q: PackageJson, changed: bool)
      modifies this
      ensures changed == Overrides(o.bugs, BugsUrl(p))
      ensures Snapshot() == if changed then old(Snapshot()).(bugs := BugsUrl(p)) else old(Snapshot())
      ensures q == if changed then p.(bugs := Some(Bugs(o.bugs, BugsEmail(p)))) else p
    {
      q, changed := p, false;
      if o.bugs != "" && p.bugs.Some? && p.bugs.value.url != "" && o.bugs != p.bugs.value.url {
        defaultBugs := p.bugs.value.url;
        q := p.(bugs := Some(p.bugs.value.(url := o.bugs)));
        changed := true;
      }
    }

    method OverrideBugsEmail(o: NpmOptions, p: PackageJson) returns (q: PackageJson, changed: bool)
      modifies this
      ensures changed == EmailOverrides(o.testEmailRecip, BugsEmail(p))
      ensures Snapshot() == if changed then old(Snapshot()).(bugsEmail := BugsEmail(p)) else old(Snapshot())
      ensures q == if changed then p.(bugs := Some(Bugs(BugsUrl(p), EmailList(o.testEmailRecip.value)))) else p
    {
      q, changed := p, false;
      if o.testEmailRecip.Some? && p.bugs.Some? && EmailSet(p.bugs.value.email) {
        defaultBugsEmail := p.bugs.value.email;
        q := p.(bugs := Some(p.bugs.value.(email := EmailList(o.testEmailRecip.value))));
        changed := true;
      }
    }

    /** `restorePackageJson`: reads the defaults and changes nothing of
        this state. */
    method RestorePackageJson(o: NpmOptions, file: Option<PackageFiles>) returns (r: RestoreOutcome)
      ensures r == Restore(Snapshot(), o, file)
    {
      if RestoreSkipped(o) || file.None? {
        return Skipped;
      }
      if o.taskNpmJsonRestore && defaultName == "" {
        return Reverted;
      }
      var packageJson := file.value.json;
      var lockName := file.value.lockName;
      var crash;
      packageJson, crash := RestoreRepository(packageJson);
      if crash.Some? {
        return Crashed(crash.value);
      }
      packageJson, crash := RestoreBugs(packageJson);
      if crash.Some? {
        return Crashed(crash.value);
      }
      assert RestoreCrash(Snapshot(), file.value.json).None?;
      var modified := defaultRepo != "" || defaultRepoType != "" || defaultBugs != "" || EmailSet(defaultBugsEmail);
      if defaultHomePage != "" {
        packageJson := packageJson.(homepage := defaultHomePage);
        modified := true;
      }
      if defaultName != "" && o.npmScope != "" && !Contains(defaultName, o.npmScope) {
        packageJson := packageJson.(name := defaultName);
        modified := true;
        if lockName.Some? {
          lockName := Some(defaultName);
        }
      }
      assert packageJson == RestoreFields(Snapshot(), o, file.value.json);
      r := Restored(modified, PackageFiles(packageJson, lockName));
    }

    /** The saved repository url and type written back; setting either on
        a package without a `repository` object throws. */
    method RestoreRepository(p: PackageJson) returns (q: PackageJson, crash: Option<string>)
      ensures crash == (if defaultRepo != "" && p.repository.None? then Some(SetUndefined("url"))
                        else if defaultRepoType != "" && p.repository.None? then Some(SetUndefined("type"))
                        else None)
      ensures crash.None? ==> q == p.(repository :=
        if p.repository.Some? then Some(Repository(if defaultRepo != "" then defaultRepo else RepoUrl(p),
                                                   if defaultRepoType != "" then defaultRepoType else RepoKind(p)))
        else None)
    {
      q, crash := p, None;
      if defaultRepo != "" {
        if q.repository.None? {
          return p, Some(SetUndefined("url"));
        }
        q := q.(repository := Some(q.repository.value.(url := defaultRepo)));
      }
      if defaultRepoType != "" {
        if q.repository.None? {
          return p, Some(SetUndefined("type"));
        }
        q := q.(repository := Some(q.repository.value.(kind := defaultRepoType)));
      }
    }

    /** The saved bugs url and email written back; setting either on a
        package without a `bugs` object throws. */
    method RestoreBugs(p: PackageJson) returns (q: PackageJson, crash: Option<string>)
      ensures crash == (if defaultBugs != "" && p.bugs.None? then Some(SetUndefined("url"))
                        else if EmailSet(defaultBugsEmail) && p.bugs.None? then Some(SetUndefined("email"))
                        else None)
      ensures crash.None? ==> q == p.(bugs :=
        if p.bugs.Some? then Some(Bugs(if defaultBugs != "" then defaultBugs else BugsUrl(p),
                                       if EmailSet(defaultBugsEmail) then defaultBugsEmail else BugsEmail(p)))
        else None)
    {
      q, crash := p, None;
      if defaultBugs != "" {
        if q.bugs.None? {
          return p, Some(SetUndefined("url"));
        }
        q := q.(bugs := Some(q.bugs.value.(url := defaultBugs)));
      }
      if EmailSet(defaultBugsEmail) {
        if q.bugs.None? {
          return p, Some(SetUndefined("email"));
        }
        q := q.(bugs := Some(q.bugs.value.(email := defaultBugsEmail)));
      }
    }

    /** `doNpmRelease`: packs and moves the tarball when `npmPackDist` is
        `Y` and the names were set, then publishes. */
    method DoNpmRelease(fileFound: bool, o: ReleaseOptions, distDirExists: bool, version: string) returns (plan: ReleasePlan)
      ensures !fileFound ==> plan == NoPackage
      ensures fileFound ==> plan.Publish? && plan.args == PublishArgs(o.npmRegistry, o.dryRun)
      ensures fileFound ==> (plan.pack.Some? <==> o.npmPackDist == "Y" && defaultName != "" && defaultNameWoScope != "")
      ensures plan.Publish? && plan.pack.Some? ==>
        plan.pack.value.tarball ==
          TarballName(if o.npmScope != "" then o.npmScope else defaultScope, defaultNameWoScope, defaultName, version) &&
        plan.pack.value.destination == Paths.Join(o.distReleasePathSrc, PackedFileName(defaultNameWoScope, o.configName)) &&
        plan.pack.value.createDir == !distDirExists && plan.pack.value.recordDestination == distDirExists
    {
      if !fileFound {
        return NoPackage;
      }
      var pack: Option<PackMove> := None;
      if o.npmPackDist == "Y" && defaultName != "" && defaultNameWoScope != "" {
        var doAddEdit := true;
        if !distDirExists {
          doAddEdit := false;
        }
        var destPackedFile := Paths.Join(o.distReleasePathSrc, PackedFileName(defaultNameWoScope, o.configName));
        var tmpPkgFile := TarballName(if o.npmScope != "" then o.npmScope else defaultScope, defaultNameWoScope, defaultName, version);
        pack := Some(PackMove(tmpPkgFile, destPackedFile, !distDirExists, doAddEdit));
      }
      plan := Publish(pack, PublishArgs(o.npmRegistry, o.dryRun));
    }
  }
}
