/** `getNextVersion` of `src/lib/version/get-next-version.ts`: the next
    version from the last release, the release level and the pre-release
    identifier. Empty text stands for an absent (`undefined`) value. */
module NextVersion {
  import opened Wrappers
  import opened Text
  import opened JsNumber
  import Semver
  import Utils

  /** The fields of the run context that `getNextVersion` reads. */
  datatype Input = Input(
    level: string,              // nextRelease.level
    lastVersion: string,        // lastRelease.version
    localVersion: string,       // lastRelease.versionInfo.version
    system: string,             // lastRelease.versionInfo.system
    info: Option<seq<string>>,  // lastRelease.versionInfo.info
    lastProdVersion: string,    // lastRelease.lastProdVersion
    preReleaseId: string)       // options.versionPreReleaseId

  /** The result; a `None` version is the `null` that `inc` returns for a
      version or release type it cannot bump. */
  datatype VersionInfo = VersionInfo(version: Option<string>, info: Option<seq<string>>, system: string)

  /** The first-release constants `FIRST_RELEASE` and `FIRST_RELEASE_INC`,
      which are not part of this model. */
  datatype FirstRelease = FirstRelease(semver: string, incremental: string)

  /** The version to bump: the last release's, else the local files'. */
  function BaseVersion(inp: Input): string
  {
    if inp.lastVersion == "" && inp.localVersion != "" then inp.localVersion else inp.lastVersion
  }

  /** `(parseInt(last) + 1).toString()`: `"NaN"` when no number is read. */
  function IncrementalNext(last: string): (r: string)
    ensures ParseInt(last).Some? ==> ParseInt(r) == Some(ParseInt(last).value + 1)
    ensures ParseInt(last).None? ==> r == "NaN"
  {
    match ParseInt(last)
    case Some(n) =>
      ParseIntOfString(n + 1);
      IntToString(n + 1)
    case None => "NaN"
  }

  /** The next number after a plain number is its successor's text ... */
  lemma IncrementalNextOfNumber(n: nat)
    ensures IncrementalNext(NatToString(n)) == NatToString(n + 1)
  {
    DigitsOfNat(n);
    ParseIntOfDigits(NatToString(n));
  }

  /** ... and the result passes the incremental check against the last one. */
  lemma IncrementalNextValid(n: nat)
    ensures Utils.ValidateVersion(IncrementalNext(NatToString(n)), "incremental", NatToString(n)) == Ok(true)
  {
    IncrementalNextOfNumber(n);
    Utils.NextNumberPassesValidation(n);
  }

  /** The increment type with a pre-release identifier: `"pre" + level`,
      except that `prepatch` becomes `prerelease` when the last version is
      itself a pre-release. */
  function PreLevel(last: string, level: string): (r: string)
    ensures Semver.Prerelease(last).None? ==> r == "pre" + level
    ensures Semver.Prerelease(last).Some? ==> r == (if level == "patch" then "prerelease" else "pre" + level)
  {
    var lvl := "pre" + level;
    PrePatch(level);
    if Semver.Prerelease(last).Some? && lvl == "prepatch" then "prerelease" else lvl
  }

  lemma PrePatch(level: string)
    ensures "pre" + level == "prepatch" <==> level == "patch"
  {
    if "pre" + level == "prepatch" {
      assert level == ("pre" + level)[3..];
    }
  }

  /** The bound check shared by both readings: a candidate below the next
      production version is replaced by a plain `prerelease` bump; `rcompare`
      throws when either side is `null`. */
  function Bound(version: Option<string>, nextProd: Option<string>, last: string, id: string): (r: Result<Option<string>>)
    ensures r.Err? <==> (version.None? || nextProd.None? ||
      Semver.Parse(version.value).None? || Semver.Parse(nextProd.value).None?)
    ensures r.Ok? ==>
      var c := Semver.Cmp(Semver.Parse(nextProd.value).value, Semver.Parse(version.value).value);
      r.value == (if c > 0 then Semver.Inc(last, "prerelease", id) else version)
  {
    if version.None? || nextProd.None? then Err("TypeError: Invalid Version")
    else match Semver.RCompare(nextProd.value, version.value)
      case Err(m) => Err(m)
      case Ok(c) => Ok(if c < 0 then Semver.Inc(last, "prerelease", id) else version)
  }

  /** The semver branch as written: the bound check bumps the last
      production version by `lvl` with its first `"pre"` removed. */
  function SemverNextAsWritten(last: string, inp: Input): (r: Result<Option<string>>)
    ensures inp.preReleaseId == "" ==> r == Ok(Semver.Inc(last, inp.level, ""))
    ensures inp.preReleaseId != "" && Semver.Parse(inp.lastProdVersion).None? ==> r.Err?
  {
    if inp.preReleaseId == "" then Ok(Semver.Inc(last, inp.level, ""))
    else
      var lvl := PreLevel(last, inp.level);
      var version := Semver.Inc(last, lvl, inp.preReleaseId);
      Bound(version, Semver.Inc(inp.lastProdVersion, ReplaceFirst(lvl, "pre", ""), ""), last, inp.preReleaseId)
  }

  /** The semver branch with the bound check as evidently intended: the last
      production version is bumped by the release level itself, and without
      a production version there is nothing to bound. */
  function SemverNext(last: string, inp: Input): (r: Result<Option<string>>)
    ensures inp.preReleaseId == "" ==> r == Ok(Semver.Inc(last, inp.level, ""))
    ensures inp.preReleaseId != "" && inp.lastProdVersion == "" ==>
      r == Ok(Semver.Inc(last, PreLevel(last, inp.level), inp.preReleaseId))
  {
    if inp.preReleaseId == "" then Ok(Semver.Inc(last, inp.level, ""))
    else
      var version := Semver.Inc(last, PreLevel(last, inp.level), inp.preReleaseId);
      if inp.lastProdVersion == "" then Ok(version)
      else Bound(version, Semver.Inc(inp.lastProdVersion, inp.level, ""), last, inp.preReleaseId)
  }

  /** Assembling the result from the version, whichever reading is used. */
  function Assemble(inp: Input, fr: FirstRelease, semverNext: Result<Option<string>>): (r: Result<VersionInfo>)
  {
    var last := BaseVersion(inp);
    var version: Result<Option<string>> :=
      if last == "" then Ok(Some(if inp.system == "incremental" then fr.incremental else fr.semver))
      else if inp.system == "incremental" then Ok(Some(IncrementalNext(last)))
      else semverNext;
    match version
    case Err(m) => Err(m)
    case Ok(v) => Ok(VersionInfo(v, inp.info, inp.system))
  }

  /** `getNextVersion(context)` as written. */
  function GetNextVersionAsWritten(inp: Input, fr: FirstRelease): (r: Result<VersionInfo>)
    ensures r.Ok? ==> r.value.system == inp.system && r.value.info == inp.info
    ensures BaseVersion(inp) == "" || inp.system == "incremental" || inp.preReleaseId == "" ==>
      r == GetNextVersion(inp, fr)
  {
    Assemble(inp, fr, SemverNextAsWritten(BaseVersion(inp), inp))
  }

  /** `getNextVersion(context)` with the bound check corrected. */
  function GetNextVersion(inp: Input, fr: FirstRelease): (r: Result<VersionInfo>)
    ensures r.Ok? ==> r.value.system == inp.system && r.value.info == inp.info
    ensures BaseVersion(inp) == "" ==>
      r == Ok(VersionInfo(Some(if inp.system == "incremental" then fr.incremental else fr.semver), inp.info, inp.system))
    ensures BaseVersion(inp) != "" && inp.system == "incremental" ==>
      r == Ok(VersionInfo(Some(IncrementalNext(BaseVersion(inp))), inp.info, inp.system))
    ensures BaseVersion(inp) != "" && inp.system != "incremental" && inp.preReleaseId == "" ==>
      r == Ok(VersionInfo(Semver.Inc(BaseVersion(inp), inp.level, ""), inp.info, inp.system))
  {
    Assemble(inp, fr, SemverNext(BaseVersion(inp), inp))
  }

  /** Without a release tag the local version is the base: the result is
      the same as if the local version had been the last release's. */
  lemma LocalVersionIsBase(inp: Input, fr: FirstRelease)
    requires inp.lastVersion == ""
    ensures GetNextVersion(inp, fr) == GetNextVersion(inp.(lastVersion := inp.localVersion), fr)
  {
  }

  /** In the incremental system the release level and pre-release identifier
      play no part. */
  lemma IncrementalIgnoresLevel(inp: Input, fr: FirstRelease, level: string, id: string)
    requires inp.system == "incremental"
    ensures GetNextVersion(inp, fr) == GetNextVersion(inp.(level := level, preReleaseId := id), fr)
  {
  }

  /** With a pre-release identifier every outcome is one of two bumps of
      the base: by the pre-release level, or a plain `prerelease` step. */
  lemma PreReleaseOutcomes(inp: Input, fr: FirstRelease)
    requires BaseVersion(inp) != "" && inp.system != "incremental" && inp.preReleaseId != ""
    ensures var last := BaseVersion(inp);
      var r := GetNextVersion(inp, fr);
      r.Ok? ==>
        r.value.version == Semver.Inc(last, PreLevel(last, inp.level), inp.preReleaseId) ||
        r.value.version == Semver.Inc(last, "prerelease", inp.preReleaseId)
  {
  }

  /** The bound check in the intended reading: a candidate below the next
      production version falls back to a `prerelease` step of the base;
      otherwise the candidate stands. */
  lemma BoundCheckDecides(inp: Input, fr: FirstRelease)
    requires BaseVersion(inp) != "" && inp.system != "incremental" && inp.preReleaseId != ""
    requires inp.lastProdVersion != ""
    ensures var last := BaseVersion(inp);
      var candidate := Semver.Inc(last, PreLevel(last, inp.level), inp.preReleaseId);
      var nextProd := Semver.Inc(inp.lastProdVersion, inp.level, "");
      var r := GetNextVersion(inp, fr);
      (r.Err? <==> (candidate.None? || nextProd.None? ||
        Semver.Parse(candidate.value).None? || Semver.Parse(nextProd.value).None?)) &&
      (r.Ok? ==>
        var c := Semver.Cmp(Semver.Parse(nextProd.value).value, Semver.Parse(candidate.value).value);
        r.value.version == (if c > 0 then Semver.Inc(last, "prerelease", inp.preReleaseId) else candidate))
  {
  }

  /** `"pre" + level` with its first `"pre"` removed is the level again,
      so the two readings differ only for the coerced `prerelease`. */
  lemma BoundLevelOfPreLevel(last: string, level: string)
    ensures PreLevel(last, level) != "prerelease" ==> ReplaceFirst(PreLevel(last, level), "pre", "") == level
    ensures PreLevel(last, level) == "prerelease" ==> ReplaceFirst(PreLevel(last, level), "pre", "") == "release"
  {
    var lvl := PreLevel(last, level);
    if lvl == "prerelease" {
      StripPre("release");
    } else {
      assert lvl == "pre" + level;
      StripPre(level);
    }
  }

  lemma StripPre(x: string)
    ensures ReplaceFirst("pre" + x, "pre", "") == x
  {
    ReplaceFirstPrefix("pre", x);
  }

  /** Away from the two cases below the corrected reading is the one
      written: with a production version and no coerced `prerelease`, both
      give the same result. */
  lemma ReadingsAgree(inp: Input, fr: FirstRelease)
    requires inp.lastProdVersion != "" && PreLevel(BaseVersion(inp), inp.level) != "prerelease"
    ensures GetNextVersionAsWritten(inp, fr) == GetNextVersion(inp, fr)
  {
    BoundLevelOfPreLevel(BaseVersion(inp), inp.level);
  }

  /** As written, continuing a pre-release chain at patch level always
      throws: `prepatch` is coerced to `prerelease`, the bound check asks
      `inc` for the unknown type `"release"`, gets `null`, and `rcompare`
      throws on it. E.g. last `1.5.0-beta.2`, production `1.5.0`, level
      `patch`, identifier `beta`. */
  lemma PatchChainThrowsAsWritten(inp: Input, fr: FirstRelease)
    requires Semver.Prerelease(inp.lastVersion).Some? && inp.system == "semver"
    requires inp.level == "patch" && inp.preReleaseId != ""
    ensures GetNextVersionAsWritten(inp, fr).Err?
  {
    Semver.ParseEmpty();
    assert BaseVersion(inp) == inp.lastVersion;
    PatchChainBoundAsWritten(inp.lastVersion, inp);
    SemverErrIsErr(inp, fr);
  }

  lemma PatchChainBoundAsWritten(last: string, inp: Input)
    requires Semver.Prerelease(last).Some? && inp.level == "patch" && inp.preReleaseId != ""
    ensures SemverNextAsWritten(last, inp).Err?
  {
    var lvl := PreLevel(last, inp.level);
    BoundLevelOfPreLevel(last, inp.level);
    AsWrittenParts(last, inp);
    ReleaseIsNoIncType(inp.lastProdVersion);
    BoundWithoutProd(Semver.Inc(last, lvl, inp.preReleaseId), last, inp.preReleaseId);
  }

  /** The pieces the as-written bound check is assembled from. */
  lemma AsWrittenParts(last: string, inp: Input)
    requires inp.preReleaseId != ""
    ensures var lvl := PreLevel(last, inp.level);
      SemverNextAsWritten(last, inp) == Bound(Semver.Inc(last, lvl, inp.preReleaseId),
        Semver.Inc(inp.lastProdVersion, ReplaceFirst(lvl, "pre", ""), ""), last, inp.preReleaseId)
  {
  }

  /** `inc` does not know the type `"release"`. */
  lemma ReleaseIsNoIncType(s: string)
    ensures Semver.Inc(s, "release", "").None?
  {
    assert !Semver.IsReleaseType("release");
  }

  /** Without a version to compare with, `rcompare` throws. */
  lemma BoundWithoutProd(version: Option<string>, last: string, id: string)
    ensures Bound(version, None, last, id).Err?
  {
  }

  /** The semver branch decides the outcome once there is a base version. */
  lemma SemverErrIsErr(inp: Input, fr: FirstRelease)
    requires BaseVersion(inp) != "" && inp.system != "incremental"
    ensures SemverNextAsWritten(BaseVersion(inp), inp).Err? ==> GetNextVersionAsWritten(inp, fr).Err?
    ensures SemverNext(BaseVersion(inp), inp).Ok? ==>
      GetNextVersion(inp, fr) == Ok(VersionInfo(SemverNext(BaseVersion(inp), inp).value, inp.info, inp.system))
    ensures SemverNext(BaseVersion(inp), inp).Err? ==> GetNextVersion(inp, fr).Err?
  {
  }

  /** As written, a pre-release run with no production release yet always
      throws: `inc(undefined, …)` is `null` and `rcompare` throws on it. */
  lemma NoProductionThrowsAsWritten(inp: Input, fr: FirstRelease)
    requires BaseVersion(inp) != "" && inp.system == "semver"
    requires inp.preReleaseId != "" && inp.lastProdVersion == ""
    ensures GetNextVersionAsWritten(inp, fr).Err?
  {
    Semver.ParseEmpty();
  }

  /** In the intended reading, the same patch-level chain continues with a
      plain `prerelease` step, which raises the version. */
  lemma PatchChainContinues(inp: Input, fr: FirstRelease, v: Semver.Version, n: nat)
    requires Semver.Parse(inp.lastVersion) == Some(v)
    requires v.pre == [Semver.Alpha(inp.preReleaseId), Semver.Num(n)] && inp.preReleaseId != ""
    requires inp.system == "semver" && inp.level == "patch"
    ensures var r := GetNextVersion(inp, fr);
      r.Ok? ==> r.value.version == Some(Semver.Format(v.(pre := [Semver.Alpha(inp.preReleaseId), Semver.Num(n + 1)])))
    ensures inp.lastProdVersion == "" ==> GetNextVersion(inp, fr).Ok?
  {
    var w := v.(pre := [Semver.Alpha(inp.preReleaseId), Semver.Num(n + 1)]);
    ChainFacts(inp.lastVersion, v, inp.preReleaseId, n);
    assert BaseVersion(inp) == inp.lastVersion;
    PatchChainStep(inp.lastVersion, inp, w);
    SemverResult(inp, fr, w);
  }

  /** A version whose pre-release part is `<id>.<n>` is a pre-release, and
      a `prerelease` step with `id` gives `<id>.<n+1>`. */
  lemma ChainFacts(last: string, v: Semver.Version, id: string, n: nat)
    requires Semver.Parse(last) == Some(v) && v.pre == [Semver.Alpha(id), Semver.Num(n)]
    ensures last != "" && Semver.Prerelease(last).Some?
    ensures Semver.IncVersion(Semver.Parse(last).value, "prerelease", id) == Some(v.(pre := [Semver.Alpha(id), Semver.Num(n + 1)]))
  {
    Semver.ParsedNotEmpty(last, v);
    Semver.PrereleaseOfParsed(last, v);
    Semver.IncChainIncreases(v, id);
  }

  /** What the semver branch yields is what `getNextVersion` yields. */
  lemma SemverResult(inp: Input, fr: FirstRelease, w: Semver.Version)
    requires BaseVersion(inp) != "" && inp.system != "incremental"
    requires var r := SemverNext(BaseVersion(inp), inp); r.Ok? ==> r.value == Some(Semver.Format(w))
    requires inp.lastProdVersion == "" ==> SemverNext(BaseVersion(inp), inp).Ok?
    ensures var r := GetNextVersion(inp, fr);
      r.Ok? ==> r.value.version == Some(Semver.Format(w))
    ensures inp.lastProdVersion == "" ==> GetNextVersion(inp, fr).Ok?
  {
    SemverErrIsErr(inp, fr);
  }

  lemma PatchChainStep(last: string, inp: Input, w: Semver.Version)
    requires Semver.Prerelease(last).Some? && inp.level == "patch" && inp.preReleaseId != ""
    requires Semver.IncVersion(Semver.Parse(last).value, "prerelease", inp.preReleaseId) == Some(w)
    ensures var r := SemverNext(last, inp);
      r.Ok? ==> r.value == Some(Semver.Format(w))
    ensures inp.lastProdVersion == "" ==> SemverNext(last, inp).Ok?
  {
    assert PreLevel(last, inp.level) == "prerelease";
  }

  /** With a plain release level and no identifier the next version is
      strictly above the base. */
  lemma NextVersionIncreases(inp: Input, fr: FirstRelease, v: Semver.Version)
    requires Semver.Parse(BaseVersion(inp)) == Some(v) && BaseVersion(inp) != ""
    requires inp.system != "incremental" && inp.preReleaseId == ""
    requires inp.level in {"major", "minor", "patch"}
    ensures var r := GetNextVersion(inp, fr);
      r.Ok? && r.value.version.Some? &&
      r.value.version.value == Semver.Format(Semver.IncVersion(v, inp.level, "").value) &&
      Semver.Cmp(Semver.IncVersion(v, inp.level, "").value, v) == 1
  {
    Semver.IncIncreases(v, inp.level, "");
  }
}
