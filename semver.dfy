/** The part of node-semver the release engine calls (`parse`, `valid`,
    `clean`, `prerelease`, `compare`/`rcompare`/`gt`, `inc`, `coerce`),
    with precedence as section 11 of Semantic Versioning 2.0.0 defines it and
    identifiers as its section 9 defines them. */
module Semver {
  import opened Wrappers
  import opened Text

  /** A pre-release identifier: numeric, or alphanumeric text. */
  datatype Ident = Num(n: nat) | Alpha(s: string)

  /** A parsed version; build metadata is checked but not kept, because
      node-semver's `version` text never shows it. */
  datatype Version = Version(major: nat, minor: nat, patch: nat, pre: seq<Ident>)

  /** Longest text `parse` accepts. */
  const MaxLength: nat := 256
  /** `Number.MAX_SAFE_INTEGER`, the largest accepted version component. */
  const MaxSafe: nat := 9007199254740991

  // ---------------------------------------------------------------------
  // Identifier grammar (section 9)
  // ---------------------------------------------------------------------

  predicate IsIdentChar(c: char) { IsLetter(c) || IsDigit(c) || c == '-' }
  predicate AllIdentChars(s: string) { forall i :: 0 <= i < |s| ==> IsIdentChar(s[i]) }

  /** `0|[1-9]\d*`. */
  predicate IsNumericId(s: string) { |s| > 0 && AllDigits(s) && (|s| == 1 || s[0] != '0') }
  /** `\d*[a-zA-Z-][a-zA-Z0-9-]*`. */
  predicate IsAlphaId(s: string) { |s| > 0 && AllIdentChars(s) && !AllDigits(s) }
  predicate IsPreId(s: string) { IsNumericId(s) || IsAlphaId(s) }
  /** `[0-9A-Za-z-]+`. */
  predicate IsBuildId(s: string) { |s| > 0 && AllIdentChars(s) }

  predicate WellFormedIdent(i: Ident) { i.Alpha? ==> IsAlphaId(i.s) }
  predicate WellFormed(v: Version)
  {
    v.major <= MaxSafe && v.minor <= MaxSafe && v.patch <= MaxSafe &&
    forall k :: 0 <= k < |v.pre| ==> WellFormedIdent(v.pre[k])
  }

  // ---------------------------------------------------------------------
  // Formatting
  // ---------------------------------------------------------------------

  function IdentText(i: Ident): (r: string)
    ensures WellFormedIdent(i) ==> IsPreId(r)
    ensures i.Num? ==> IsNumericId(r) && DigitsValue(r) == i.n
    ensures WellFormedIdent(i) ==> (i.Num? <==> AllDigits(r))
  {
    match i
    case Num(n) => DigitsOfNat(n); NatToString(n)
    case Alpha(s) => s
  }

  function IdentTexts(pre: seq<Ident>): (r: seq<string>)
    ensures |r| == |pre|
    ensures forall k :: 0 <= k < |pre| ==> r[k] == IdentText(pre[k])
  {
    seq(|pre|, k requires 0 <= k < |pre| => IdentText(pre[k]))
  }

  /** The text of a version: `major.minor.patch[-pre]`. */
  function Format(v: Version): (r: string)
    ensures |r| > 0 && IsDigit(r[0])
  {
    var main := NatToString(v.major) + "." + NatToString(v.minor) + "." + NatToString(v.patch);
    if |v.pre| == 0 then main else main + "-" + Join(IdentTexts(v.pre), ".")
  }

  // ---------------------------------------------------------------------
  // Parsing
  // ---------------------------------------------------------------------

  function ToIdent(s: string): (r: Ident)
    requires IsPreId(s)
    ensures WellFormedIdent(r) && IdentText(r) == s
  {
    if IsNumericId(s) then
      NumericRoundTrip(s);
      Num(DigitsValue(s))
    else Alpha(s)
  }

  function ToIdents(parts: seq<string>): (r: seq<Ident>)
    requires forall k :: 0 <= k < |parts| ==> IsPreId(parts[k])
    ensures |r| == |parts|
    ensures forall k :: 0 <= k < |r| ==> WellFormedIdent(r[k]) && IdentText(r[k]) == parts[k]
  {
    seq(|parts|, k requires 0 <= k < |parts| && IsPreId(parts[k]) => ToIdent(parts[k]))
  }

  /** The version text without build metadata, split into the main part and
      the pre-release part, after the optional leading `v`. */
  function Sections(t: string): (string, Option<string>, Option<string>)
  {
    var u := if |t| > 0 && t[0] == 'v' then t[1..] else t;
    var plus := IndexOf(u, "+");
    var core := if plus == -1 then u else u[..plus];
    var build := if plus == -1 then None else Some(u[plus + 1..]);
    var dash := IndexOf(core, "-");
    if dash == -1 then (core, None, build) else (core[..dash], Some(core[dash + 1..]), build)
  }

  predicate AllBuildIds(parts: seq<string>) { forall k :: 0 <= k < |parts| ==> IsBuildId(parts[k]) }
  predicate AllPreIds(parts: seq<string>) { forall k :: 0 <= k < |parts| ==> IsPreId(parts[k]) }

  /** The version the three sections of a version text denote, if they obey
      the grammar. */
  function ParseSections(main: string, pre: Option<string>, build: Option<string>): (r: Option<Version>)
    ensures r.Some? ==> WellFormed(r.value)
  {
    var nums := Split(main, '.');
    var ids := if pre.Some? then Split(pre.value, '.') else [];
    if build.Some? && !AllBuildIds(Split(build.value, '.')) then None
    else if |nums| != 3 || !IsNumericId(nums[0]) || !IsNumericId(nums[1]) || !IsNumericId(nums[2]) then None
    else if !AllPreIds(ids) then None
    else if DigitsValue(nums[0]) > MaxSafe || DigitsValue(nums[1]) > MaxSafe || DigitsValue(nums[2]) > MaxSafe then None
    else Some(Version(DigitsValue(nums[0]), DigitsValue(nums[1]), DigitsValue(nums[2]), ToIdents(ids)))
  }

  /** `semver.parse(s)`: `null` for text longer than 256 characters, for
      text that after trimming is not `v?MAIN(-PRE)?(+BUILD)?`, or for a main
      component above `MAX_SAFE_INTEGER`. */
  function Parse(s: string): (r: Option<Version>)
    ensures r.Some? ==> WellFormed(r.value)
    ensures |s| > MaxLength ==> r.None?
  {
    if |s| > MaxLength then None
    else
      var (main, pre, build) := Sections(Trim(s));
      ParseSections(main, pre, build)
  }

  /** `semver.valid(s)`: the normalised text of a parsable version. */
  function Valid(s: string): (r: Option<string>)
    ensures r.Some? <==> Parse(s).Some?
    ensures r.Some? ==> r.value == Format(Parse(s).value)
  {
    match Parse(s)
    case Some(v) => Some(Format(v))
    case None => None
  }

  /** Leading `=` and `v` characters, which `clean` strips. */
  function StripEqV(s: string): (r: string)
    ensures EndsWith(s, r)
    ensures |r| == 0 || (r[0] != '=' && r[0] != 'v')
  {
    if |s| > 0 && (s[0] == '=' || s[0] == 'v') then
      var r := StripEqV(s[1..]);
      assert s[|s| - |r|..] == s[1..][|s| - 1 - |r|..];
      r
    else s
  }

  /** `semver.clean(s)`: trim, drop leading `=`/`v` characters, parse and
      print without build metadata. */
  function Clean(s: string): Option<string>
  {
    match Parse(StripEqV(Trim(s)))
    case Some(v) => Some(Format(v))
    case None => None
  }

  /** `semver.valid(semver.clean(s))` is truthy. */
  predicate CleansToValid(s: string)
  {
    Clean(s).Some? && Valid(Clean(s).value).Some?
  }

  /** `semver.prerelease(s)`: the pre-release identifiers, or `null` when the
      text does not parse or has none. */
  function Prerelease(s: string): (r: Option<seq<Ident>>)
    ensures r.Some? <==> Parse(s).Some? && |Parse(s).value.pre| > 0
    ensures r.Some? ==> r.value == Parse(s).value.pre
  {
    match Parse(s)
    case Some(v) => if |v.pre| > 0 then Some(v.pre) else None
    case None => None
  }

  // ---------------------------------------------------------------------
  // Precedence (section 11)
  // ---------------------------------------------------------------------

  function CmpNat(a: nat, b: nat): (r: int)
    ensures r == -1 <==> a < b
    ensures r == 0 <==> a == b
    ensures r == 1 <==> a > b
  {
    if a < b then -1 else if a == b then 0 else 1
  }

  /** Ordinal comparison of two strings, by character code. */
  function CmpStr(a: string, b: string): (r: int)
    ensures r in {-1, 0, 1}
    ensures r == 0 <==> a == b
    decreases |a|
  {
    if |a| == 0 && |b| == 0 then 0
    else if |a| == 0 then -1
    else if |b| == 0 then 1
    else if a[0] < b[0] then -1
    else if a[0] > b[0] then 1
    else
      var r := CmpStr(a[1..], b[1..]);
      assert r == 0 ==> a == [a[0]] + a[1..] == [b[0]] + b[1..] == b;
      r
  }

  /** node-semver `compareIdentifiers`: numbers by value, numbers below text,
      text by character code. */
  function CmpIdent(a: Ident, b: Ident): (r: int)
    ensures r in {-1, 0, 1}
    ensures r == 0 <==> a == b
  {
    match (a, b)
    case (Num(x), Num(y)) => CmpNat(x, y)
    case (Num(_), Alpha(_)) => -1
    case (Alpha(_), Num(_)) => 1
    case (Alpha(x), Alpha(y)) => CmpStr(x, y)
  }

  /** Identifier lists compared field by field; a list that is a proper
      prefix of the other comes first. */
  function CmpIdents(a: seq<Ident>, b: seq<Ident>): (r: int)
    ensures r in {-1, 0, 1}
    ensures r == 0 <==> a == b
    decreases |a|
  {
    if |a| == 0 && |b| == 0 then 0
    else if |b| == 0 then 1
    else if |a| == 0 then -1
    else if a[0] != b[0] then CmpIdent(a[0], b[0])
    else
      var r := CmpIdents(a[1..], b[1..]);
      assert r == 0 ==> a == [a[0]] + a[1..] == [b[0]] + b[1..] == b;
      r
  }

  /** node-semver `comparePre`: a version without pre-release identifiers
      has higher precedence than one with them. */
  function CmpPre(a: seq<Ident>, b: seq<Ident>): (r: int)
    ensures r in {-1, 0, 1}
    ensures r == 0 <==> a == b
    ensures |a| == 0 && |b| > 0 ==> r == 1
    ensures |a| > 0 && |b| == 0 ==> r == -1
  {
    if |a| > 0 && |b| == 0 then -1
    else if |a| == 0 && |b| > 0 then 1
    else CmpIdents(a, b)
  }

  /** `SemVer.compare`: main components in order, then pre-release. */
  function Cmp(a: Version, b: Version): (r: int)
    ensures r in {-1, 0, 1}
    ensures r == 0 <==> a == b
    ensures a.major != b.major ==> r == CmpNat(a.major, b.major)
  {
    if a.major != b.major then CmpNat(a.major, b.major)
    else if a.minor != b.minor then CmpNat(a.minor, b.minor)
    else if a.patch != b.patch then CmpNat(a.patch, b.patch)
    else CmpPre(a.pre, b.pre)
  }

  // ---------------------------------------------------------------------
  // Precedence is a total order
  // ---------------------------------------------------------------------

  lemma {:induction false} CmpStrAntisym(a: string, b: string)
    ensures CmpStr(b, a) == -CmpStr(a, b)
    decreases |a|
  {
    if |a| > 0 && |b| > 0 && a[0] == b[0] {
      CmpStrAntisym(a[1..], b[1..]);
    }
  }

  lemma {:induction false} CmpStrTrans(a: string, b: string, c: string)
    requires CmpStr(a, b) <= 0 && CmpStr(b, c) <= 0
    ensures CmpStr(a, c) <= 0
    decreases |a|
  {
    if |a| > 0 && |b| > 0 && |c| > 0 && a[0] == b[0] && b[0] == c[0] {
      CmpStrTrans(a[1..], b[1..], c[1..]);
    }
  }

  lemma CmpIdentAntisym(a: Ident, b: Ident)
    ensures CmpIdent(b, a) == -CmpIdent(a, b)
  {
    if a.Alpha? && b.Alpha? { CmpStrAntisym(a.s, b.s); }
  }

  lemma CmpIdentTrans(a: Ident, b: Ident, c: Ident)
    requires CmpIdent(a, b) <= 0 && CmpIdent(b, c) <= 0
    ensures CmpIdent(a, c) <= 0
  {
    if a.Alpha? && b.Alpha? && c.Alpha? { CmpStrTrans(a.s, b.s, c.s); }
  }

  lemma {:induction false} CmpIdentsAntisym(a: seq<Ident>, b: seq<Ident>)
    ensures CmpIdents(b, a) == -CmpIdents(a, b)
    decreases |a|
  {
    if |a| > 0 && |b| > 0 {
      if a[0] != b[0] { CmpIdentAntisym(a[0], b[0]); }
      else { CmpIdentsAntisym(a[1..], b[1..]); }
    }
  }

  lemma {:induction false} CmpIdentsTrans(a: seq<Ident>, b: seq<Ident>, c: seq<Ident>)
    requires CmpIdents(a, b) <= 0 && CmpIdents(b, c) <= 0
    ensures CmpIdents(a, c) <= 0
    decreases |a|
  {
    if |a| > 0 && |b| > 0 && |c| > 0 {
      if a[0] == b[0] && b[0] == c[0] {
        CmpIdentsTrans(a[1..], b[1..], c[1..]);
      } else if a[0] != c[0] {
        if a[0] == b[0] {
          assert CmpIdent(a[0], c[0]) <= 0;
        } else if b[0] == c[0] {
          assert CmpIdent(a[0], c[0]) <= 0;
        } else {
          CmpIdentTrans(a[0], b[0], c[0]);
        }
      } else {
        // a[0] == c[0] but b[0] differs: a and c are both on the same side of b
        CmpIdentAntisym(a[0], b[0]);
      }
    }
  }

  /** Swapping the arguments negates the comparison. */
  lemma CmpAntisym(a: Version, b: Version)
    ensures Cmp(b, a) == -Cmp(a, b)
  {
    if a.major == b.major && a.minor == b.minor && a.patch == b.patch {
      if |a.pre| > 0 && |b.pre| > 0 { CmpIdentsAntisym(a.pre, b.pre); }
    }
  }

  /** Precedence is transitive. */
  lemma CmpTrans(a: Version, b: Version, c: Version)
    requires Cmp(a, b) <= 0 && Cmp(b, c) <= 0
    ensures Cmp(a, c) <= 0
  {
    if a.major == b.major == c.major && a.minor == b.minor == c.minor && a.patch == b.patch == c.patch {
      if |a.pre| > 0 && |b.pre| > 0 && |c.pre| > 0 { CmpIdentsTrans(a.pre, b.pre, c.pre); }
    }
  }

  // ---------------------------------------------------------------------
  // The string-level API
  // ---------------------------------------------------------------------

  /** `semver.compare(a, b)`: throws a TypeError unless both parse. */
  function Compare(a: string, b: string): (r: Result<int>)
    ensures r.Ok? <==> Parse(a).Some? && Parse(b).Some?
    ensures r.Ok? ==> r.value == Cmp(Parse(a).value, Parse(b).value)
  {
    match (Parse(a), Parse(b))
    case (Some(x), Some(y)) => Ok(Cmp(x, y))
    case _ => Err("TypeError: Invalid Version")
  }

  /** `semver.rcompare(a, b)`, the reverse order. */
  function RCompare(a: string, b: string): (r: Result<int>)
    ensures r.Ok? <==> Parse(a).Some? && Parse(b).Some?
    ensures r.Ok? ==> r.value == Cmp(Parse(b).value, Parse(a).value) == -Cmp(Parse(a).value, Parse(b).value)
  {
    ParsedAntisym(a, b);
    Compare(b, a)
  }

  lemma ParsedAntisym(a: string, b: string)
    ensures Parse(a).Some? && Parse(b).Some? ==>
      Cmp(Parse(b).value, Parse(a).value) == -Cmp(Parse(a).value, Parse(b).value)
  {
    if Parse(a).Some? && Parse(b).Some? { CmpAntisym(Parse(a).value, Parse(b).value); }
  }

  /** `semver.gt(a, b)`. */
  function Gt(a: string, b: string): (r: Result<bool>)
    ensures r.Ok? <==> Parse(a).Some? && Parse(b).Some?
    ensures r.Ok? ==> (r.value <==> Cmp(Parse(b).value, Parse(a).value) < 0)
  {
    match Compare(a, b)
    case Ok(c) =>
      CmpAntisym(Parse(a).value, Parse(b).value);
      Ok(c > 0)
    case Err(m) => Err(m)
  }

  // ---------------------------------------------------------------------
  // Increment (node-semver 7.x before `release` was added)
  // ---------------------------------------------------------------------

  /** node-semver `compareIdentifiers(p, id) === 0` for a parsed identifier
      against the caller's identifier text. */
  predicate SameIdent(p: Ident, id: string)
  {
    match p
    case Num(n) => |id| > 0 && AllDigits(id) && DigitsValue(id) == n
    case Alpha(s) => s == id
  }

  /** `isNaN(prerelease[1])`: true for a missing entry and, in this model,
      for every alphanumeric identifier. */
  predicate SecondIsNaN(pre: seq<Ident>) { |pre| < 2 || pre[1].Alpha? }

  /** Index of the last numeric identifier, or -1. */
  function LastNumeric(pre: seq<Ident>): (r: int)
    ensures -1 <= r < |pre|
    ensures r >= 0 ==> pre[r].Num?
    ensures forall k :: r < k < |pre| ==> pre[k].Alpha?
  {
    if |pre| == 0 then -1
    else if pre[|pre| - 1].Num? then |pre| - 1
    else LastNumeric(pre[..|pre| - 1])
  }

  /** The `pre` step: bump the last numeric identifier (or append 0), then,
      given an identifier, restart at `<id>.0` unless the list already
      starts with it and continues with a number. */
  function IncPre(pre: seq<Ident>, id: string): (r: seq<Ident>)
    ensures |r| > 0
    ensures id == "" && |pre| > 0 && LastNumeric(pre) >= 0 ==>
      var i := LastNumeric(pre); r == pre[i := Num(pre[i].n + 1)]
    ensures id == "" && |pre| > 0 && LastNumeric(pre) == -1 ==> r == pre + [Num(0)]
    ensures id == "" && |pre| == 0 ==> r == [Num(0)]
    ensures id != "" && r[0] != Alpha(id) ==> SameIdent(r[0], id)
  {
    var bumped :=
      if |pre| == 0 then [Num(0)]
      else
        var i := LastNumeric(pre);
        if i == -1 then pre + [Num(0)] else pre[i := Num(pre[i].n + 1)];
    if id == "" then bumped
    else if SameIdent(bumped[0], id) then (if SecondIsNaN(bumped) then [Alpha(id), Num(0)] else bumped)
    else [Alpha(id), Num(0)]
  }

  /** The release types `inc` accepts. */
  predicate IsReleaseType(t: string)
  {
    t in {"major", "minor", "patch", "premajor", "preminor", "prepatch", "prerelease", "pre"}
  }

  /** `SemVer.inc(release, identifier)`; `None` stands for the "invalid
      increment argument" error. An empty identifier is no identifier. */
  function IncVersion(v: Version, release: string, id: string): (r: Option<Version>)
    ensures r.Some? <==> IsReleaseType(release)
    ensures release == "major" ==> r == Some(Version(
      if v.minor != 0 || v.patch != 0 || |v.pre| == 0 then v.major + 1 else v.major, 0, 0, []))
    ensures release == "minor" ==> r == Some(Version(
      v.major, if v.patch != 0 || |v.pre| == 0 then v.minor + 1 else v.minor, 0, []))
    ensures release == "patch" ==> r == Some(Version(
      v.major, v.minor, if |v.pre| == 0 then v.patch + 1 else v.patch, []))
    ensures release == "premajor" ==> r == Some(Version(v.major + 1, 0, 0, IncPre([], id)))
    ensures release == "preminor" ==> r == Some(Version(v.major, v.minor + 1, 0, IncPre([], id)))
    ensures release == "prepatch" ==> r == Some(Version(v.major, v.minor, v.patch + 1, IncPre([], id)))
    ensures release == "prerelease" && |v.pre| == 0 ==> r == Some(Version(v.major, v.minor, v.patch + 1, IncPre([], id)))
    ensures release in {"prerelease", "pre"} && |v.pre| > 0 ==> r == Some(v.(pre := IncPre(v.pre, id)))
  {
    match release
    case "major" =>
      Some(Version(if v.minor != 0 || v.patch != 0 || |v.pre| == 0 then v.major + 1 else v.major, 0, 0, []))
    case "minor" =>
      Some(Version(v.major, if v.patch != 0 || |v.pre| == 0 then v.minor + 1 else v.minor, 0, []))
    case "patch" =>
      Some(Version(v.major, v.minor, if |v.pre| == 0 then v.patch + 1 else v.patch, []))
    case "premajor" => Some(Version(v.major + 1, 0, 0, IncPre([], id)))
    case "preminor" => Some(Version(v.major, v.minor + 1, 0, IncPre([], id)))
    case "prepatch" => Some(Version(v.major, v.minor, v.patch + 1, IncPre([], id)))
    case "prerelease" =>
      var w := if |v.pre| == 0 then Version(v.major, v.minor, v.patch + 1, []) else v;
      Some(w.(pre := IncPre(w.pre, id)))
    case "pre" => Some(v.(pre := IncPre(v.pre, id)))
    case _ => None
  }

  /** `semver.inc(version, release, identifier)`: `null` when the version
      does not parse or the release type is unknown. */
  function Inc(s: string, release: string, id: string): (r: Option<string>)
    ensures r.Some? <==> Parse(s).Some? && IsReleaseType(release)
    ensures r.Some? ==> r.value == Format(IncVersion(Parse(s).value, release, id).value)
  {
    match Parse(s)
    case None => None
    case Some(v) =>
      match IncVersion(v, release, id)
      case Some(w) => Some(Format(w))
      case None => None
  }

  lemma {:induction false} BumpLastNumericGreater(pre: seq<Ident>, i: nat)
    requires i < |pre| && pre[i].Num?
    ensures CmpIdents(pre[i := Num(pre[i].n + 1)], pre) == 1
    decreases i
  {
    var q := pre[i := Num(pre[i].n + 1)];
    if i > 0 {
      assert q[0] == pre[0];
      assert q[1..] == pre[1..][i - 1 := Num(pre[i].n + 1)];
      BumpLastNumericGreater(pre[1..], i - 1);
    }
  }

  lemma {:induction false} ExtendGreater(pre: seq<Ident>, x: Ident)
    ensures CmpIdents(pre + [x], pre) == 1
    decreases |pre|
  {
    if |pre| > 0 {
      assert (pre + [x])[1..] == pre[1..] + [x];
      ExtendGreater(pre[1..], x);
    }
  }

  /** Every release type except a `prerelease`/`pre` step that switches to a
      different identifier yields a version of strictly higher precedence. */
  lemma IncIncreases(v: Version, release: string, id: string)
    requires IsReleaseType(release)
    requires release in {"prerelease", "pre"} && |v.pre| > 0 ==> id == ""
    requires release == "pre" ==> |v.pre| > 0
    ensures Cmp(IncVersion(v, release, id).value, v) == 1
  {
    if release in {"prerelease", "pre"} && |v.pre| > 0 {
      var i := LastNumeric(v.pre);
      if i >= 0 {
        BumpLastNumericGreater(v.pre, i);
      } else {
        ExtendGreater(v.pre, Num(0));
      }
    }
  }

  /** Continuing a pre-release chain `<id>.<n>` with the same identifier
      bumps the number and so increases the version. */
  lemma IncChainIncreases(v: Version, id: string)
    requires |v.pre| == 2 && v.pre[0] == Alpha(id) && v.pre[1].Num?
    ensures IncVersion(v, "prerelease", id) == Some(v.(pre := [Alpha(id), Num(v.pre[1].n + 1)]))
    ensures Cmp(IncVersion(v, "prerelease", id).value, v) == 1
  {
    assert LastNumeric(v.pre) == 1;
    var bumped := v.pre[1 := Num(v.pre[1].n + 1)];
    assert bumped == [Alpha(id), Num(v.pre[1].n + 1)];
    assert SameIdent(bumped[0], id) && !SecondIsNaN(bumped);
    BumpLastNumericGreater(v.pre, 1);
  }

  /** A text that parses is not empty. */
  lemma ParsedNotEmpty(s: string, v: Version)
    requires Parse(s) == Some(v)
    ensures s != ""
  {
    ParseEmpty();
  }

  /** A text that parses to a version with pre-release identifiers has a
      `prerelease` part. */
  lemma PrereleaseOfParsed(s: string, v: Version)
    requires Parse(s) == Some(v) && |v.pre| > 0
    ensures Prerelease(s) == Some(v.pre)
  {
  }

  /** The empty text is no version. */
  lemma ParseEmpty()
    ensures Parse("").None?
  {
    TrimEmpty();
    SectionsEmpty();
    SplitEmpty();
    ParseSectionsShort("", None, None);
  }

  /** A text without `+` or `-` that does not start with `v` is all main
      section. */
  lemma SectionsPlain(t: string)
    requires NoChar(t, '+') && NoChar(t, '-') && (|t| == 0 || t[0] != 'v')
    ensures Sections(t) == (t, None, None)
  {
    NoCharIndex(t, '+');
    NoCharIndex(t, '-');
    assert "+" == ['+'] && "-" == ['-'];
  }

  /** A text without the separator splits into itself. */
  lemma SplitPlain(t: string, c: char)
    requires NoChar(t, c)
    ensures Split(t, c) == [t]
  {
    NoCharIndex(t, c);
  }

  /** Text that starts with neither `=` nor `v` keeps its leading characters. */
  lemma StripEqVNone(t: string)
    requires |t| == 0 || (t[0] != '=' && t[0] != 'v')
    ensures StripEqV(t) == t
  {
  }

  lemma TrimEmpty() ensures Trim("") == "" { }

  lemma SectionsEmpty() ensures Sections("") == ("", None, None) { assert IndexOf("", "+") == -1; }

  lemma SplitEmpty() ensures Split("", '.') == [""] { assert IndexOf("", ".") == -1; }

  /** A main section that is not three dot-separated parts is no version. */
  lemma ParseSectionsShort(main: string, pre: Option<string>, build: Option<string>)
    requires build.None? && |Split(main, '.')| != 3
    ensures ParseSections(main, pre, build).None?
  {
  }

  /** A `prerelease` step that switches identifier can go backwards:
      `1.2.3-beta.1` becomes `1.2.3-alpha.0`. */
  lemma IncPrereleaseSwitchDecreases()
    ensures var v := Version(1, 2, 3, [Alpha("beta"), Num(1)]);
      Cmp(IncVersion(v, "prerelease", "alpha").value, v) == -1
  {
    var v := Version(1, 2, 3, [Alpha("beta"), Num(1)]);
    var w := IncVersion(v, "prerelease", "alpha").value;
    assert w.pre == [Alpha("alpha"), Num(0)];
    assert CmpStr("alpha", "beta") == -1;
  }

  // ---------------------------------------------------------------------
  // Coercion
  // ---------------------------------------------------------------------

  /** Length of the run of digits at the start of `s`. */
  function DigitRun(s: string): (n: nat)
    ensures n <= |s| && AllDigits(s[..n])
    ensures n == |s| || !IsDigit(s[n])
  {
    if |s| == 0 || !IsDigit(s[0]) then 0
    else
      var m := DigitRun(s[1..]);
      assert s[..m + 1] == [s[0]] + s[1..][..m];
      m + 1
  }

  /** Position of the first digit, or |s|. */
  function FirstDigit(s: string): (i: nat)
    ensures i <= |s|
    ensures i < |s| ==> IsDigit(s[i])
    ensures forall k :: 0 <= k < i ==> !IsDigit(s[k])
  {
    if |s| == 0 || IsDigit(s[0]) then 0 else 1 + FirstDigit(s[1..])
  }

  /** An optional `.digits` component at the start of `s`: its value and
      the text after it. */
  function DotComponent(s: string): (r: (nat, string))
    ensures |r.1| <= |s|
  {
    if |s| >= 2 && s[0] == '.' && IsDigit(s[1]) then
      var n := DigitRun(s[1..]);
      (DigitsValue(s[1..][..n]), s[1..][n..])
    else (0, s)
  }

  /** `semver.coerce(s)`: the first run of digits and up to two following
      `.digits` components as `major.minor.patch`; `null` without digits. */
  function Coerce(s: string): (r: Option<Version>)
    ensures r.Some? <==> exists k :: 0 <= k < |s| && IsDigit(s[k])
    ensures r.Some? ==> r.value.pre == []
  {
    var i := FirstDigit(s);
    if i == |s| then None
    else
      var t := s[i..];
      var n := DigitRun(t);
      var (minor, rest) := DotComponent(t[n..]);
      var (patch, _) := if rest != t[n..] then DotComponent(rest) else (0, rest);
      Some(Version(DigitsValue(t[..n]), minor, patch, []))
  }

  // ---------------------------------------------------------------------
  // Parse and Format are inverse
  // ---------------------------------------------------------------------

  lemma NumericRoundTrip(s: string)
    requires IsNumericId(s)
    ensures NatToString(DigitsValue(s)) == s
  {
    DigitsInjective(s, NatToString(DigitsValue(s)));
  }

  /** Two numeric identifiers with the same value are the same text. */
  lemma {:induction false} DigitsInjective(a: string, b: string)
    requires IsNumericId(a) && IsNumericId(b) && DigitsValue(a) == DigitsValue(b)
    ensures a == b
    decreases |a| + |b|
  {
    if |a| == 1 && |b| == 1 {
    } else if |a| == 1 || |b| == 1 {
      if |a| == 1 { LeadingDigitBound(b); } else { LeadingDigitBound(a); }
    } else {
      var a', b' := a[..|a| - 1], b[..|b| - 1];
      LastDigitSplit(a);
      LastDigitSplit(b);
      TenfoldEqual(DigitsValue(a'), DigitValue(a[|a| - 1]), DigitsValue(b'), DigitValue(b[|b| - 1]));
      DigitsInjective(a', b');
    }
  }

  /** A numeric identifier of two or more digits is a shorter numeric
      identifier followed by its last digit. */
  lemma LastDigitSplit(s: string)
    requires IsNumericId(s) && |s| >= 2
    ensures var s' := s[..|s| - 1];
      IsNumericId(s') && s == s' + [s[|s| - 1]] &&
      DigitsValue(s) == DigitsValue(s') * 10 + DigitValue(s[|s| - 1]) && DigitValue(s[|s| - 1]) < 10
  {
  }

  /** Equal values written with the same base-ten last digit position have
      equal heads and equal last digits. */
  lemma TenfoldEqual(x: nat, d: nat, y: nat, e: nat)
    requires d < 10 && e < 10 && x * 10 + d == y * 10 + e
    ensures x == y && d == e
  {
  }

  /** A numeric identifier of two or more digits is at least 10. */
  lemma {:induction false} LeadingDigitBound(s: string)
    requires IsNumericId(s) && |s| >= 2
    ensures DigitsValue(s) >= 10
    decreases |s|
  {
    var s' := s[..|s| - 1];
    assert IsNumericId(s');
    if |s'| >= 2 { LeadingDigitBound(s'); } else { assert s'[0] != '0'; }
  }

  /** The first `c` in `a + [c] + b` is right after `a` when `a` has none. */
  lemma IndexOfAfter(a: string, c: char, b: string)
    requires NoChar(a, c)
    ensures IndexOf(a + [c] + b, [c]) == |a|
  {
    var s := a + [c] + b;
    assert OccursAt(s, [c], |a|) by { assert s[|a|..|a| + 1] == [c]; }
    forall k | 0 <= k < |a| ensures !OccursAt(s, [c], k) {
      assert s[k..k + 1] == [a[k]];
    }
  }

  lemma NoCharConcat(a: string, b: string, c: char)
    requires NoChar(a, c) && NoChar(b, c)
    ensures NoChar(a + b, c)
  {
    forall i | 0 <= i < |a + b| ensures (a + b)[i] != c {
      if i >= |a| { assert (a + b)[i] == b[i - |a|]; }
    }
  }

  lemma DigitsNoChar(s: string, c: char)
    requires AllDigits(s) && !IsDigit(c)
    ensures NoChar(s, c)
  {
  }

  lemma IdentNoChar(s: string, c: char)
    requires IsPreId(s) && !IsIdentChar(c)
    ensures NoChar(s, c)
  {
  }

  lemma JoinNoChar(parts: seq<string>, sep: string, c: char)
    requires NoChar(sep, c)
    requires forall k :: 0 <= k < |parts| ==> NoChar(parts[k], c)
    ensures NoChar(Join(parts, sep), c)
    decreases |parts|
  {
    if |parts| > 1 {
      JoinNoChar(parts[1..], sep, c);
      NoCharConcat(parts[0], sep, c);
      NoCharConcat(parts[0] + sep, Join(parts[1..], sep), c);
    }
  }

  function MainText(v: Version): string
  {
    NatToString(v.major) + "." + NatToString(v.minor) + "." + NatToString(v.patch)
  }

  /** The main part is digits and dots and splits into its three components. */
  lemma MainTextFacts(v: Version)
    ensures NoChar(MainText(v), '+') && NoChar(MainText(v), '-')
    ensures Split(MainText(v), '.') == [NatToString(v.major), NatToString(v.minor), NatToString(v.patch)]
  {
    var a, b, c := NatToString(v.major), NatToString(v.minor), NatToString(v.patch);
    assert MainText(v) == a + "." + b + "." + c;
    forall x | x in {'+', '-'} ensures NoChar(a + "." + b + "." + c, x) {
      DigitsNoChar(a, x); DigitsNoChar(b, x); DigitsNoChar(c, x);
      NoCharConcat(a, ".", x); NoCharConcat(a + ".", b, x);
      NoCharConcat(a + "." + b, ".", x); NoCharConcat(a + "." + b + ".", c, x);
    }
    assert Join([a, b, c], ".") == MainText(v);
    DigitsNoChar(a, '.'); DigitsNoChar(b, '.'); DigitsNoChar(c, '.');
    SplitJoin([a, b, c], '.');
  }

  lemma PreTextFacts(v: Version)
    requires WellFormed(v) && |v.pre| > 0
    ensures var t := Join(IdentTexts(v.pre), ".");
      NoChar(t, '+') && |t| > 0 && IsIdentChar(t[|t| - 1]) && Split(t, '.') == IdentTexts(v.pre)
  {
    var texts := IdentTexts(v.pre);
    forall k | 0 <= k < |texts| ensures NoChar(texts[k], '+') && NoChar(texts[k], '.') {
      IdentNoChar(texts[k], '+');
      IdentNoChar(texts[k], '.');
    }
    JoinNoChar(texts, ".", '+');
    LastCharOfJoin(texts);
    SplitJoin(texts, '.');
  }

  /** How a formatted version divides into sections. */
  lemma SectionsOfFormat(v: Version)
    requires WellFormed(v)
    ensures |v.pre| == 0 ==> Sections(Format(v)) == (MainText(v), None, None)
    ensures |v.pre| > 0 ==> Sections(Format(v)) == (MainText(v), Some(Join(IdentTexts(v.pre), ".")), None)
  {
    var main := MainText(v);
    MainTextFacts(v);
    FormatParts(v);
    assert main[0] == Format(v)[0];
    if |v.pre| == 0 {
      SectionsPlain(main);
    } else {
      PreTextFacts(v);
      SectionsDashed(main, Join(IdentTexts(v.pre), "."));
    }
  }

  /** A formatted version is its main part, then `-` and the pre-release
      part when there is one. */
  lemma FormatParts(v: Version)
    ensures Format(v) == if |v.pre| == 0 then MainText(v) else MainText(v) + "-" + Join(IdentTexts(v.pre), ".")
  {
  }

  /** A text `a-b` without `+` whose `a` has no `-` and does not start
      with `v` has `a` as main section and `b` as pre-release section. */
  lemma SectionsDashed(a: string, b: string)
    requires NoChar(a, '+') && NoChar(a, '-') && NoChar(b, '+') && |a| > 0 && a[0] != 'v'
    ensures Sections(a + "-" + b) == (a, Some(b), None)
  {
    var s := a + "-" + b;
    assert "+" == ['+'] && "-" == ['-'];
    NoCharConcat(a, "-", '+'); NoCharConcat(a + "-", b, '+');
    NoCharIndex(s, '+');
    IndexOfAfter(a, '-', b);
    assert s[..|a|] == a;
    assert s[|a| + 1..] == b;
  }

  lemma MainLastChar(v: Version)
    ensures var m := MainText(v); |m| > 0 && IsDigit(m[|m| - 1])
  {
    var c := NatToString(v.patch);
    var m := MainText(v);
    assert m == (NatToString(v.major) + "." + NatToString(v.minor) + ".") + c;
    assert m[|m| - 1] == c[|c| - 1];
  }

  lemma FormatLastChar(v: Version)
    requires WellFormed(v)
    ensures var s := Format(v); IsIdentChar(s[|s| - 1])
  {
    var s := Format(v);
    if |v.pre| == 0 {
      MainLastChar(v);
    } else {
      PreTextFacts(v);
      var preText := Join(IdentTexts(v.pre), ".");
      assert s == (MainText(v) + "-") + preText;
      assert s[|s| - 1] == preText[|preText| - 1];
    }
  }

  lemma TrimFormat(v: Version)
    requires WellFormed(v)
    ensures Trim(Format(v)) == Format(v)
  {
    FormatLastChar(v);
    TrimUnchanged(Format(v));
  }

  /** Parsing the text of a version gives the version back, provided the
      version obeys the grammar and the text is not too long. */
  lemma ParseFormat(v: Version)
    requires WellFormed(v) && |Format(v)| <= MaxLength
    ensures Parse(Format(v)) == Some(v)
  {
    TrimFormat(v);
    SectionsOfFormat(v);
    ParseSectionsOfFormat(v);
  }

  lemma ParseSectionsOfFormat(v: Version)
    requires WellFormed(v)
    ensures ParseSections(MainText(v), if |v.pre| == 0 then None else Some(Join(IdentTexts(v.pre), ".")), None) == Some(v)
  {
    MainParsed(v);
    if |v.pre| > 0 {
      PreParsed(v);
    } else {
      assert ToIdents([]) == [];
    }
  }

  /** The main part splits into three numeric identifiers with the
      version's values. */
  lemma MainParsed(v: Version)
    ensures var nums := Split(MainText(v), '.');
      |nums| == 3 && IsNumericId(nums[0]) && IsNumericId(nums[1]) && IsNumericId(nums[2]) &&
      DigitsValue(nums[0]) == v.major && DigitsValue(nums[1]) == v.minor && DigitsValue(nums[2]) == v.patch
  {
    MainTextFacts(v);
    DigitsOfNat(v.major); DigitsOfNat(v.minor); DigitsOfNat(v.patch);
  }

  /** The pre-release part splits into identifiers that read back as the
      version's own. */
  lemma PreParsed(v: Version)
    requires WellFormed(v) && |v.pre| > 0
    ensures var ids := Split(Join(IdentTexts(v.pre), "."), '.');
      AllPreIds(ids) && ToIdents(ids) == v.pre
  {
    PreTextFacts(v);
    var ids := ToIdents(IdentTexts(v.pre));
    forall k | 0 <= k < |ids| ensures ids[k] == v.pre[k] {
      IdentTextInjective(ids[k], v.pre[k]);
    }
    assert ids == v.pre;
  }

  lemma LastCharOfJoin(texts: seq<string>)
    requires |texts| > 0
    requires forall k :: 0 <= k < |texts| ==> IsPreId(texts[k])
    ensures var j := Join(texts, "."); |j| > 0 && IsIdentChar(j[|j| - 1])
    decreases |texts|
  {
    if |texts| > 1 {
      LastCharOfJoin(texts[1..]);
      var rest := Join(texts[1..], ".");
      assert Join(texts, ".") == texts[0] + "." + rest;
    }
  }

  lemma IdentTextInjective(x: Ident, y: Ident)
    requires WellFormedIdent(x) && WellFormedIdent(y) && IdentText(x) == IdentText(y)
    ensures x == y
  {
  }
}
