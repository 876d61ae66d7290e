/** `getLastRelease` of `src/lib/get-last-release.ts`: the tag of the last
    release, found by matching the repository's tags against the tag
    template, keeping the valid ones, sorting them from the highest
    version down and taking the first one reachable from HEAD. The tag
    list, the history test and the tag head come in as inputs. */
module LastRelease {
  import opened Wrappers
  import opened Text
  import opened JsNumber
  import Semver
  import Utils
  import Context

  // ---------------------------------------------------------------------
  // The tag pattern
  // ---------------------------------------------------------------------

  /** The placeholder of a tag template. */
  const VersionSlot := "${version}"

  /** `template(tagFormat)({ version })`: every `${version}` replaced. */
  function RenderTag(tagFormat: string, version: string): string
  {
    ReplaceAll(tagFormat, VersionSlot, version)
  }

  /** The text of the tag pattern as the source builds it: the template is
      compiled with a space as the version, escaped, and its first space
      becomes the capture `(.+)`; only the start is anchored. */
  function TagRegExp(tagFormat: string): string
  {
    CompiledRegExp(RenderTag(tagFormat, " "))
  }

  function CompiledRegExp(compiled: string): string
  {
    "^" + ReplaceFirst(Utils.EscapeRegExp(compiled), " ", "(.+)")
  }

  /** What such a pattern denotes: literal text, a capture and literal text,
      or only literal text when the compiled template has no space. */
  datatype TagPattern = Slot(prefix: string, suffix: string) | NoSlot(text: string)

  function PatternOf(tagFormat: string): TagPattern
  {
    CompiledPattern(RenderTag(tagFormat, " "))
  }

  function CompiledPattern(compiled: string): TagPattern
  {
    var i := IndexOf(compiled, " ");
    if i == -1 then NoSlot(compiled) else Slot(compiled[..i], compiled[i + 1..])
  }

  /** The pattern text is exactly the escaped literal parts around the
      capture, so the regular expression means what `PatternOf` says. */
  lemma RegExpOfPattern(tagFormat: string)
    ensures var p := PatternOf(tagFormat);
      p.Slot? ==> TagRegExp(tagFormat) == "^" + Utils.EscapeRegExp(p.prefix) + "(.+)" + Utils.EscapeRegExp(p.suffix)
    ensures var p := PatternOf(tagFormat);
      p.NoSlot? ==> TagRegExp(tagFormat) == "^" + Utils.EscapeRegExp(p.text)
  {
    RegExpOfCompiled(RenderTag(tagFormat, " "));
  }

  lemma RegExpOfCompiled(c: string)
    ensures var p := CompiledPattern(c);
      p.Slot? ==> CompiledRegExp(c) == "^" + Utils.EscapeRegExp(p.prefix) + "(.+)" + Utils.EscapeRegExp(p.suffix)
    ensures var p := CompiledPattern(c);
      p.NoSlot? ==> CompiledRegExp(c) == "^" + Utils.EscapeRegExp(p.text)
  {
    var i := IndexOf(c, " ");
    if i == -1 {
      EscapedWithoutSpace(c);
    } else {
      EscapedAroundSpace(c, i);
    }
  }

  /** Escaping adds no space, so a text without one has no capture. */
  lemma EscapedWithoutSpace(c: string)
    requires IndexOf(c, " ") == -1
    ensures CompiledRegExp(c) == "^" + Utils.EscapeRegExp(c)
  {
    NoCharNotContains(c, ' ');
    Utils.EscapeNoChar(c, ' ');
    NoCharNotContains(Utils.EscapeRegExp(c), ' ');
  }

  /** The first space of the text is the first space of its escaped form. */
  lemma EscapedAroundSpace(c: string, i: nat)
    requires i < |c| && IndexOf(c, " ") == i
    ensures CompiledRegExp(c) == "^" + Utils.EscapeRegExp(c[..i]) + "(.+)" + Utils.EscapeRegExp(c[i + 1..])
  {
    SplitAtFirstChar(c, ' ', i);
    EscapedFirstSpace(c[..i], c[i + 1..]);
  }

  lemma EscapedFirstSpace(a: string, b: string)
    requires NoChar(a, ' ')
    ensures ReplaceFirst(Utils.EscapeRegExp(a + " " + b), " ", "(.+)") ==
      Utils.EscapeRegExp(a) + "(.+)" + Utils.EscapeRegExp(b)
  {
    Utils.EscapeConcat(a + " ", b);
    Utils.EscapeConcat(a, " ");
    assert Utils.EscapeRegExp(" ") == " ";
    Utils.EscapeNoChar(a, ' ');
    var ea, eb := Utils.EscapeRegExp(a), Utils.EscapeRegExp(b);
    assert Utils.EscapeRegExp(a + " " + b) == ea + " " + eb;
    FirstCharAfter(ea, ' ', eb);
    var e := ea + " " + eb;
    assert e[..|ea|] == ea && e[|ea| + 1..] == eb;
  }

  /** How many characters from `i` on `.` matches: up to a line terminator. */
  function DotRun(t: string, i: nat): (n: nat)
    requires i <= |t|
    ensures i + n <= |t|
    ensures forall k :: i <= k < i + n ==> !IsLineTerminator(t[k])
    ensures i + n < |t| ==> IsLineTerminator(t[i + n])
    decreases |t| - i
  {
    if i == |t| || IsLineTerminator(t[i]) then 0 else 1 + DotRun(t, i + 1)
  }

  /** The backtracking of the greedy `(.+)`: the longest capture of at most
      `n` characters that the literal suffix follows. */
  function Greedy(t: string, start: nat, n: nat, suffix: string): (r: Option<nat>)
    ensures r.Some? ==> 1 <= r.value <= n && OccursAt(t, suffix, start + r.value)
    ensures r.Some? ==> forall k :: start + r.value < k <= start + n ==> !OccursAt(t, suffix, k)
    ensures r.None? ==> forall k :: start + 1 <= k <= start + n ==> !OccursAt(t, suffix, k)
  {
    if n == 0 then None
    else if OccursAt(t, suffix, start + n) then Some(n)
    else Greedy(t, start, n - 1, suffix)
  }

  /** `(tag.match(tagRegexp) || new Array(2))[1]`: the captured version, or
      `undefined` when the tag does not match or there is no capture. */
  function MatchVersion(p: TagPattern, t: string): (r: Option<string>)
    ensures r.Some? ==> p.Slot? && |r.value| > 0 && StartsWith(t, p.prefix + r.value)
    ensures r.Some? ==> OccursAt(t, p.suffix, |p.prefix| + |r.value|)
    ensures r.Some? ==> forall k :: 0 <= k < |r.value| ==> !IsLineTerminator(r.value[k])
    ensures r.Some? ==> forall k :: |p.prefix| + |r.value| < k <= |p.prefix| + DotRun(t, |p.prefix|) ==> !OccursAt(t, p.suffix, k)
    ensures r.None? && p.Slot? && StartsWith(t, p.prefix) ==>
      forall k :: |p.prefix| + 1 <= k <= |p.prefix| + DotRun(t, |p.prefix|) ==> !OccursAt(t, p.suffix, k)
  {
    match p
    case NoSlot(_) => None
    case Slot(prefix, suffix) =>
      if !StartsWith(t, prefix) then None
      else
        match Greedy(t, |prefix|, DotRun(t, |prefix|), suffix)
        case None => None
        case Some(n) =>
          assert t[..|prefix| + n] == prefix + t[|prefix|..|prefix| + n];
          Some(t[|prefix|..|prefix| + n])
  }

  /** A tag made of the literal parts around a version yields that version. */
  lemma MatchRendered(prefix: string, suffix: string, v: string)
    requires |v| > 0 && forall k :: 0 <= k < |v| ==> !IsLineTerminator(v[k])
    ensures MatchVersion(Slot(prefix, suffix), prefix + v + suffix) == Some(v)
  {
    var t := prefix + v + suffix;
    assert t[..|prefix|] == prefix;
    forall k | |prefix| <= k < |prefix| + |v| ensures !IsLineTerminator(t[k]) {
      assert t[k] == v[k - |prefix|];
    }
    var run := DotRun(t, |prefix|);
    assert run >= |v|;
    assert OccursAt(t, suffix, |prefix| + |v|) by { assert t[|prefix| + |v|..|t|] == suffix; }
    assert t[|prefix|..|prefix| + |v|] == v;
  }

  lemma OccursAtHead(s: string, sub: string, k: int)
    requires |sub| > 0
    ensures OccursAt(s, sub, k) ==> s[k] == sub[0]
  {
    if OccursAt(s, sub, k) {
      assert s[k..k + |sub|][0] == s[k];
    }
  }

  /** Rendering a template with one `${version}` and no earlier `$`: the
      placeholder alone is replaced. */
  lemma RenderSingle(a: string, b: string, x: string)
    requires NoChar(a, '$') && !Contains(b, VersionSlot)
    ensures RenderTag(a + VersionSlot + b, x) == a + x + b
  {
    var s := a + VersionSlot + b;
    forall k | 0 <= k < |a| ensures !OccursAt(s, VersionSlot, k) {
      assert s[k] == a[k];
      OccursAtHead(s, VersionSlot, k);
    }
    ReplaceAllSingle(a, VersionSlot, x, b);
  }

  /** The tag the release engine creates from the template is recognised by
      the pattern built from the same template, and yields the version. */
  lemma TagRoundTrip(a: string, b: string, v: string)
    requires NoChar(a, '$') && NoChar(a, ' ') && !Contains(b, VersionSlot)
    requires |v| > 0 && forall k :: 0 <= k < |v| ==> !IsLineTerminator(v[k])
    ensures PatternOf(a + VersionSlot + b) == Slot(a, b)
    ensures MatchVersion(PatternOf(a + VersionSlot + b), RenderTag(a + VersionSlot + b, v)) == Some(v)
  {
    RenderSingle(a, b, " ");
    RenderSingle(a, b, v);
    FirstCharAfter(a, ' ', b);
    var c := a + " " + b;
    assert c[..|a|] == a && c[|a| + 1..] == b;
    MatchRendered(a, b, v);
  }

  // ---------------------------------------------------------------------
  // Filtering: isValid
  // ---------------------------------------------------------------------

  /** A tag and the version captured from it; `pre` is set while filtering. */
  datatype Tag = Tag(tag: string, version: Option<string>, pre: bool)

  /** The tags as first mapped from the raw tag names. */
  function Candidates(p: TagPattern, names: seq<string>): (r: seq<Tag>)
    ensures |r| == |names|
    ensures forall i :: 0 <= i < |names| ==> r[i] == Tag(names[i], MatchVersion(p, names[i]), false)
  {
    seq(|names|, i requires 0 <= i < |names| => Tag(names[i], MatchVersion(p, names[i]), false))
  }

  /** The version `semver.clean` reads from a tag's version text. */
  function CleanVersion(v: string): Option<Semver.Version>
  {
    Semver.Parse(Semver.StripEqV(Trim(v)))
  }

  /** `clean` succeeds exactly when `CleanVersion` does, and prints it. */
  lemma CleanVersionMeaning(v: string)
    ensures CleanVersion(v).Some? <==> Semver.Clean(v).Some?
    ensures CleanVersion(v).Some? ==> Semver.Clean(v) == Some(Semver.Format(CleanVersion(v).value))
  {
  }

  /** The captured version text, if there is a non-empty one (`tag.version`
      is truthy). */
  function VersionText(t: Tag): Option<string>
  {
    if t.version.Some? && t.version.value != "" then t.version else None
  }

  /** The production version a tag carries in semver mode: a valid version
      without pre-release identifiers. */
  function ProdVersion(t: Tag): (r: Option<Semver.Version>)
    ensures r.Some? ==> VersionText(t).Some? && CleanVersion(VersionText(t).value) == r && |r.value.pre| == 0
  {
    match VersionText(t)
    case None => None
    case Some(v) =>
      match CleanVersion(v)
      case Some(w) => if |w.pre| == 0 then Some(w) else None
      case None => None
  }

  /** `isValid(tag)`: semver mode keeps valid versions, pre-releases only
      when a pre-release identifier is configured; incremental mode keeps
      numeric versions. */
  predicate KeepTag(t: Tag, semverMode: bool, hasPreId: bool)
  {
    match VersionText(t)
    case None => false
    case Some(v) =>
      if semverMode then CleanVersion(v).Some? && (hasPreId || |CleanVersion(v).value.pre| == 0)
      else IsNumeric(v)
  }

  /** The tag as `isValid` leaves it: in semver mode `pre` is set on a tag
      with a version text unless it is a production version. */
  function Marked(t: Tag, semverMode: bool): (r: Tag)
    ensures r.tag == t.tag && r.version == t.version
  {
    t.(pre := semverMode && VersionText(t).Some? && ProdVersion(t).None?)
  }

  /** The tags a filter keeps, each as `mark` leaves it, in their order. */
  function Filter(tags: seq<Tag>, keep: Tag -> bool, mark: Tag -> Tag): seq<Tag>
  {
    if |tags| == 0 then []
    else
      var last := tags[|tags| - 1];
      Filter(tags[..|tags| - 1], keep, mark) + (if keep(last) then [mark(last)] else [])
  }

  /** Every tag a filter yields comes from a kept input tag, and every kept
      input tag is yielded. */
  lemma {:induction false} FilterMembers(tags: seq<Tag>, keep: Tag -> bool, mark: Tag -> Tag)
    ensures forall x :: x in Filter(tags, keep, mark) ==>
      exists i :: 0 <= i < |tags| && keep(tags[i]) && x == mark(tags[i])
    ensures forall i :: 0 <= i < |tags| && keep(tags[i]) ==> mark(tags[i]) in Filter(tags, keep, mark)
  {
    if |tags| > 0 {
      var init := tags[..|tags| - 1];
      FilterMembers(init, keep, mark);
      assert forall i :: 0 <= i < |init| ==> init[i] == tags[i];
    }
  }

  lemma FilterStep(tags: seq<Tag>, i: nat, keep: Tag -> bool, mark: Tag -> Tag)
    requires i < |tags|
    ensures Filter(tags[..i + 1], keep, mark) == Filter(tags[..i], keep, mark) + (if keep(tags[i]) then [mark(tags[i])] else [])
  {
    assert tags[..i + 1][..i] == tags[..i];
  }

  function KeepFn(semverMode: bool, hasPreId: bool): Tag -> bool
  {
    t => KeepTag(t, semverMode, hasPreId)
  }

  function MarkFn(semverMode: bool): Tag -> Tag
  {
    t => Marked(t, semverMode)
  }

  /** The tags `filter(isValid)` keeps, marked, in their order. */
  function Kept(tags: seq<Tag>, semverMode: bool, hasPreId: bool): seq<Tag>
  {
    Filter(tags, KeepFn(semverMode, hasPreId), MarkFn(semverMode))
  }

  /** A tag per input, in order. */
  function MapTags<U>(tags: seq<Tag>, f: Tag -> U): (r: seq<U>)
    ensures |r| == |tags| && forall i :: 0 <= i < |tags| ==> r[i] == f(tags[i])
  {
    seq(|tags|, i requires 0 <= i < |tags| => f(tags[i]))
  }

  lemma MapStep<U>(tags: seq<Tag>, i: nat, f: Tag -> U)
    requires i < |tags|
    ensures MapTags(tags[..i + 1], f) == MapTags(tags[..i], f) + [f(tags[i])]
  {
    assert tags[..i + 1][..i] == tags[..i];
  }

  /** `a < b` on two `parseInt` results: false when either is `NaN`. */
  predicate Less(a: Option<int>, b: Option<int>) { a.Some? && b.Some? && a.value < b.value }

  /** A numeric version text (`isNumeric`) with its `parseInt` value. */
  function NumEntry(t: Tag): Option<(string, Option<int>)>
  {
    match VersionText(t)
    case None => None
    case Some(v) => if IsNumeric(v) then Some((v, ParseInt(v))) else None
  }

  /** One step of the semver tracking: a higher production version replaces
      the one recorded (`rcompare(lastProdVersion, cv) > 0`). */
  function MaxStep(acc: Option<Semver.Version>, x: Option<Semver.Version>): Option<Semver.Version>
  {
    match x
    case None => acc
    case Some(w) => if acc.None? || Semver.Cmp(w, acc.value) > 0 then Some(w) else acc
  }

  /** The highest of the versions present, an earlier one winning a tie. */
  function MaxVersion(xs: seq<Option<Semver.Version>>): Option<Semver.Version>
  {
    if |xs| == 0 then None else MaxStep(MaxVersion(xs[..|xs| - 1]), xs[|xs| - 1])
  }

  /** One step of the incremental tracking:
      `parseInt(lastProdVersion) < parseInt(v)` replaces it. */
  function NumStep(acc: Option<(string, Option<int>)>, x: Option<(string, Option<int>)>): Option<(string, Option<int>)>
  {
    match x
    case None => acc
    case Some(e) => if acc.None? || Less(acc.value.1, e.1) then x else acc
  }

  function NumMaxOf(xs: seq<Option<(string, Option<int>)>>): Option<(string, Option<int>)>
  {
    if |xs| == 0 then None else NumStep(NumMaxOf(xs[..|xs| - 1]), xs[|xs| - 1])
  }

  /** `lastProdVersion` at the end of the filter. */
  function LastProdVersion(tags: seq<Tag>, semverMode: bool): Option<string>
  {
    if semverMode then
      match MaxVersion(MapTags(tags, ProdVersion)) case Some(w) => Some(Semver.Format(w)) case None => None
    else
      match NumMaxOf(MapTags(tags, NumEntry)) case Some(e) => Some(e.0) case None => None
  }

  /** `MaxVersion` is the maximum: one of the versions, none higher, and
      absent only when no version is present. */
  lemma {:induction false} MaxVersionIsMax(xs: seq<Option<Semver.Version>>)
    ensures MaxVersion(xs).None? <==> forall i :: 0 <= i < |xs| ==> xs[i].None?
    ensures MaxVersion(xs).Some? ==> exists i :: 0 <= i < |xs| && xs[i] == MaxVersion(xs)
    ensures forall i :: 0 <= i < |xs| && xs[i].Some? ==> Semver.Cmp(xs[i].value, MaxVersion(xs).value) <= 0
  {
    if |xs| > 0 {
      var init := xs[..|xs| - 1];
      MaxVersionIsMax(init);
      assert forall i :: 0 <= i < |init| ==> init[i] == xs[i];
      var acc := MaxVersion(init);
      match xs[|xs| - 1]
      case None =>
      case Some(w) =>
        if acc.Some? && Semver.Cmp(w, acc.value) > 0 {
          Semver.CmpAntisym(w, acc.value);
          forall i | 0 <= i < |init| && init[i].Some? ensures Semver.Cmp(init[i].value, w) <= 0 {
            Semver.CmpTrans(init[i].value, acc.value, w);
          }
        }
    }
  }

  /** `NumMaxOf` is one of the entries, and when its value is a number no
      entry has a higher one. */
  lemma {:induction false} NumMaxIsMax(xs: seq<Option<(string, Option<int>)>>)
    ensures NumMaxOf(xs).None? <==> forall i :: 0 <= i < |xs| ==> xs[i].None?
    ensures NumMaxOf(xs).Some? ==> exists i :: 0 <= i < |xs| && xs[i] == NumMaxOf(xs)
    ensures NumMaxOf(xs).Some? && NumMaxOf(xs).value.1.Some? ==>
      forall i :: 0 <= i < |xs| && xs[i].Some? ==> !Less(NumMaxOf(xs).value.1, xs[i].value.1)
  {
    if |xs| > 0 {
      var init := xs[..|xs| - 1];
      NumMaxIsMax(init);
      assert forall i :: 0 <= i < |init| ==> init[i] == xs[i];
    }
  }

  lemma {:induction false} MaxVersionPrefix(xs: seq<Option<Semver.Version>>, i: nat)
    requires i < |xs|
    ensures MaxVersion(xs[..i + 1]) == MaxStep(MaxVersion(xs[..i]), xs[i])
  {
    assert xs[..i + 1][..i] == xs[..i];
  }

  lemma {:induction false} NumMaxPrefix(xs: seq<Option<(string, Option<int>)>>, i: nat)
    requires i < |xs|
    ensures NumMaxOf(xs[..i + 1]) == NumStep(NumMaxOf(xs[..i]), xs[i])
  {
    assert xs[..i + 1][..i] == xs[..i];
  }

  /** What `isValid` computes for one tag, in terms of its cleaned version. */
  lemma IsValidOf(t: Tag, semverMode: bool, hasPreId: bool)
    ensures VersionText(t).None? ==>
      ProdVersion(t).None? && NumEntry(t).None? && !KeepTag(t, semverMode, hasPreId)
    ensures VersionText(t).Some? ==>
      var v := VersionText(t).value;
      var cv := CleanVersion(v);
      var isProd := cv.Some? && |cv.value.pre| == 0;
      ProdVersion(t) == (if isProd then cv else None) &&
      NumEntry(t) == (if IsNumeric(v) then Some((v, ParseInt(v))) else None) &&
      KeepTag(t, semverMode, hasPreId) == (if semverMode then cv.Some? && (hasPreId || isProd) else IsNumeric(v))
    ensures Marked(t, semverMode) == t.(pre := semverMode && VersionText(t).Some? && ProdVersion(t).None?)
  {
  }

  /** The numeric text recorded, with its `parseInt` value. */
  function NumRecord(last: Option<string>): Option<(string, Option<int>)>
  {
    if last.None? then None else Some((last.value, ParseInt(last.value)))
  }

  /** `isValid(tag)`: whether the filter keeps the tag, the tag as marked,
      and the last production version after it (a version in semver mode,
      a numeric text in incremental mode). */
  method IsValid(t: Tag, semverMode: bool, hasPreId: bool, lastProd: Option<Semver.Version>, lastNum: Option<string>)
    returns (keep: bool, marked: Tag, lastProd': Option<Semver.Version>, lastNum': Option<string>)
    ensures keep == KeepTag(t, semverMode, hasPreId)
    ensures marked == Marked(t, semverMode)
    ensures semverMode ==> lastProd' == MaxStep(lastProd, ProdVersion(t))
    ensures !semverMode ==> NumRecord(lastNum') == NumStep(NumRecord(lastNum), NumEntry(t))
  {
    IsValidOf(t, semverMode, hasPreId);
    keep, marked, lastProd', lastNum' := false, t.(pre := false), lastProd, lastNum;
    if t.version.None? || t.version.value == "" {
      return;
    }
    var v := t.version.value;
    if semverMode {
      var cv := CleanVersion(v);
      var isProd := cv.Some? && |cv.value.pre| == 0;
      if isProd && (lastProd.None? || Semver.Cmp(cv.value, lastProd.value) > 0) {
        lastProd' := cv;
      }
      marked := t.(pre := !isProd);
      keep := cv.Some? && (hasPreId || isProd);
    } else if IsNumeric(v) {
      if lastNum.None? || Less(ParseInt(lastNum.value), ParseInt(v)) {
        lastNum' := Some(v);
      }
      keep := true;
    }
  }

  /** The filter pass over the tags: keeps the tags `isValid` accepts,
      marking pre-releases, and tracks the last production version. */
  method FilterTags(tags: seq<Tag>, semverMode: bool, hasPreId: bool) returns (kept: seq<Tag>, lastProd: Option<string>)
    ensures kept == Kept(tags, semverMode, hasPreId)
    ensures lastProd == LastProdVersion(tags, semverMode)
  {
    ghost var prods := MapTags(tags, ProdVersion);
    ghost var nums := MapTags(tags, NumEntry);
    kept := [];
    var maxProd: Option<Semver.Version> := None;
    var maxNum: Option<string> := None;
    var i := 0;
    while i < |tags|
      invariant 0 <= i <= |tags|
      invariant kept == Filter(tags[..i], KeepFn(semverMode, hasPreId), MarkFn(semverMode))
      invariant semverMode ==> maxProd == MaxVersion(prods[..i])
      invariant !semverMode ==> NumMaxOf(nums[..i]) == NumRecord(maxNum)
    {
      FilterStep(tags, i, KeepFn(semverMode, hasPreId), MarkFn(semverMode));
      MaxVersionPrefix(prods, i);
      NumMaxPrefix(nums, i);
      var keep, marked;
      keep, marked, maxProd, maxNum := IsValid(tags[i], semverMode, hasPreId, maxProd, maxNum);
      if keep {
        kept := kept + [marked];
      }
      i := i + 1;
    }
    assert tags[..i] == tags && prods[..i] == prods && nums[..i] == nums;
    lastProd := if !semverMode then maxNum else if maxProd.None? then None else Some(Semver.Format(maxProd.value));
  }

  /** The production-version tracking as written: a tag whose version does
      not clean to a valid one still counts as a production version, and
      once a production version has been seen, `rcompare` throws on it. */
  function LastProdAsWritten(tags: seq<Tag>): (r: Result<Option<string>>)
    ensures r.Ok? && r.value.Some? ==> Semver.Prerelease(r.value.value).None?
    ensures (forall i :: 0 <= i < |tags| ==> VersionText(tags[i]).None?) ==> r == Ok(None)
  {
    if |tags| == 0 then Ok(None)
    else
      match LastProdAsWritten(tags[..|tags| - 1])
      case Err(e) => Err(e)
      case Ok(acc) =>
        match VersionText(tags[|tags| - 1])
        case None => Ok(acc)
        case Some(v) =>
          var cv := Semver.Clean(v);
          var isProd := cv.None? || Semver.Prerelease(cv.value).None?;
          if !isProd then Ok(acc)
          else if acc.None? then Ok(cv)
          else if cv.None? then Err("TypeError: Invalid Version")
          else
            match Semver.RCompare(acc.value, cv.value)
            case Err(e) => Err(e)
            case Ok(c) => Ok(if c > 0 then cv else acc)
  }

  /** As written, a tag that matches the template but whose version is not
      valid (`v1.0` against `v${version}`) makes the whole lookup throw once
      a production tag came before it. */
  lemma InvalidAfterProdThrows(tags: seq<Tag>, t: Tag)
    requires LastProdAsWritten(tags).Ok? && LastProdAsWritten(tags).value.Some?
    requires VersionText(t).Some? && Semver.Clean(VersionText(t).value).None?
    ensures LastProdAsWritten(tags + [t]).Err?
  {
    assert (tags + [t])[..|tags|] == tags;
  }

  /** The corrected tracking never throws, and an invalid version leaves it
      unchanged. */
  lemma InvalidIgnored(tags: seq<Tag>, t: Tag)
    requires VersionText(t).Some? && Semver.Clean(VersionText(t).value).None?
    ensures ProdVersion(t).None?
    ensures MaxVersion(MapTags(tags + [t], ProdVersion)) == MaxVersion(MapTags(tags, ProdVersion))
    ensures !KeepTag(t, true, true) && !KeepTag(t, true, false)
  {
    CleanVersionMeaning(VersionText(t).value);
    InvalidNotKept(t);
    MaxIgnoresNone(tags, t, ProdVersion);
  }

  /** A tag whose version text does not clean is neither kept in semver
      mode nor a production version. */
  lemma InvalidNotKept(t: Tag)
    requires VersionText(t).Some? && CleanVersion(VersionText(t).value).None?
    ensures ProdVersion(t).None? && !KeepTag(t, true, true) && !KeepTag(t, true, false)
  {
  }

  /** A tag without a version leaves the highest version alone. */
  lemma MaxIgnoresNone(tags: seq<Tag>, t: Tag, f: Tag -> Option<Semver.Version>)
    requires f(t).None?
    ensures MaxVersion(MapTags(tags + [t], f)) == MaxVersion(MapTags(tags, f))
  {
    var xs := MapTags(tags + [t], f);
    assert xs[..|xs| - 1] == MapTags(tags, f);
  }

  // ---------------------------------------------------------------------
  // Sorting: doSort
  // ---------------------------------------------------------------------

  /** The version `rcompare` reads from a tag: the uncleaned text. */
  function RawVersion(t: Tag): Option<Semver.Version>
  {
    if t.version.None? then None else Semver.Parse(t.version.value)
  }

  function ParseIntOf(t: Tag): Option<int>
  {
    if t.version.None? then None else ParseInt(t.version.value)
  }

  /** `doSort(a, b)` as the source computes it; `rcompare` throws unless
      both versions parse. */
  function DoSort(semverMode: bool, a: Tag, b: Tag): (r: Result<int>)
    ensures semverMode ==> (r.Ok? <==> RawVersion(a).Some? && RawVersion(b).Some?)
    ensures !semverMode ==> r.Ok?
  {
    if semverMode then
      (if a.version.None? || b.version.None? then Err("TypeError: Invalid Version")
       else Semver.RCompare(a.version.value, b.version.value))
    else if a.version == b.version then Ok(0)
    else if Less(ParseIntOf(b), ParseIntOf(a)) then Ok(-1)
    else Ok(1)
  }

  /** `a` sorts before `b`: its version is strictly higher. */
  predicate Before(semverMode: bool, a: Tag, b: Tag)
  {
    if semverMode then RawVersion(a).Some? && RawVersion(b).Some? && Semver.Cmp(RawVersion(a).value, RawVersion(b).value) > 0
    else a.version != b.version && Less(ParseIntOf(b), ParseIntOf(a))
  }

  /** The comparator puts `a` first exactly when `a` is `Before` `b`. */
  lemma DoSortMeaning(semverMode: bool, a: Tag, b: Tag)
    ensures DoSort(semverMode, a, b).Ok? ==> (DoSort(semverMode, a, b).value < 0 <==> Before(semverMode, a, b))
  {
    if semverMode && RawVersion(a).Some? && RawVersion(b).Some? {
      Semver.CmpAntisym(RawVersion(a).value, RawVersion(b).value);
    }
  }

  lemma BeforeAsymmetric(m: bool, a: Tag, b: Tag)
    ensures Before(m, a, b) ==> !Before(m, b, a)
  {
    if m && RawVersion(a).Some? && RawVersion(b).Some? {
      Semver.CmpAntisym(RawVersion(a).value, RawVersion(b).value);
    }
  }

  /** Whatever is not above `b` is not above anything above `b`. */
  lemma BeforeTrans(m: bool, a: Tag, b: Tag, c: Tag)
    requires !Before(m, a, b) && Before(m, c, b)
    ensures !Before(m, a, c)
  {
    if m && RawVersion(a).Some? {
      var ka, kb, kc := RawVersion(a).value, RawVersion(b).value, RawVersion(c).value;
      Semver.CmpAntisym(kc, kb);
      Semver.CmpTrans(ka, kb, kc);
    }
  }

  /** No tag is above one that comes before it. */
  predicate SortedDesc(m: bool, s: seq<Tag>)
  {
    forall i, j :: 0 <= i < j < |s| ==> !Before(m, s[j], s[i])
  }

  /** Stable insertion: `x` goes before the first tag it is above. */
  function Insert(m: bool, x: Tag, s: seq<Tag>): (r: seq<Tag>)
    ensures multiset(r) == multiset(s) + multiset{x}
  {
    if |s| == 0 then [x]
    else if Before(m, x, s[0]) then [x] + s
    else
      assert s == [s[0]] + s[1..];
      [s[0]] + Insert(m, x, s[1..])
  }

  /** The tags in descending version order; ties keep their order. */
  function SortTagsDesc(m: bool, s: seq<Tag>): (r: seq<Tag>)
    ensures multiset(r) == multiset(s)
  {
    if |s| == 0 then []
    else
      assert s == s[..|s| - 1] + [s[|s| - 1]];
      Insert(m, s[|s| - 1], SortTagsDesc(m, s[..|s| - 1]))
  }

  lemma {:induction false} InsertSorted(m: bool, x: Tag, s: seq<Tag>)
    requires SortedDesc(m, s)
    ensures SortedDesc(m, Insert(m, x, s))
    decreases |s|
  {
    if |s| > 0 {
      var r := Insert(m, x, s);
      if Before(m, x, s[0]) {
        BeforeAsymmetric(m, x, s[0]);
        forall j | 1 <= j < |r| ensures !Before(m, r[j], r[0]) {
          if j > 1 { BeforeTrans(m, s[j - 1], s[0], x); }
        }
      } else {
        InsertSorted(m, x, s[1..]);
        var rest := Insert(m, x, s[1..]);
        forall j | 0 <= j < |rest| ensures !Before(m, rest[j], s[0]) {
          assert rest[j] in multiset(rest);
          assert rest[j] in s[1..] || rest[j] == x;
        }
      }
    }
  }

  lemma {:induction false} SortSorted(m: bool, s: seq<Tag>)
    ensures SortedDesc(m, SortTagsDesc(m, s))
    decreases |s|
  {
    if |s| > 0 {
      SortSorted(m, s[..|s| - 1]);
      InsertSorted(m, s[|s| - 1], SortTagsDesc(m, s[..|s| - 1]));
    }
  }

  /** `tags.sort(doSort)`: in semver mode `rcompare` throws on a version it
      cannot parse uncleaned, which a sort of two or more tags reaches. */
  function SortTags(kept: seq<Tag>, m: bool): (r: Result<seq<Tag>>)
    ensures r.Err? <==> m && |kept| >= 2 && exists k :: 0 <= k < |kept| && RawVersion(kept[k]).None?
    ensures r.Ok? ==> multiset(r.value) == multiset(kept) && SortedDesc(m, r.value)
  {
    if m && |kept| >= 2 && exists k :: 0 <= k < |kept| && RawVersion(kept[k]).None? then Err("TypeError: Invalid Version")
    else
      SortSorted(m, kept);
      Ok(SortTagsDesc(m, kept))
  }

  // ---------------------------------------------------------------------
  // Selection and result
  // ---------------------------------------------------------------------

  /** The first tag in HEAD's history (`pLocate` preserving order). */
  function FirstInHistory(s: seq<Tag>, inHistory: (string, bool) -> bool): (r: Option<nat>)
    ensures r.Some? ==> r.value < |s| && inHistory(s[r.value].tag, s[r.value].pre)
    ensures r.Some? ==> forall j :: 0 <= j < r.value ==> !inHistory(s[j].tag, s[j].pre)
    ensures r.None? ==> forall j :: 0 <= j < |s| ==> !inHistory(s[j].tag, s[j].pre)
  {
    if |s| == 0 then None
    else if inHistory(s[0].tag, s[0].pre) then Some(0)
    else match FirstInHistory(s[1..], inHistory)
      case None => None
      case Some(i) => Some(i + 1)
  }

  /** The find-first loop. */
  method Locate(s: seq<Tag>, inHistory: (string, bool) -> bool) returns (found: Option<nat>)
    ensures found == FirstInHistory(s, inHistory)
  {
    var i := 0;
    while i < |s|
      invariant 0 <= i <= |s|
      invariant forall j :: 0 <= j < i ==> !inHistory(s[j].tag, s[j].pre)
    {
      if inHistory(s[i].tag, s[i].pre) {
        FirstIsUnique(s, inHistory, i);
        return Some(i);
      }
      i := i + 1;
    }
    FirstIsUnique(s, inHistory, -1);
    return None;
  }

  /** The first index in history is determined by the ones before it. */
  lemma FirstIsUnique(s: seq<Tag>, inHistory: (string, bool) -> bool, i: int)
    requires -1 <= i < |s|
    requires forall j :: 0 <= j < (if i == -1 then |s| else i) ==> !inHistory(s[j].tag, s[j].pre)
    requires i >= 0 ==> inHistory(s[i].tag, s[i].pre)
    ensures FirstInHistory(s, inHistory) == if i == -1 then None else Some(i)
  {
    var r := FirstInHistory(s, inHistory);
    if r.Some? && i >= 0 {
      assert !(r.value < i) && !(i < r.value);
    }
  }

  /** `IRelease`: absent fields are `None`. */
  datatype Release = Release(
    head: Option<string>, tag: Option<string>, version: Option<string>, pre: bool,
    lastProdVersion: Option<string>, versionInfo: Context.VersionInfo)

  /** What `getLastRelease` returns, or the error it throws. */
  function LastReleaseOf(tagFormat: string, tagsRaw: seq<string>, info: Context.VersionInfo, hasPreId: bool,
                         inHistory: (string, bool) -> bool, tagHead: string -> string): (r: Result<Release>)
    ensures r.Ok? ==> r.value.versionInfo == info
    ensures r.Ok? && r.value.tag.None? ==> r.value == Release(None, None, None, false, None, info)
  {
    ReleaseFrom(Candidates(PatternOf(tagFormat), tagsRaw), info, hasPreId, inHistory, tagHead)
  }

  /** The outcome for the candidate tags read from the tag names. */
  function ReleaseFrom(tags: seq<Tag>, info: Context.VersionInfo, hasPreId: bool,
                       inHistory: (string, bool) -> bool, tagHead: string -> string): (r: Result<Release>)
    ensures r.Ok? ==> r.value.versionInfo == info
    ensures r.Ok? && r.value.tag.None? ==> r.value == Release(None, None, None, false, None, info)
  {
    var m := info.system != "incremental";
    match SortTags(Kept(tags, m, hasPreId), m)
    case Err(e) => Err(e)
    case Ok(sorted) =>
      match FirstInHistory(sorted, inHistory)
      case None => Ok(Release(None, None, None, false, None, info))
      case Some(i) =>
        var t := sorted[i];
        Ok(Release(Some(tagHead(t.tag)), Some(t.tag), t.version, t.pre, LastProdVersion(tags, m), info))
  }

  /** `getLastRelease(context, lastVersionInfo)`. */
  method GetLastRelease(tagFormat: string, tagsRaw: seq<string>, info: Context.VersionInfo, hasPreId: bool,
                        inHistory: (string, bool) -> bool, tagHead: string -> string) returns (r: Result<Release>)
    ensures r == LastReleaseOf(tagFormat, tagsRaw, info, hasPreId, inHistory, tagHead)
  {
    var m := info.system != "incremental";
    var tags := Candidates(PatternOf(tagFormat), tagsRaw);
    var kept, lastProd := FilterTags(tags, m, hasPreId);
    var sorted := SortTags(kept, m);
    if sorted.Err? {
      return Err(sorted.msg);
    }
    var found := Locate(sorted.value, inHistory);
    if found.None? {
      return Ok(Release(None, None, None, false, None, info));
    }
    var t := sorted.value[found.value];
    return Ok(Release(Some(tagHead(t.tag)), Some(t.tag), t.version, t.pre, lastProd, info));
  }

  /** The first tag in history of a descending arrangement of the kept
      tags is kept, and no kept tag in history is above it. */
  lemma FirstIsHighest(m: bool, kept: seq<Tag>, s: seq<Tag>, inHistory: (string, bool) -> bool)
    requires multiset(s) == multiset(kept) && SortedDesc(m, s) && FirstInHistory(s, inHistory).Some?
    ensures var t := s[FirstInHistory(s, inHistory).value];
      t in kept && inHistory(t.tag, t.pre) && forall u :: u in kept && inHistory(u.tag, u.pre) ==> !Before(m, u, t)
  {
    var i := FirstInHistory(s, inHistory).value;
    var t := s[i];
    assert t in multiset(s);
    forall u | u in kept && inHistory(u.tag, u.pre) ensures !Before(m, u, t) {
      assert u in multiset(kept);
      var j :| 0 <= j < |s| && s[j] == u;
      assert !(j < i);
      if j == i { BeforeAsymmetric(m, t, t); }
    }
  }

  /** The release found is a kept tag in HEAD's history, and no kept tag in
      HEAD's history has a higher version. */
  lemma HighestInHistory(tags: seq<Tag>, info: Context.VersionInfo, hasPreId: bool,
                         inHistory: (string, bool) -> bool, tagHead: string -> string)
    ensures var r := ReleaseFrom(tags, info, hasPreId, inHistory, tagHead);
      var m := info.system != "incremental";
      var kept := Kept(tags, m, hasPreId);
      r.Ok? && r.value.tag.Some? ==>
        exists t :: t in kept && inHistory(t.tag, t.pre) && r.value.tag == Some(t.tag) && r.value.version == t.version &&
          r.value.pre == t.pre && r.value.head == Some(tagHead(t.tag)) && r.value.lastProdVersion == LastProdVersion(tags, m) &&
          forall u :: u in kept && inHistory(u.tag, u.pre) ==> !Before(m, u, t)
  {
    var r := ReleaseFrom(tags, info, hasPreId, inHistory, tagHead);
    if r.Ok? && r.value.tag.Some? {
      var m := info.system != "incremental";
      var kept := Kept(tags, m, hasPreId);
      ReleaseFromParts(tags, info, hasPreId, inHistory, tagHead);
      var sorted := SortTags(kept, m).value;
      FirstIsHighest(m, kept, sorted, inHistory);
      var t := sorted[FirstInHistory(sorted, inHistory).value];
      assert t in kept && r.value.tag == Some(t.tag);
    }
  }

  /** A release with a tag comes from the first tag in history of the
      sorted kept tags. */
  lemma ReleaseFromParts(tags: seq<Tag>, info: Context.VersionInfo, hasPreId: bool,
                         inHistory: (string, bool) -> bool, tagHead: string -> string)
    requires var r := ReleaseFrom(tags, info, hasPreId, inHistory, tagHead); r.Ok? && r.value.tag.Some?
    ensures var m := info.system != "incremental";
      var s := SortTags(Kept(tags, m, hasPreId), m);
      s.Ok? && FirstInHistory(s.value, inHistory).Some? &&
      var t := s.value[FirstInHistory(s.value, inHistory).value];
      ReleaseFrom(tags, info, hasPreId, inHistory, tagHead).value ==
        Release(Some(tagHead(t.tag)), Some(t.tag), t.version, t.pre, LastProdVersion(tags, m), info)
  {
  }

  /** A kept tag carries the name of one of the input tags. */
  lemma KeptNames(tags: seq<Tag>, m: bool, h: bool)
    ensures forall x :: x in Kept(tags, m, h) ==> exists i :: 0 <= i < |tags| && x.tag == tags[i].tag
  {
    FilterMembers(tags, KeepFn(m, h), MarkFn(m));
  }

  /** When no tag is in HEAD's history, under either pre-release marking,
      the result carries only the local version information. */
  lemma NoTagInHistory(tags: seq<Tag>, info: Context.VersionInfo, hasPreId: bool,
                       inHistory: (string, bool) -> bool, tagHead: string -> string)
    requires forall i :: 0 <= i < |tags| ==> !inHistory(tags[i].tag, false) && !inHistory(tags[i].tag, true)
    ensures var r := ReleaseFrom(tags, info, hasPreId, inHistory, tagHead);
      r.Ok? ==> r.value == Release(None, None, None, false, None, info)
  {
    var m := info.system != "incremental";
    var kept := Kept(tags, m, hasPreId);
    KeptNames(tags, m, hasPreId);
    var sorted := SortTags(kept, m);
    if sorted.Ok? {
      NoneInHistory(kept, sorted.value, inHistory);
    }
  }

  lemma NoneInHistory(kept: seq<Tag>, s: seq<Tag>, inHistory: (string, bool) -> bool)
    requires multiset(s) == multiset(kept)
    requires forall x :: x in kept ==> !inHistory(x.tag, x.pre)
    ensures FirstInHistory(s, inHistory).None?
  {
    forall j | 0 <= j < |s| ensures !inHistory(s[j].tag, s[j].pre) {
      assert s[j] in multiset(kept);
    }
    FirstIsUnique(s, inHistory, -1);
  }
}
