# app-publisher release engine, in Dafny

A model of the release decision and versioning engine of app-publisher,
and of the string transformers it relies on, with proofs of what each part
promises.

What the model covers, source file by source file:

- **The release run** (`src/index.ts`). It models `runRelease` from option
  validation to the point where the changelog edits and the releases
  begin. This includes the three task levels, the reconciliation of the
  last release with the local version, the check for relevant commits,
  the choice of the next version (computed, prompted or forced) and its
  tag. The records the run fills in live in the class `ReleaseRun.Run`.
- **Option validation** (`src/lib/validate-options.ts`). It models the
  conversion of list options, the defaults and the repository read from
  `package.json`, the repository, branch and SVN path checks, the text
  editor search, the Y/N switches, the release, MantisBT and resource file
  checks, the CI and task implications, and the task exclusivity checks.
  It works on an options object (`ValidateOptions.Options`) that is
  updated in place.
- **The local version** (`getCurrentVersion`). The `doCheck` accumulator
  reconciles the changelog, npm, app-publisher, .NET, ExtJs, pom and
  MantisBT sources and the custom version files, under the revert and
  republish modes.
- **The version sources** themselves: the changelog classification, the
  app-publisher `.publishrc` reader and writer, the makefile resource
  file, the .NET `AssemblyInfo`, and the MantisBT plugin.
- **The last release** (`getLastRelease`). Tags are matched against the
  tag template, filtered for validity, sorted from the highest version
  down, and the first one in HEAD's history is taken.
- **The next version** (`getNextVersion`), under semantic or incremental
  versioning, with pre-release chains bounded by the last production
  version.
- **The commits**. Each message is split into records by the scoped and
  unscoped grammars, then the records are sorted by the changelog
  comparator.
- **The markdown changelog.** This covers the section built from the
  commits, the header line, reading sections and the latest version back,
  and the subjects of a rendered section.
- **Setting versions** (`setVersions`, `setVersionFiles`): the file
  operations for the version files and their `setFiles` targets.
- **The npm release.** `setPackageJson` and `restorePackageJson` form a
  round trip over the module-level defaults (`NpmRelease.NpmState`), and
  `doNpmRelease` packs and publishes.
- **Help generation** (`src/help/generate-help.ts`): the word wrapping of
  `buildHelp` and the `args.ts` and `interface.ts` texts.
- **The utilities**: regular expression and shell escaping with their
  round trips, version validation and systems, `properCase`, version tag
  substitution, and text with ellipses.

Support modules:

| module | models |
|---|---|
| `Text` | JavaScript string operations |
| `Semver` | node-semver parsing, comparison and `inc` |
| `JsNumber` | `parseInt` and `Number` |
| `Paths` | `path` for POSIX paths |
| `Regexes` | the fixed regular expressions, as recognisers |

File system, process and network effects become values. Readers take
their file contents as inputs, and writers return the `FileOp` requests
they would perform.

## Model

| member | source | states |
|---|---|---|
| Utils.CheckExitCode | src/lib/utils/utils.ts:61-72 | an error is raised exactly when the code is non-zero and `throwOnError` is set, with the "Sub-process failed with exit code" message |
| Utils.EscapeRegExp | src/lib/utils/utils.ts:149-152 | the escaped text is one character longer per special character and unchanged when there is none |
| Utils.EscapeConcat | src/lib/utils/utils.ts:149-152 | escaping distributes over concatenation |
| Utils.EscapeNoChar | src/lib/utils/utils.ts:149-152 | escaping adds no character other than backslashes |
| Utils.UnescapeEscape | src/lib/utils/utils.ts:149-152 | the escaped text, read as a pattern, stands for exactly the original text |
| Utils.EscapedSpecialsArePaired | src/lib/utils/utils.ts:149-152 | every special character of the input sits right after a backslash in the escaped text |
| Utils.Repeat | src/lib/utils/utils.ts:169-182 | the doubling loop returns `n` copies of `s` |
| Utils.RepeatHalve | src/lib/utils/utils.ts:172-180 | one round of the loop: the low bit of `n` decides the append and the rest is `n / 2` copies of `s + s` |
| Utils.StripLeadingPairsMeaning | src/lib/utils/utils.ts:234 | dropping the leading `''` pairs does not change the word a POSIX shell reads |
| Utils.SameEffect | src/lib/utils/utils.ts:235 | `\'''` and `\'` take the shell to the same state with the same text, so the second clean-up is harmless |
| Utils.ReplaceAllMeaning | src/lib/utils/utils.ts:235 | replacing every `\'''` by `\'` keeps the shell's reading |
| Utils.PosixEscape | src/lib/utils/utils.ts:229-238 | an argument of only safe characters passes unchanged |
| Utils.PosixEscapeRoundTrip | src/lib/utils/utils.ts:229-238 | a POSIX shell reads every non-empty escaped argument back as the argument |
| Utils.PosixEscapeDropsEmpty | src/lib/utils/utils.ts:229-238 | an empty argument stays empty, so the shell sees no word for it |
| Utils.QuoteWinArg | src/lib/utils/utils.ts:190-220 | the character loop with its pending-backslash counter builds the opening quote followed by the quoted body |
| Utils.WinDecodeBody | src/lib/utils/utils.ts:194-218 | the C runtime reads the quoted body back as the pending backslashes and the text |
| Utils.WinEscapeRoundTrip | src/lib/utils/utils.ts:186-223 | the C runtime's argument decoding reads every non-empty Windows-escaped argument back as the argument |
| Utils.ShellEscapedRoundTrip | src/lib/utils/utils.ts:184-239 | on either platform the shell reads each non-empty escaped argument back as the argument |
| Utils.EscapeShellArgs | src/lib/utils/utils.ts:165-242 | one escaped argument per argument, each read back by the platform's shell as the original, and the joined form is the arguments joined by spaces |
| Utils.GetVersionSystem | src/lib/utils/utils.ts:378-385 | the result is "semver" or "incremental" |
| Utils.VersionTextIsSemver | src/lib/utils/utils.ts:378-385 | the text of a well-formed version is classified "semver" |
| Utils.CleanValidIsSemver | src/lib/utils/utils.ts:378-385 | text that cleans to a valid version is "semver" |
| Utils.NumberTextIsIncremental | src/lib/utils/utils.ts:378-385 | a plain number is "incremental" |
| Utils.UncleanIsIncremental | src/lib/utils/utils.ts:378-385 | non-empty text that does not clean is "incremental" |
| JsNumber.DigitsAreNumeric | src/lib/utils/utils.ts:388-398 | a run of decimal digits is numeric |
| JsNumber.ParseIntOfDigits | src/lib/utils/utils.ts:592-595 | digits read the same by `parseInt(s)` and `parseInt(s, 10)` |
| JsNumber.ParseIntOfString | src/lib/utils/utils.ts:592-595 | a printed number reads back as itself |
| Utils.SemverValid | src/lib/utils/utils.ts:592 | an error exactly when `gt` throws on an invalid last version, true exactly when the version is valid and above the last one or there is no last one |
| Utils.ValidateVersion | src/lib/utils/utils.ts:583-596 | "incremental" uses the numeric rule, any other named system the semver rule, and "auto" or none either rule, failing only where the semver rule throws |
| Utils.IncPassesValidation | src/lib/utils/utils.ts:592 | a version made by `inc` from the last one passes the semver check against it |
| Utils.GreaterPassesValidation | src/lib/utils/utils.ts:592 | any well-formed version above the last passes the semver check |
| Utils.NextNumberPassesValidation | src/lib/utils/utils.ts:594 | the next incremental number passes against the last, and not the other way round |
| Utils.NumbersCompare | src/lib/utils/utils.ts:594 | between two plain numbers the incremental check compares their values |
| Utils.IncrementalOfReadings | src/lib/utils/utils.ts:594 | two numeric texts compare by their `parseInt` readings |
| Utils.ProperCase | src/lib/utils/utils.ts:450-461 | the result keeps the length, and each character is raised, lowered or kept by the word-start rule |
| Utils.ProperCaseIdempotent | src/lib/utils/utils.ts:450-461 | proper-casing twice equals proper-casing once |
| Utils.ProperCaseLastLetter | src/lib/utils/utils.ts:457-458 | a one-letter last word stays lower case: "a b" becomes "A b" |
| Utils.ShortVersion | src/lib/utils/utils.ts:468-481 | the result is a prefix of the version, all of it with up to three parts, and exactly its first three parts otherwise |
| Utils.ReplaceVersionTagNoTag | src/lib/utils/utils.ts:491-496 | text without `VERSION` passes unchanged |
| Utils.ReplaceTagOnce | src/lib/utils/utils.ts:491-496 | one tag between tag-free texts is replaced by the value and nothing else changes |
| Utils.ReplaceVersionTagVersion | src/lib/utils/utils.ts:493 | a `$(VERSION)` or `---VERSION---` tag becomes the next version |
| Utils.ReplaceVersionTagNext | src/lib/utils/utils.ts:494 | a `NEXTVERSION` tag becomes the next version |
| Utils.ReplaceVersionTagLast | src/lib/utils/utils.ts:495 | a `LASTVERSION` tag becomes the last version, or the text "undefined" when there is none |
| Utils.TextWithEllipses | src/lib/utils/utils.ts:573-580 | short text, or no limit, keeps the text; longer text is cut to a prefix ending in "..." whose length is the limit (3 when the limit is below 3) |
| Regexes.FirstWhereFirst | src/lib/definitions/regexes.ts:19-20 | the lazy body `[^]*?` stops at the first position where its lookahead holds, and nothing before it does |
| Regexes.ScopedHeaderSpans | src/lib/definitions/regexes.ts:19 | the type and the scope of `type(scope):` are the longest runs of their classes, so no backtracking changes them |
| Regexes.UnscopedHeaderSpan | src/lib/definitions/regexes.ts:20 | the type of `type:` is the longest run of letters |
| Regexes.ExecWithLeftmost | src/lib/definitions/regexes.ts:19-20 | `exec` finds the leftmost match after `lastIndex`, and none when no position matches |
| Regexes.AllMatches | src/lib/definitions/regexes.ts:19-20 | the global `exec` loop visits matches in increasing order, each one the grammar's match at its start |
| Regexes.AllMatchesAreMatches | src/lib/definitions/regexes.ts:19-20 | each visited match is the grammar's match at its own start |
| Regexes.MatchShape | src/lib/definitions/regexes.ts:19-20 | a match starts a line, its type is a non-empty run of letters, its body follows the colon and blanks and stops at the first boundary |
| Regexes.MatchStopsFirst | src/lib/definitions/regexes.ts:19-20 | no position inside a body is a boundary: the match is the shortest the lookahead allows |
| Regexes.PlainScopeIsBoundary | src/lib/definitions/regexes.ts:19 | a scoped header with a scope of `[a-z0-9\- ]` after a line break ends the previous body |
| Regexes.OddScopeIsAbsorbed | src/lib/definitions/regexes.ts:19 | a scope holding `_` or `.` does not end the previous body, since the lookahead's scope class lacks them |
| Regexes.SentinelEndsBody | src/lib/definitions/regexes.ts:19-20 | `ENDMESSAGE` ends every body wherever it stands |
| Regexes.SkipWordSkipped | src/lib/definitions/regexes.ts:18 | a subject that is a skip word, in any case, is skipped when written `word: ` anywhere in the text |
| Regexes.SkipWordBeforeParen | src/lib/definitions/regexes.ts:18 | the blank before `(` is optional |
| Regexes.MdHeaderVersion | src/lib/definitions/regexes.ts:27 | the version group of a section header is made of `[0-9a-zA-Z\-\.]` |
| Regexes.AsWrittenSwallowsNextSection | src/lib/definitions/regexes.ts:27 | with the lookahead `^${versionText}` a section never ends right before the next `## ` header line |
| Regexes.SectionEndsAtNextHeader | src/lib/definitions/regexes.ts:27 | with the lookahead on `^## ${versionText}` a section ends at the next header line when nothing stops it earlier |
| Regexes.MdSectionAsWritten | src/lib/definitions/regexes.ts:26-28 | as written a section found starts at its header and ends at the first line starting with the version text, or the end marker, after the header |
| Regexes.MdSection | src/lib/definitions/regexes.ts:26-28 | a section found starts at its header and ends at the first `## <versionText>` line, or the end marker, after the header |
| Regexes.RefsAfterShape | src/lib/definitions/regexes.ts:16 | the references after a keyword start with one `#` reference and end with a digit |
| Regexes.KeywordFromFound | src/lib/definitions/regexes.ts:16 | the keyword picked stands at the position with a reference after it |
| Regexes.KeywordFromFirst | src/lib/definitions/regexes.ts:16 | the alternatives are tried in order: no earlier keyword has a reference after it there |
| Regexes.IssueGroupShape | src/lib/definitions/regexes.ts:16 | group 1 of `ISSUES` starts with an issue keyword, the first with a reference after it, holds at least one `#` reference and ends with a digit |
| Commits.CollectMatches | src/lib/get-commits.ts:194-207 | the `exec` loop collects one record per match of the grammar, in order |
| Commits.ParseCommitMessage | src/lib/get-commits.ts:182-228 | the scoped grammar's records, then the unscoped grammar's, or the commit itself when neither matched |
| Commits.ParsedKeepsCommit | src/lib/get-commits.ts:194-225 | the result is never empty and every record keeps the commit's hash, author, committer, tags and date |
| Commits.ParsedOrder | src/lib/get-commits.ts:194-221 | the scoped records come first, in message order, then the unscoped ones |
| Commits.ScopedRecordShape | src/lib/get-commits.ts:202-205 | a scoped record holds the match as message, a non-empty letter subject, the scope between the parentheses and the body |
| Commits.RecordsOfRun | src/lib/get-commits.ts:196-205 | every record keeps the commit's origin and takes its subject from the first group |
| Commits.SortSubject | src/lib/get-commits.ts:239-247 | `fix` reads as `bug fix`, a subject that starts or ends with `min` loses its first `min`, and an absent one stays absent |
| Commits.SortSubjectReads | src/lib/get-commits.ts:239-247 | the two readings on concrete subjects |
| Commits.CompareByKey | src/lib/get-commits.ts:237-287 | the comparator is the rank order: typed records, conventional messages, other messages, no message, `ci`, then `build` |
| Commits.KeyLessTrans | src/lib/get-commits.ts:237-287 | that rank order is a strict weak order |
| Commits.KeyNotLessTrans | src/lib/get-commits.ts:237-287 | "comes before" is asymmetric and "not after" is transitive |
| Commits.BuildAfterItself | src/lib/get-commits.ts:249-250 | the comparator puts a `build` record after itself, so it is not a consistent order |
| Commits.NotLowerNotConventional | src/lib/get-commits.ts:274 | a message that does not start with a lower-case letter never looks conventional |
| Commits.ConventionalLooks | src/lib/get-commits.ts:274 | a lower-case type, an optional parenthesised scope, white space and a colon look conventional |
| Commits.SortPermutes | src/lib/get-commits.ts:237 | sorting keeps every record as often as it occurs |
| Commits.SortSorted | src/lib/get-commits.ts:237 | insertion by a strict order of keys leaves the keys non-decreasing |
| Commits.SortedCommits | src/lib/get-commits.ts:231-288 | `sortCommitMessages` keeps the same records and no record compares below one that precedes it |
| Commits.SortCommitMessages | src/lib/get-commits.ts:231-288 | the array is sorted in place by the comparator and is a permutation of the old one |
| Commits.InsertNext | src/lib/get-commits.ts:237 | one pass moves the next record into the sorted prefix |
| Commits.EntryCommit | src/lib/get-commits.ts:43-54 | a log entry starts as a record with the trimmed message as message and body, and no subject or scope |
| Commits.GetCommits | src/lib/get-commits.ts:19-178 | every entry parsed into records, then all records sorted by the comparator |
| Commits.GitYieldsAll | src/lib/get-commits.ts:41-55 | a git log yields at least one record per entry |
| Commits.SortInPlace | src/lib/get-commits.ts:237 | the array ends as the insertion sort of its old contents by the given "comes first" test |
| Commits.BeforeOrdersByKey | src/lib/get-commits.ts:237-287 | the comparator's "comes first" is exactly the rank order of the records' keys |
| CurrentVersion.Check | src/lib/version/get-current-version.ts:34-84 | an empty version changes nothing; only a checked, non-republish mismatch against a recorded version fails, with "Local version file validation failed"; any other mismatch only sets the warning; the information is filled only while absent and the system changed only while unset or `auto` |
| CurrentVersion.Reconciler.DoCheck | src/lib/version/get-current-version.ts:34-84 | on success the fields hold the state `Check` gives; otherwise the validation error is returned |
| CurrentVersion.Reconciler.Perform | src/lib/version/get-current-version.ts:92-217 | one source, changelog classification or version-file requirement applied in place |
| CurrentVersion.RunSteps | src/lib/version/get-current-version.ts:91-221 | the steps run in order on the object, stopping at the first error |
| CurrentVersion.SourceSteps | src/lib/version/get-current-version.ts:91-146 | the changelog, npm, app-publisher, .NET, ExtJs, pom and MantisBT sources in that order, the changelog checked with `throwError` false or only classifying |
| CurrentVersion.DotNetInfo | src/lib/version/get-current-version.ts:129 | the .NET reader's `versionSystem` field is not seen as a system, nor is extra information |
| CurrentVersion.Fallback | src/lib/version/get-current-version.ts:223-237 | without a version from any source the result is `versionForceNext`, or the first-release version when that is unset |
| CurrentVersion.GetCurrentVersion | src/lib/version/get-current-version.ts:23-253 | the method's result is the reconciliation of every source, version file and fallback |
| CurrentVersion.ReadVersionFiles | src/lib/version/get-current-version.ts:176-221 | the loop over `versionFiles` runs each file's steps in order and stops at the first error |
| CurrentVersion.ReadVersionFile | src/lib/version/get-current-version.ts:180-218 | an entry with `setFiles` or a missing file is skipped; a JSON file must have a version; otherwise every non-empty capture is checked and one is required |
| CurrentVersion.CheckCaptures | src/lib/version/get-current-version.ts:201-212 | every first group goes to `doCheck` in turn, and `matched` says whether one was non-empty |
| CurrentVersion.AnyNonEmptyMeans | src/lib/version/get-current-version.ts:201-214 | the file counts as matched exactly when some capture is non-empty |
| CurrentVersion.RunAgrees | src/lib/version/get-current-version.ts:36-84 | without `taskRevert` and `republish`, a successful run leaves a version that every checked source agrees with, up to dots under the incremental system, and is empty only when no source reported one |
| CurrentVersion.ReconcileAgrees | src/lib/version/get-current-version.ts:23-253 | the same for `getCurrentVersion` as a whole, with the fallback when nothing reported a version |
| CurrentVersion.ReconcileReadingsAgree | src/lib/version/get-current-version.ts:121-146 | the npm, app-publisher, .NET, ExtJs, pom and MantisBT readings each agree with the settled version |
| CurrentVersion.ChangelogNeverThrows | src/lib/version/get-current-version.ts:91-92 | whatever the changelog reports never makes the run fail |
| CurrentVersion.ReconcileLenient | src/lib/version/get-current-version.ts:51-66 | under `republish` a mismatch only warns, and under `taskRevert` nothing is compared: only a version file without a version fails |
| CurrentVersion.SourcesLenient | src/lib/version/get-current-version.ts:51-66 | under `republish` or `taskRevert` none of the built-in sources fails |
| CurrentVersion.RevertNeverWarns | src/lib/version/get-current-version.ts:51 | under `taskRevert` the warning is never set |
| CurrentVersion.RunErrMessage | src/lib/version/get-current-version.ts:59-217 | every error the run raises is the validation failure |
| CurrentVersion.UnmatchedFileFails | src/lib/version/get-current-version.ts:214-218 | an existing version file that yields no version makes the run fail |
| CurrentVersion.SystemSticks | src/lib/version/get-current-version.ts:72-79 | once the system is set to something other than `auto`, no source changes it |
| CurrentVersion.ChangelogSystemWins | src/lib/version/get-current-version.ts:114-115 | when the changelog is not validated, its system is the result's system |
| CurrentVersion.Reconciler.constructor | src/lib/version/get-current-version.ts:25-32 | the reconciliation starts with no version, system or information and no warning, under the given revert and republish modes |
| CurrentVersion.SourcesLeadAll | src/lib/version/get-current-version.ts:121-146 | the npm, app-publisher, .NET, ExtJs, pom and MantisBT readings are checked in that order, after the changelog and before the version files |
| CurrentVersion.ChangelogLeads | src/lib/version/get-current-version.ts:91-117 | when the changelog is not validated it only sets the system, first, and no later source sets the system |
| CurrentVersion.ClassifyThenSticks | src/lib/version/get-current-version.ts:72-79 | a run that starts by setting a system other than `auto` and never sets it again ends with that system |
| CurrentVersion.CheckKeepsDotless | src/lib/version/get-current-version.ts:41-49 | a check never changes the recorded version beyond removing its dots |
| CurrentVersion.DotlessIdempotent | src/lib/version/get-current-version.ts:42-48 | removing the dots a second time changes nothing |
| CurrentVersion.RunLenient | src/lib/version/get-current-version.ts:51-66 | a run of steps none of which can fail under the current modes never fails |
| CurrentVersion.FilesLenient | src/lib/version/get-current-version.ts:51-66 | under `republish` or `taskRevert` a version file that yields a version never fails its checks |
| CurrentVersion.ChangelogReaderSystem | src/lib/version/changelog.ts:6-24 | the changelog reader's system is never unset and never `auto` |
| LastRelease.RegExpOfPattern | src/lib/get-last-release.ts:96 | the pattern is the escaped literal parts of the template around one `(.+)` capture in place of the first space |
| LastRelease.EscapedWithoutSpace | src/lib/get-last-release.ts:96 | a template without `${version}` renders without a space, so the pattern has no capture |
| LastRelease.MatchVersion | src/lib/get-last-release.ts:99 | the captured version, or none when the tag does not match or the pattern has no capture |
| LastRelease.MatchRendered | src/lib/get-last-release.ts:96-99 | a tag made of the literal parts around a one-line version yields that version |
| LastRelease.TagRoundTrip | src/lib/get-last-release.ts:96-99 | the tag rendered from the template with a version is recognised by the pattern of the same template and yields the version |
| LastRelease.CleanVersionMeaning | src/lib/get-last-release.ts:47 | `clean` succeeds exactly when the version text cleans, and prints the cleaned version |
| LastRelease.Marked | src/lib/get-last-release.ts:43-61 | in semver mode `pre` is set on a tag unless it carries a production version |
| LastRelease.IsValidOf | src/lib/get-last-release.ts:38-79 | a tag is kept in semver mode when its cleaned version is valid and is a production version or a pre-release id is set; in incremental mode when its version is numeric |
| LastRelease.IsValid | src/lib/get-last-release.ts:38-79 | the keep decision, the marked tag and the last production version after this tag, the highest so far |
| LastRelease.FilterTags | src/lib/get-last-release.ts:100 | the kept tags are the marked tags `isValid` accepts, in order, and the last production version is the highest production version among all tags (numeric maximum in incremental mode) |
| LastRelease.MaxVersionIsMax | src/lib/get-last-release.ts:51-58 | the tracked production version is one of the versions, no version is higher, and it is absent only when there is none |
| LastRelease.NumMaxIsMax | src/lib/get-last-release.ts:66-73 | the tracked incremental version is one of the entries and no numeric entry is higher |
| LastRelease.InvalidAfterProdThrows | src/lib/get-last-release.ts:56 | as written, a tag whose version does not clean throws once a production tag came before it |
| LastRelease.LastProdAsWritten | src/lib/get-last-release.ts:34-60 | as written, the production version tracked has no pre-release part, and no tag carrying a version leaves it unset |
| LastRelease.InvalidIgnored | src/lib/get-last-release.ts:47-58 | the corrected tracking never throws and an invalid version leaves it unchanged |
| LastRelease.InvalidNotKept | src/lib/get-last-release.ts:47-62 | a tag whose version does not clean is neither kept in semver mode nor a production version |
| LastRelease.DoSort | src/lib/get-last-release.ts:81-87 | an error when `rcompare` cannot parse a version; otherwise a negative result puts the higher version first, and in incremental mode the higher number |
| LastRelease.DoSortMeaning | src/lib/get-last-release.ts:81-87 | the comparator puts `a` first exactly when `a` is above `b` |
| LastRelease.BeforeTrans | src/lib/get-last-release.ts:81-87 | the order is transitive in the "not above" sense |
| LastRelease.SortSorted | src/lib/get-last-release.ts:101 | the sorted tags are in descending version order and are a permutation of the kept tags |
| LastRelease.SortTags | src/lib/get-last-release.ts:101 | the sort throws in semver mode when two or more tags remain and one version does not parse uncleaned; otherwise the kept tags in descending order |
| LastRelease.FirstInHistory | src/lib/get-last-release.ts:107 | the first tag in HEAD's history, in order |
| LastRelease.Locate | src/lib/get-last-release.ts:107 | the find-first loop returns the first tag in history, or none when no tag is |
| LastRelease.FirstIsUnique | src/lib/get-last-release.ts:107 | the first index in history is fixed by the tags before it |
| LastRelease.GetLastRelease | src/lib/get-last-release.ts:32-125 | the method returns what the lookup returns or throws: the first tag in history of the sorted kept tags with its head, or only the local version information |
| LastRelease.HighestInHistory | src/lib/get-last-release.ts:96-115 | the release found is a kept tag in HEAD's history and no kept tag in history has a higher version |
| LastRelease.KeptNames | src/lib/get-last-release.ts:99-100 | a kept tag carries the name of one of the input tags |
| LastRelease.NoTagInHistory | src/lib/get-last-release.ts:117-124 | when no tag is in HEAD's history the result carries only the local version information |
| LastRelease.MaxIgnoresNone | src/lib/get-last-release.ts:47-58 | a tag without a production version leaves the highest production version unchanged |
| LastRelease.SortTagsDesc | src/lib/get-last-release.ts:101 | the descending arrangement of the tags is a permutation of them |
| LastRelease.FirstIsHighest | src/lib/get-last-release.ts:101-107 | the first tag in history of the descending arrangement is a kept tag in history, and no kept tag in history is above it |
| LastRelease.NoneInHistory | src/lib/get-last-release.ts:107 | when no kept tag is in HEAD's history, none is found |
| LastRelease.LastReleaseOf | src/lib/get-last-release.ts:32-125 | a release found always carries the local version information, and without a tag it carries nothing else |
| NextVersion.IncrementalNext | src/lib/version/get-next-version.ts:28 | the number read by `parseInt` plus one, or "NaN" when no number is read |
| NextVersion.IncrementalNextOfNumber | src/lib/version/get-next-version.ts:28 | after a plain number comes its successor's text |
| NextVersion.IncrementalNextValid | src/lib/version/get-next-version.ts:28 | that successor passes the incremental check against the last version |
| NextVersion.PreLevel | src/lib/version/get-next-version.ts:36-46 | `"pre" + level`, except that `prepatch` becomes `prerelease` after a pre-release |
| NextVersion.Bound | src/lib/version/get-next-version.ts:55-60 | `rcompare` throws when either side is missing or unparseable; otherwise a candidate below the next production version is replaced by a `prerelease` bump |
| NextVersion.SemverNext | src/lib/version/get-next-version.ts:30-61 | without an identifier the level bump; with one and no production version the pre-release bump; otherwise the bound check against the production version bumped by the level |
| NextVersion.SemverNextAsWritten | src/lib/version/get-next-version.ts:30-61 | as written, without an identifier the level bump; with one and a production version that does not parse, `rcompare` throws |
| NextVersion.GetNextVersion | src/lib/version/get-next-version.ts:7-84 | the first-release version when there is no base, the incremental successor, or the semver bump, with the system and information carried over |
| NextVersion.GetNextVersionAsWritten | src/lib/version/get-next-version.ts:7-84 | as written, the result keeps the system and info, and equals the corrected one for a first release, the incremental system or a bump without an identifier |
| NextVersion.LocalVersionIsBase | src/lib/version/get-next-version.ts:17-22 | without a release tag the local version stands in for the last release's |
| NextVersion.IncrementalIgnoresLevel | src/lib/version/get-next-version.ts:26-29 | in the incremental system the level and the identifier play no part |
| NextVersion.PreReleaseOutcomes | src/lib/version/get-next-version.ts:34-60 | with an identifier the result is one of two bumps of the base: by the pre-release level or a plain `prerelease` step |
| NextVersion.BoundCheckDecides | src/lib/version/get-next-version.ts:53-60 | a candidate below the next production version falls back to a `prerelease` step; the check throws exactly when a side does not parse |
| NextVersion.ReadingsAgree | src/lib/version/get-next-version.ts:54-56 | with a production version and no coerced `prerelease`, the written and the corrected readings agree |
| NextVersion.PatchChainThrowsAsWritten | src/lib/version/get-next-version.ts:43-56 | as written, continuing a pre-release chain at patch level always throws, since `inc` does not know the type "release" |
| NextVersion.NoProductionThrowsAsWritten | src/lib/version/get-next-version.ts:55-56 | as written, a pre-release run without a production release always throws |
| NextVersion.PatchChainContinues | src/lib/version/get-next-version.ts:43-48 | in the corrected reading the same chain continues with the identifier's number raised by one |
| NextVersion.NextVersionIncreases | src/lib/version/get-next-version.ts:32 | with a plain level and no identifier the next version is strictly above the base |
| NextVersion.BoundLevelOfPreLevel | src/lib/version/get-next-version.ts:41-54 | removing `pre` from the pre-release level gives back the release level, except for the coerced `prerelease`, which gives `release` |
| NextVersion.ReleaseIsNoIncType | src/lib/version/get-next-version.ts:55 | `inc` knows no release type `release` and returns nothing for it |
| NextVersion.BoundWithoutProd | src/lib/version/get-next-version.ts:55-56 | without a version to compare with, the bound check throws |
| VersionSources.ChangelogVersion | src/lib/version/changelog.ts:6-24 | "manual" when the changelog reports no version, otherwise the system `getVersionSystem` gives, with the version passed on |
| VersionSources.ChangelogSystems | src/lib/version/changelog.ts:15-20 | a version's own text is "semver" and a plain number "incremental" |
| VersionSources.AppPublisherVersion | src/lib/version/app-publisher.ts:30-40 | the configured `projectVersion`, classified by `getVersionSystem` |
| VersionSources.ProjectVersionKeepsSpacing | src/lib/version/app-publisher.ts:68-70 | a `"projectVersion"` entry with any spacing and any old version is rewritten with the same spacing and the next version |
| VersionSources.PublishRcOpsTouch | src/lib/version/app-publisher.ts:56-76 | only existing, non-ignored files are touched, and in record-only mode none is rewritten |
| VersionSources.SetAppPublisherVersion | src/lib/version/app-publisher.ts:43-79 | nothing without a `projectVersion`; otherwise, per file in glob order, a recorded edit or a rewrite and an edit |
| VersionSources.RcVersion | src/lib/version/makefile.ts:31-47 | a dotted version's parts joined by `", "`, a dotless one spread by the loop, then `", 0"` |
| VersionSources.SpreadDigits | src/lib/version/makefile.ts:35-42 | the loop's text is the characters joined by `", "`, except that a version of four or more characters keeps its first two adjacent |
| VersionSources.RcDotted | src/lib/version/makefile.ts:46 | a dotted version becomes its parts joined by `", "` and then `", 0"` |
| VersionSources.RcDotless | src/lib/version/makefile.ts:33-43 | a dotless version of up to three characters has them joined by `", "`; a longer one keeps the first two adjacent |
| VersionSources.RcVersionEndsWithZero | src/lib/version/makefile.ts:43-46 | every written version text ends with `", 0"` |
| VersionSources.MakefileOps | src/lib/version/makefile.ts:18-65 | nothing unless the rc file is set and exists; in record-only mode only the recorded edit; otherwise the two rewrites and the edit |
| VersionSources.DotNetVersion | src/lib/version/dotnet.ts:22-52 | a version only when exactly one file is found and it holds the pattern; then the match with the first `AssemblyVersion`, space, `(` and quote removed and cut at its last dot |
| VersionSources.DotNetKeepsTwoNumbers | src/lib/version/dotnet.ts:36-41 | the reader keeps only the first two numbers of the three it matched |
| VersionSources.MantisVersion | src/lib/version/get-mantis-version.ts:7-25 | the match with the first `this->version`, space, `=`, double and single quote removed, or "" without a match; always "semver" |
| VersionSources.MantisTight | src/lib/version/get-mantis-version.ts:17-21 | without spaces around `=` the quoted version is what remains |
| VersionSources.MantisSpaced | src/lib/version/get-mantis-version.ts:18 | with a space on each side of `=`, only the first goes, so the result keeps a leading space |
| VersionSources.SemVersion | src/lib/version/dotnet.ts:64-67 | each character followed by a dot, then the last character dropped |
| VersionSources.DotJoinRoundTrip | src/lib/version/dotnet.ts:64-67 | removing the dots again gives back the dotless version and splitting on them gives its characters |
| VersionSources.SetDotNetVersionThrows | src/lib/version/dotnet.ts:62 | as written, `String` has no `Contains`, so the one-file case throws before writing |
| VersionSources.SetDotNetVersionAsWritten | src/lib/version/dotnet.ts:55-87 | as written the call fails exactly when one `assemblyinfo.cs` file is found, and otherwise requests nothing, like the corrected operations |
| VersionSources.SetDotNetVersion | src/lib/version/dotnet.ts:55-87 | with the intended `includes`, a dotless version is spread with dots, a dotted one kept, and written after `AssemblyVersion("`; nothing is written unless exactly one file is found |
| ChangelogMd.FormatBody | src/lib/changelog/changelog-md.ts:71-90 | the body as the changelog writes it: a single line with a line break, or the lines re-indented |
| ChangelogMd.FormatLines | src/lib/changelog/changelog-md.ts:73-85 | the first line, then each later line behind a line break, trimmed and indented by one tab or two |
| ChangelogMd.BodyTextLines | src/lib/changelog/changelog-md.ts:71-90 | splitting the written body on line breaks gives the first line as it was, each later one trimmed behind its tabs, and an empty rest |
| ChangelogMd.IsExcluded | src/lib/changelog/changelog-md.ts:47-59 | the loop finds whether a `commitMsgMap` entry of the subject's type is not included |
| ChangelogMd.Classify | src/lib/changelog/changelog-md.ts:29-105 | a commit without a subject is an untyped "- body" item; a skipped or excluded subject is dropped; any other is typed, with a heading exactly when its subject differs from the last one |
| ChangelogMd.CaseIgnored | src/lib/changelog/changelog-md.ts:37-38 | the case of the subject and the scope does not change the outcome |
| ChangelogMd.SameSubjectSharesHeading | src/lib/changelog/changelog-md.ts:99-103 | the next commit under the same subject gets no heading of its own |
| ChangelogMd.Item | src/lib/changelog/changelog-md.ts:64-90 | a list item starts with "- " and holds the body text |
| ChangelogMd.FormatCommitPart | src/lib/changelog/changelog-md.ts:29-105 | the text rendered for the commit's classification and the new last subject |
| ChangelogMd.RenderCommits | src/lib/changelog/changelog-md.ts:110-116 | each commit with a body appended in turn, the last subject carried from one to the next |
| ChangelogMd.CreateSectionFromCommits | src/lib/changelog/changelog-md.ts:15-143 | the trimmed rendering of the commits; no commits give no text |
| ChangelogMd.BodilessIgnored | src/lib/changelog/changelog-md.ts:112-114 | commits without a body contribute nothing, not even to the last subject |
| ChangelogMd.WithHeaderFile | src/lib/changelog/changelog-md.ts:387-393 | the header starts with the title line, followed by the header file's text when there is one |
| ChangelogMd.HeaderAsWrittenUndefined | src/lib/changelog/changelog-md.ts:372-390 | as written, with no version and no web path the title is "undefined", and that is the version read back from the file |
| ChangelogMd.HeaderAsWrittenAgrees | src/lib/changelog/changelog-md.ts:372-390 | the written and the corrected header agree when a version is given or a web path is set |
| ChangelogMd.GetHeaderAsWritten | src/lib/changelog/changelog-md.ts:370-395 | as written the header is titled with the version given; without one, with the next release's version when a web path is set, and otherwise with `undefined` |
| ChangelogMd.GetHeader | src/lib/changelog/changelog-md.ts:370-395 | the header is titled with the version given, or else the next release's version, and is followed by a blank line and the header file's text when that file has text |
| ChangelogMd.HeaderRoundTrip | src/lib/changelog/changelog-md.ts:370-395 | a header written for a version is read back as that version by the latest-version lookup |
| ChangelogMd.DropDateOfTitle | src/lib/changelog/changelog-md.ts:587 | the date after a version is removed and the version is left |
| ChangelogMd.LatestVersion | src/lib/changelog/changelog-md.ts:579-597 | a version is found only when a `## <versionText> ` header occurs |
| ChangelogMd.SectionStartAsWritten | src/lib/changelog/changelog-md.ts:604-611 | as written, the start is where the plain header text, or else the linked one, first occurs |
| ChangelogMd.SectionAsWritten | src/lib/changelog/changelog-md.ts:604-621 | as written a section is returned exactly when the plain or linked header text occurs anywhere, even as the start of a longer version |
| ChangelogMd.PrefixTakenAsWritten | src/lib/changelog/changelog-md.ts:604 | as written, asking for `1.2.1` when `1.2.10` comes first returns the `1.2.10` section |
| ChangelogMd.SectionStartFound | src/lib/changelog/changelog-md.ts:604-611 | the corrected start is found exactly when an exact header exists; a plain one is preferred and the first of its kind is taken |
| ChangelogMd.PrefixSkipped | src/lib/changelog/changelog-md.ts:604 | the exact match does not take a longer version's header for the one asked for |
| ChangelogMd.SectionShape | src/lib/changelog/changelog-md.ts:604-623 | the section begins with the header of exactly the version asked for and runs to the next section header or the end of the file |
| ChangelogMd.GetSections | src/lib/changelog/changelog-md.ts:522-641 | error "160" exactly when no file is named, "" for a missing file, the latest version without a version, else "" or a section headed by that version |
| ChangelogMd.HeadingShape | src/lib/changelog/changelog-md.ts:156-158 | each heading found stands right after `### ` and right before `<br>-`, on one line |
| ChangelogMd.PluralEs | src/lib/changelog/changelog-md.ts:164-165 | a plural in `es` loses it, except `Features` |
| ChangelogMd.PluralS | src/lib/changelog/changelog-md.ts:167-168 | a plural in `s` loses it, except `Miscellaneous` |
| ChangelogMd.FeaturesSingular | src/lib/changelog/changelog-md.ts:164-168 | `Features` loses only its `s` |
| ChangelogMd.MiscellaneousKept | src/lib/changelog/changelog-md.ts:167-179 | `Miscellaneous` keeps its `s` and is named without the `<br>` |
| ChangelogMd.ItemCountCountsAll | src/lib/changelog/changelog-md.ts:177-181 | the `indexOf` loop counts every position where `<br>- ` starts |
| ChangelogMd.PushItems | src/lib/changelog/changelog-md.ts:177-181 | the subject is pushed once per item of the match |
| ChangelogMd.SubjectsAreHeadingNames | src/lib/changelog/changelog-md.ts:153-186 | every subject returned is the name of one of the headings found |
| ChangelogMd.GetSubjectsFromHtml | src/lib/changelog/changelog-md.ts:153-186 | the heading loop, each heading's plural trimmed and its items counted |
| SetVersions.TargetPathNext | src/lib/version/set-versions.ts:131-132 | a path naming `$(VERSION)` or `$(NEXTVERSION)` once becomes the path of the next version's file |
| SetVersions.TargetPathLast | src/lib/version/set-versions.ts:133 | a path naming `$(LASTVERSION)` once becomes the path of the last version's file |
| SetVersions.TargetPathPlain | src/lib/version/set-versions.ts:131-133 | a path without placeholders is used as it is |
| SetVersions.WriteTextOnce | src/lib/version/set-versions.ts:193 | in the write pattern the placeholder becomes the version |
| SetVersions.SearchPatternCaptures | src/lib/version/set-versions.ts:194-196 | in the search pattern the placeholder becomes a capture of the version pattern |
| SetVersions.SearchPatternCollapses | src/lib/version/set-versions.ts:194-196 | a capture the user wrote around the placeholder is not doubled |
| SetVersions.SetFileStep | src/lib/version/set-versions.ts:174-203 | a missing entry is skipped; in record-only mode the entry is recorded; otherwise one write of the entry's file and its edit, a JSON write carrying the entry's own document and the version |
| SetVersions.SetFileStepAsWritten | src/lib/version/set-versions.ts:184-190 | as written, the same requests except that a bare `package.json` entry gets the base file's document |
| SetVersions.SetFileJsonFromBase | src/lib/version/set-versions.ts:186 | as written, an entry `b/package.json` of the base `a/package.json` becomes a copy of the base document; the corrected step keeps the entry's own |
| SetVersions.SetFilesOps | src/lib/version/set-versions.ts:174-204 | only existing files are touched, and in record-only mode they are only recorded |
| SetVersions.SetFilesWrite | src/lib/version/set-versions.ts:174-204 | outside record-only mode the entries write something exactly when one of them exists |
| SetVersions.DefinitionStep | src/lib/version/set-versions.ts:129-244 | a missing target is skipped; only existing files are touched; record-only mode never fails; a failure requests nothing |
| SetVersions.DefinitionFailsIffNothingWritten | src/lib/version/set-versions.ts:240-243 | outside record-only mode an existing target fails exactly when nothing was written for it |
| SetVersions.FilesRun | src/lib/version/set-versions.ts:127-245 | the definitions in order up to the first failure, which is "Local version file validation failed" |
| SetVersions.FilesRunFails | src/lib/version/set-versions.ts:240-243 | the run fails exactly when some definition fails |
| SetVersions.RecordOnlyNeverFails | src/lib/version/set-versions.ts:240 | in record-only mode the run never fails |
| SetVersions.FailureIsFinal | src/lib/version/set-versions.ts:242 | once the run failed, later definitions request nothing |
| SetVersions.RecordOnlyOps | src/lib/version/set-versions.ts:180-230 | in record-only mode only edits are recorded, except for a `package.json` target |
| SetVersions.RecordOnlyWritesPackageJson | src/lib/version/set-versions.ts:208-215 | a `package.json` definition without `setFiles` is rewritten even when only edits are being recorded |
| SetVersions.SetVersionFiles | src/lib/version/set-versions.ts:75-246 | the loop's requests and error are those of the run over the definitions, and nothing without definitions |
| SetVersions.ProcessDefinition | src/lib/version/set-versions.ts:129-244 | the loop body's requests and flag are those of the definition's step |
| SetVersions.ApplySetFiles | src/lib/version/set-versions.ts:174-204 | the requests of the entries, and `matched` exactly when not record-only and some entry exists |
| SetVersions.SetVersions | src/lib/version/set-versions.ts:27-72 | the writers' requests in their fixed order: npm, app-publisher, ExtJs, pom, MantisBT, makefile, .NET, then the version files, with the version files' error |
| NpmRelease.SplitScope | src/lib/releases/npm.ts:217-224 | a name `@scope/rest` splits at its first `/` into a `/`-free scope starting with `@` and the rest, which put back together give the name; any other name has no scope and is its own name without scope |
| NpmRelease.SplitScoped | src/lib/releases/npm.ts:218-220 | the split of `@s/rest` with `s` free of `/` is exactly `@s` and `rest` |
| NpmRelease.RenameChanges | src/lib/releases/npm.ts:228-232 | a rename under a scope the name lacks always produces a different name |
| NpmRelease.Override | src/lib/releases/npm.ts:152-212 | each of the repository url and type, homepage and bugs url takes the option's value exactly when the option and the field are both set and differ, and keeps its value otherwise; the bugs email becomes the `testEmailRecip` list whenever that option and the field are set, since a list never equals the field; the name and the presence of the repository and bugs objects are untouched |
| NpmRelease.SetPackage | src/lib/releases/npm.ts:127-147 | in task mode without the npm release, json update or version update task, without a package file, or for a package without a name, nothing changes and nothing is reported modified |
| NpmRelease.SetModifiedIffChanged | src/lib/releases/npm.ts:245-255 | a change to the package or lock file is always reported as a modification; a modification with the files unchanged happens only when the bugs email already is the very `testEmailRecip` list that is written over it |
| NpmRelease.SameEmailOverridden | src/lib/releases/npm.ts:204-212 | a `testEmailRecip` naming the very address the package gives still overrides it: the package is reported modified, its bugs email becomes the one-element list, and the address is saved as the default |
| NpmRelease.SetRenamesScoped | src/lib/releases/npm.ts:226-243 | a package `@s/x` under an `npmScope` its name lacks is renamed `<npmScope>/x` in `package.json` and in the lock file when one exists, and the original name, scope and name without scope are saved |
| NpmRelease.Restore | src/lib/releases/npm.ts:259-365 | skipped in task mode without the tasks that need it or without a package file; a saved repository or bugs default written into a package without that object throws; the name goes back to the saved name exactly when it was renamed |
| NpmRelease.RestoreAfterSet | src/lib/releases/npm.ts:122-376 | restoring right after setting gives back the original `package.json`, and the lock file's name becomes the original name whenever the name is restored |
| NpmRelease.SetSavesOriginals | src/lib/releases/npm.ts:152-212 | every default `setPackageJson` saves is the field's original value, and a field without a saved default keeps its original value |
| NpmRelease.SetSavesName | src/lib/releases/npm.ts:217-243 | the original name is always saved, and the package and lock names change only when the restore will rename them back |
| NpmRelease.RestoredFields | src/lib/releases/npm.ts:301-346 | each saved default written back restores the original field, so the overridden package becomes the original one again |
| NpmRelease.TarballName | src/lib/releases/npm.ts:58-63 | the tarball `npm pack` leaves is `<scope>-<name>-<version>.tgz` with the first character of the scope dropped, or `<name>-<version>.tgz` without a scope |
| NpmRelease.TarballOfScope | src/lib/releases/npm.ts:58-59 | for the scope `@s` the tarball is `s-<name>-<version>.tgz` |
| NpmRelease.PackedFileName | src/lib/releases/npm.ts:52-57 | the file the tarball is moved to starts with the name without scope and ends in `.tgz` |
| NpmRelease.PublishArgs | src/lib/releases/npm.ts:92-113 | `npm publish`, followed by `--registry <registry>` when a registry is set and by `--dry-run` on a dry run, and nothing else |
| NpmRelease.NpmState.constructor | src/lib/releases/npm.ts:13-20 | all saved defaults start unset |
| NpmRelease.NpmState.SetPackageJson | src/lib/releases/npm.ts:122-256 | the method's result and the new saved defaults are those of the specification `SetPackage` applied to the old defaults |
| NpmRelease.NpmState.OverrideFields | src/lib/releases/npm.ts:152-212 | the five overrides in sequence give the package and saved defaults of `Override`, and report a modification exactly when one of them applies |
| NpmRelease.NpmState.OverrideRepoUrl | src/lib/releases/npm.ts:152-160 | the repository url is replaced by the `repo` option exactly when both are set and differ, and its old value is saved |
| NpmRelease.NpmState.OverrideRepoType | src/lib/releases/npm.ts:165-173 | the repository type is replaced by the `repoType` option exactly when both are set and differ, and its old value is saved |
| NpmRelease.NpmState.OverrideHomePage | src/lib/releases/npm.ts:178-186 | the homepage is replaced by the `homePage` option exactly when both are set and differ, and its old value is saved |
| NpmRelease.NpmState.OverrideBugsUrl | src/lib/releases/npm.ts:191-199 | the bugs url is replaced by the `bugs` option exactly when both are set and differ, and its old value is saved |
| NpmRelease.NpmState.OverrideBugsEmail | src/lib/releases/npm.ts:204-212 | the bugs email is replaced by the `testEmailRecip` list exactly when that option and the field are both set, whatever their contents, and its old value is saved |
| NpmRelease.NpmState.RestorePackageJson | src/lib/releases/npm.ts:259-376 | the outcome is that of the specification `Restore` on the saved defaults, which this method does not change |
| NpmRelease.NpmState.RestoreRepository | src/lib/releases/npm.ts:301-316 | the saved repository url and type are written back; writing either into a package without a `repository` object throws |
| NpmRelease.NpmState.RestoreBugs | src/lib/releases/npm.ts:321-336 | the saved bugs url and email are written back; writing either into a package without a `bugs` object throws |
| NpmRelease.NpmState.DoNpmRelease | src/lib/releases/npm.ts:23-119 | nothing without a package file; otherwise a publish with `PublishArgs`, preceded by a pack exactly when `npmPackDist` is `Y` and the names were saved, whose tarball name, destination and directory creation follow the options and saved defaults |
| Help.Wrap | src/help/generate-help.ts:26-38 | the wrapped lines followed by the line being filled are the words in order, each followed by one space; every line cut is at least `max` characters long, and the line being filled ends with the last word |
| Help.WrapStepKeeps | src/help/generate-help.ts:30-37 | one word added keeps the text, cuts only lines that reached `max`, and leaves the new word at the end of the line being filled |
| Help.LastLineEmitted | src/help/generate-help.ts:39-41 | a non-empty input line always leaves words on the line being filled, so its last output line is always written |
| Help.EscapeQuotesPieces | src/help/generate-help.ts:15-17 | escaping turns every `"` into `\\"` and leaves the text between quotes as it is |
| Help.WrapLine | src/help/generate-help.ts:26-38 | the loop over the words of one line emits exactly the framed cut lines of `Wrap`, in order, and leaves its line being filled |
| Help.AddHelpLine | src/help/generate-help.ts:24-48 | one pass of the loop over the input lines adds what the line specification `AddLine` says: the wrapped, framed lines of a non-empty line, or an empty framed line with trailing white space trimmed |
| Help.BuildHelp | src/help/generate-help.ts:12-52 | the result is the specification `HelpText`: the quotes escaped when asked, every line wrapped and framed, the last line end dropped, the start trimmed and the section end appended |
| Help.QuotedArgument | src/help/generate-help.ts:102 | the argument list is quoted: it starts and ends with `"` |
| Help.InterfaceType | src/help/generate-help.ts:144-149 | a `flag` becomes `"Y" \| "N"`, and a type that is neither a flag nor an enum is kept |
| Help.EnumTypeQuoted | src/help/generate-help.ts:147-148 | `enum(a\|b\|…)` becomes the union `"a" \| "b" \| …` of the quoted alternatives |
| Help.EnumStrip | src/help/generate-help.ts:148 | dropping `enum(` and the first `)` leaves exactly the alternatives |
| Help.DefaultText | src/help/generate-help.ts:120-127 | a default is quoted unless its type is a number or a boolean, whose default is lower-cased |
| Help.CmdLineFlagAlwaysTrue | src/help/generate-help.ts:131 | as written every option is marked a command-line option, even one whose argument list is `n/a` and so written empty |
| Help.CmdLineFlagIntendedAgrees | src/help/generate-help.ts:131-134 | as intended an option is a command-line option exactly when its argument list is not `n/a`, which is exactly when the list written is not empty |
| Help.FlagMarked | src/help/generate-help.ts:131 | for a quoted argument list the flag as written is always `true`, and the flag as intended is `false` exactly for the list `"n/a"` |
| Help.EntryMarked | src/help/generate-help.ts:129-134 | an option's `publishRcOpts` entry carries `true` as written, and as intended `false` exactly when its argument list is `"n/a"` |
| Help.GenerateHelp | src/help/generate-help.ts:55-195 | `Readme file not found` exactly when a readme is empty; otherwise `Args file not found` or `Interface file not found` for a missing file; the texts are generated exactly when everything is present, and they are `publishRcOpts` and `IArgs` built from every option in order, each `publishRcOpts` entry carrying the intended command-line flag (`false` for an `n/a` argument list) |
| Help.GenerateHelpAsWritten | src/help/generate-help.ts:55-195 | with the existence of the files judged by an unawaited promise, the texts are generated exactly when both readmes are non-empty and the only failure is the missing readme; every `publishRcOpts` entry is marked a command-line option (`true`), as line 131 writes it |
| Help.Entries | src/help/generate-help.ts:111-153 | the loop over the options appends every option's `publishRcOpts` entry, with the command-line flag as written or as intended, and its `IArgs` member, in order, to the two heads |
| Help.AppendEntries | src/help/generate-help.ts:120-152 | one pass of the loop appends exactly the option's two entries, the first with the command-line flag as written or as intended |
| ValidateOptions.AsLists | src/lib/validate-options.ts:23-122 | converting list options keeps the set of options given |
| ValidateOptions.AsListsPointwise | src/lib/validate-options.ts:23-122 | the conversions one after the other are the conversion of every listed option at once, and leave the other options as they are |
| ValidateOptions.AsListsIdempotent | src/lib/validate-options.ts:23-122 | converting a second time changes nothing |
| ValidateOptions.AsListsConverts | src/lib/validate-options.ts:23-122 | after the conversion no listed option holds a non-empty string, and a string `s` given for one has become the list `[s]` |
| ValidateOptions.Default | src/lib/validate-options.ts:128-137 | an option given a truthy value keeps it, and one falling back on a truthy default ends truthy |
| ValidateOptions.Normalised | src/lib/validate-options.ts:23-137 | after the conversions and defaults, `pathToRoot` and `npmRegistry` are set and no list option is a non-empty string |
| ValidateOptions.FromPackage | src/lib/validate-options.ts:163-177 | without `package.json` nothing changes; with one, a missing `repo` and `repoType` are read from its `repository` url and type; the step never rejects, and it throws when the url or type it needs has no `repository` object to come from |
| ValidateOptions.RepoCheck | src/lib/validate-options.ts:179-191 | the repository options pass exactly when `repo` is set and `repoType` is `git` or `svn` |
| ValidateOptions.PackageTypeLost | src/lib/validate-options.ts:171-185 | as written, with the url and type both read from `package.json`, the type overwrites `repo` and the options are rejected for a missing type, where the intended reading accepts them |
| ValidateOptions.FromPackageAsWritten | src/lib/validate-options.ts:163-177 | as written the verdict is that of the corrected reading, but the repository type is never set: when it is missing, the type read from `package.json` lands in `repo` |
| ValidateOptions.DefaultBranch | src/lib/validate-options.ts:196-208 | a branch is always set afterwards: the one given, else `main` for git and `trunk` otherwise, and nothing else changes |
| ValidateOptions.JoinUrl | src/lib/validate-options.ts:224 | joining with `/` and collapsing a doubled slash gives a text that starts with the repository and ends with the tail |
| ValidateOptions.SvnPath | src/lib/validate-options.ts:213-241 | the SVN path points at the branch: a repository already naming `trunk` (for the trunk) or `branches/` (for a branch) is kept, one naming neither gets `trunk` or `branches/<branch>` appended |
| ValidateOptions.FirstDoubleSlash | src/lib/validate-options.ts:224 | in `a//b` with no slash in `a`, the first `//` collapsed is the one after `a` |
| ValidateOptions.SchemeSlashLost | src/lib/validate-options.ts:224 | as written, a `scheme://` url loses one slash of its scheme separator when `/trunk` is appended; the corrected path keeps the url intact |
| ValidateOptions.SvnPathAsWritten | src/lib/validate-options.ts:213-241 | as written the path agrees with the corrected `SvnPath` whenever the repository already names `trunk` or `branches/`; only the appended join differs |
| ValidateOptions.SvnRepo | src/lib/validate-options.ts:213-241 | for an SVN repository `repo` becomes `SvnPath` of the repository and branch; nothing else changes, and a git repository is left alone |
| ValidateOptions.RepositoryChecked | src/lib/validate-options.ts:163-241 | accepted options name a git or svn repository and carry a branch, which is the type's default branch when none was given |
| ValidateOptions.Editor | src/lib/validate-options.ts:246-271 | the editor is the one given, trimmed, or `notepad`; one that is `notepad` or found as given is kept without a search; one found in a `Path` directory is kept, and one replaced by `notepad` is found in no `Path` directory; there is no editor exactly when the search is reached without a `Path` variable |
| ValidateOptions.TextEditor | src/lib/validate-options.ts:246-271 | a set editor is stored trimmed and resolved by `Editor`; reaching the search without a `Path` variable crashes on `split`; an unset editor is left alone; it never rejects, and nothing else changes |
| ValidateOptions.EnvironmentChecked | src/lib/validate-options.ts:277-309 | accepted options have the version control directory or a pre-root path, a history line length (80 by default), and a dist path whenever `npmPackDist` is `Y` |
| ValidateOptions.YesNo | src/lib/validate-options.ts:311-320 | a set switch is upper-cased and accepted exactly when it is `y`, `Y`, `n` or `N`; its task forces `Y`; an unset one is left alone; a rejection names the switch |
| ValidateOptions.UpperYesNo | src/lib/validate-options.ts:315-316 | upper-casing gives `Y` exactly for `y` and `Y`, and `N` exactly for `n` and `N` |
| ValidateOptions.YesNoIdempotent | src/lib/validate-options.ts:314-320 | checking an accepted switch a second time accepts it and changes nothing |
| ValidateOptions.ReleaseSwitches | src/lib/validate-options.ts:311-347 | the npm, dist and GitHub release switches become `Y` when their tasks run, and nothing else changes |
| ValidateOptions.GithubCheck | src/lib/validate-options.ts:348-359 | a GitHub release passes exactly when it is off, or a user and a token are given |
| ValidateOptions.ReleasesChecked | src/lib/validate-options.ts:311-360 | accepted options running the GitHub release task have a GitHub user and token |
| ValidateOptions.MantisChecks | src/lib/validate-options.ts:391-408 | a MantisBT release passes only with a defined url and token of the same length, and at least one url; reading the length of an undefined url, or of an undefined token after a non-empty url, crashes, and nothing else does |
| ValidateOptions.MantisUndefinedAsMissing | src/lib/validate-options.ts:393-397 | a url or token present with the value `undefined` is checked exactly as a missing one |
| ValidateOptions.PluginCheck | src/lib/validate-options.ts:365-376 | an accepted MantisBT plugin names an existing file with `.php` in its name |
| ValidateOptions.RcFileCheck | src/lib/validate-options.ts:411-420 | an accepted resource file names an existing file with `.rc` in its name |
| ValidateOptions.RcFileAlwaysThrows | src/lib/validate-options.ts:412 | as written, every resource file given throws, since strings have no `Contains` method, even a good one the corrected check accepts |
| ValidateOptions.RcFileCheckAsWritten | src/lib/validate-options.ts:411-412 | as written only an unset resource file is accepted; any file given crashes, and nothing is ever rejected |
| ValidateOptions.MantisChecked | src/lib/validate-options.ts:365-420 | accepted options running the MantisBT task have the release on, the release's url and token checks pass, and the plugin and resource file checks pass |
| ValidateOptions.SwitchesChecked | src/lib/validate-options.ts:422-460 | accepted options hold `Y` or `N` in each of the five remaining switches that is set, and nothing else changes |
| ValidateOptions.EditsChecked | src/lib/validate-options.ts:462-484 | on a dry run a set `skipVersionEdits` becomes `N`, and so does a set `skipChangelogEdits` outside task mode; nothing else changes |
| ValidateOptions.Ci | src/lib/validate-options.ts:536-547 | without `noCi` the changelog and version edits are skipped, version prompting is off and `versionFilesEditAlways` is emptied; with it nothing changes |
| ValidateOptions.Transitive | src/lib/validate-options.ts:556-564 | the changelog file task implies the changelog task, the commit variant implies the touch-versions task, and the email, touch-versions and MantisBT tasks skip changelog edits; nothing else changes |
| ValidateOptions.Finished | src/lib/validate-options.ts:489-564 | accepted options have a tag prefix and a version label, a dist path when a dist release is on, and the repository, branch and release switch unchanged |
| ValidateOptions.TasksChecked | src/lib/validate-options.ts:569-600 | the tasks pass exactly when no two conflicting tasks are set together and, under a stdout task, no task outside the stdout list is set |
| ValidateOptions.CiEnvInfoRefused | src/lib/validate-options.ts:586-596 | as written, the misspelt list refuses the CI environment task beside a stdout task, which the corrected list admits |
| ValidateOptions.StdOutTasksAsWritten | src/lib/validate-options.ts:590-591 | as written the stdout allow-list lacks `taskCiEnvInfo`, and differs from the corrected list only by naming `taskCiEvInfo` in its place |
| ValidateOptions.Validated | src/lib/validate-options.ts:15-607 | accepted options name a git or svn repository, carry a branch, a tag prefix and a version label, hold no conflicting tasks, and under a stdout task no other task |
| ValidateOptions.Options.constructor | src/lib/validate-options.ts:15-17 | the options object holds the options given |
| ValidateOptions.Options.Validate | src/lib/validate-options.ts:15-607 | the verdict and the new options are those of the specification `Validated` on the options given |
| ValidateOptions.Options.ConvertLists | src/lib/validate-options.ts:23-122 | every listed option given as a non-empty string becomes a one-element list, and nothing else changes |
| ValidateOptions.Options.CheckRepository | src/lib/validate-options.ts:163-241 | the verdict and new options are those of `RepositoryChecked` |
| ValidateOptions.Options.ResolveEditor | src/lib/validate-options.ts:246-271 | the verdict and new options are those of `TextEditor` |
| ValidateOptions.Options.SearchPath | src/lib/validate-options.ts:252-265 | the search of the `Path` directories finds the editor exactly when some directory holds it as given or with `.exe` |
| ValidateOptions.Options.CheckEnvironment | src/lib/validate-options.ts:277-309 | the verdict and new options are those of `EnvironmentChecked` |
| ValidateOptions.Options.CheckYesNo | src/lib/validate-options.ts:314-320 | the verdict and value are those of `YesNo` |
| ValidateOptions.Options.CheckReleases | src/lib/validate-options.ts:311-360 | the verdict and new options are those of `ReleasesChecked` |
| ValidateOptions.Options.CheckReleaseSwitches | src/lib/validate-options.ts:311-347 | the verdict and new options are those of `ReleaseSwitches` |
| ValidateOptions.Options.CheckMantis | src/lib/validate-options.ts:365-420 | the verdict and new options are those of `MantisChecked` |
| ValidateOptions.Options.CheckSwitches | src/lib/validate-options.ts:422-460 | the verdict and new options are those of `SwitchesChecked` |
| ValidateOptions.Options.CheckEdits | src/lib/validate-options.ts:462-484 | the verdict and new options are those of `EditsChecked` |
| ValidateOptions.Options.Finish | src/lib/validate-options.ts:489-564 | the verdict and new options are those of `Finished` |
| ValidateOptions.Options.ApplyCi | src/lib/validate-options.ts:536-547 | the new options are those of `Ci` |
| ValidateOptions.Options.ApplyTransitive | src/lib/validate-options.ts:556-564 | the new options are those of `Transitive` |
| ValidateOptions.Options.CheckTasks | src/lib/validate-options.ts:569-600 | the verdict is that of `TasksChecked` |
| ValidateOptions.Options.NoStdOutConflict | src/lib/validate-options.ts:586-600 | the loop over the options finds no conflict exactly when no set task may not run under a stdout task |
| ReleaseRun.LogTaskResult | src/index.ts:239-248 | a string result is logged as an error carrying that text, `true` as a success naming the task, and `false` not at all |
| ReleaseRun.Given | src/index.ts:1051 | an empty string stands for an absent value exactly when it is empty |
| ReleaseRun.Or | src/index.ts:1017 | `a \|\| b`: the first value when it is truthy, otherwise the second |
| ReleaseRun.WriteText | src/index.ts:454 | writing a version appends it to the output; writing an absent one fails with Node's invalid-argument error for `undefined` |
| ReleaseRun.PreReleaseText | src/index.ts:967-972 | the output is the first pre-release identifier of the cleaned id, or `error_invalid_prerelease_identifier` when there is none; a numeric identifier is a number, and writing it fails |
| ReleaseRun.Level1 | src/index.ts:952-999 | the developer test ends the run with `true`; the command generator returns the help generator's result; the pre-release id task writes the first identifier or `error_invalid_prerelease_identifier` and ends with `true`, and crashes exactly when that identifier is a number; the header print and tests tasks end it with `true`; the result is `false` exactly when help generation fails or none of these tasks is set |
| ReleaseRun.Reconciled | src/index.ts:364-386 | with no tag found the local version becomes the last release and the run is a first release; any other disagreement between the tag and the local version ends the run with `false` exactly outside task and republish modes; output, edits and the next release are untouched |
| ReleaseRun.CurrentVersionText | src/index.ts:1017 | the current version printed is the tagged version, else the local version, else the first release version |
| ReleaseRun.TagVersionCheck | src/index.ts:1045-1049 | a tag version given is refused, with a message ending in it, exactly when it is not valid in the local versioning system |
| ReleaseRun.CommitTag | src/index.ts:1043-1059 | the commit and tag tasks fail with the message exactly when the tag version is invalid, and change nothing then; otherwise they release the given version, or the local one, under the tag the tag format makes of it, with the changelog recorded as an edit |
| ReleaseRun.Level2 | src/index.ts:1007-1090 | the current version task prints `CurrentVersionText`; the result is `false` exactly when none of the current version, revert, commit, tag and build tasks is set, and then nothing changes; the last release and first-release flag are never changed |
| ReleaseRun.Levelled | src/index.ts:425-432 | unless the current version is forced, the release level and head revision are recorded; the version and last release are untouched |
| ReleaseRun.RelevantCommits | src/index.ts:438-467 | the run goes on exactly when there is a release level, no commits are needed, tests run, a changelog task can pass or a version or release is forced; otherwise `taskVersionNext` prints the last version and ends with `true`, crashing exactly when there is none, and the run ends with `false` exactly when neither version task is set |
| ReleaseRun.FirstReleaseAhead | src/index.ts:489-490 | only a first release can find the local version ahead of the next version |
| ReleaseRun.Computed | src/index.ts:472-511 | the next version is the computed one, or the one prompted for when asked to prompt; a first release outside CI whose local version is ahead ends the run with `false`; the version info is the computed one |
| ReleaseRun.Forced | src/index.ts:512-533 | forcing the current version on a first release ends the run with `false`; a forced next version must pass version validation against the last release and becomes the next version; otherwise the last version is the next version; the version info is the last release's |
| ReleaseRun.Chosen | src/index.ts:472-533 | choosing the next version never changes the last release or the first-release flag |
| ReleaseRun.Versioned | src/index.ts:472-539 | once the run goes on, the next release's tag is the tag format applied to its version |
| ReleaseRun.CiEnvFile | src/index.ts:1122-1125 | `ap.env` starts with the last and next versions on their own lines and ends with the changelog file when one is set |
| ReleaseRun.Level3 | src/index.ts:1101-1161 | the result is `false` exactly when none of the next version, version info, CI environment, release level and header print tasks is set; `taskVersionNext` prints the next version and ends with `true`, and crashes changing nothing exactly when there is none; `taskVersionInfo` prints the last version, next version and level separated by `\|`; the releases are untouched |
| ReleaseRun.Gate | src/index.ts:304-308 | a task level's truthy result ends the run with that result, a falsy one lets it go on, one that threw crashes it with its message, and the records are those the level left |
| ReleaseRun.Level1EndsRun | src/index.ts:269-308 | after validation, a truthy level-1 result ends the run with that result and one that threw crashes it, before version control is consulted |
| ReleaseRun.ProceedingRun | src/index.ts:251-550 | a run that reaches the edits had valid options and ran no task of level 1, 2 or 3, and its next release carries the tag of its version |
| ReleaseRun.Released | src/index.ts:251-550 | without validated options the run ends with `false`; it crashes only after validation; the last release it settles is none, the tag found, or on a first release the local version |
| ReleaseRun.FromReconcile | src/index.ts:364-550 | from the version check on, the last release is the tag found or, on a first release, the local version, and output and file requests are only added to |
| ReleaseRun.FromLevel2 | src/index.ts:397-550 | from the level-2 tasks on, the last release stays as settled, output and file requests are only added to, and a run that goes on ran no level-2 or level-3 task and carries the tag of its version |
| ReleaseRun.FromCommits | src/index.ts:409-550 | from the release level on, the last release stays, output and file requests are only added to, and a run that goes on ran no level-3 task and carries its tag |
| ReleaseRun.FromVersion | src/index.ts:472-550 | from the next version on, the same guarantees as `FromCommits` |
| ReleaseRun.Run.constructor | src/index.ts:256-264 | the run starts with no last release, no next release, no output and no edits |
| ReleaseRun.Run.RunRelease | src/index.ts:251-550 | the result and the new records are those of the specification `Released` |
| ReleaseRun.Run.RunFromCommits | src/index.ts:409-550 | the result and the new records are those of `FromCommits` |
| ReleaseRun.Run.ProcessTasksLevel1 | src/index.ts:952-999 | the result and the output are those of `Level1` |
| ReleaseRun.Run.ReconcileLastRelease | src/index.ts:364-391 | the result and the new records are those of `Reconciled` |
| ReleaseRun.Run.ProcessTasksLevel2 | src/index.ts:1007-1090 | the result and the new records are those of `Level2` |
| ReleaseRun.Run.CheckRelevantCommits | src/index.ts:438-467 | the result and the new records are those of `RelevantCommits` |
| ReleaseRun.Run.NextVersion | src/index.ts:472-533 | the result and the new records are those of `Chosen` |
| ReleaseRun.Run.ComputeVersion | src/index.ts:472-511 | the result and the new records are those of `Computed` |
| ReleaseRun.Run.ForceVersion | src/index.ts:512-533 | the result and the new records are those of `Forced` |
| ReleaseRun.Run.ProcessTasksLevel3 | src/index.ts:1101-1161 | the result and the new records are those of `Level3` |

## Left out

- Line endings: `EOL` is fixed to `"\n"`, the POSIX value. The Windows `"\r\n"` is not modelled.
- Case: `ToUpper`, `ToLower` and the regular expression `i` flag are modelled for ASCII letters only. JavaScript's case mapping covers all of Unicode.
- Regular expression metacharacters: a `section` name (changelog-md.ts:174) and the `versionText` label (regexes.ts:27) are matched literally. The source interpolates them into `new RegExp`, where `.` or `+` inside them would act as metacharacters.
- The `ISSUES` pattern is modelled only as its first group, read at a known keyword position.
- The `marked` markdown-to-HTML conversion is not part of this model. The subjects of a section are read from HTML given as input.
- The npm, ExtJs, pom and MantisBT version readers and writers are not part of this model. Their results are inputs.
- The file system is not modelled: file contents and existence are inputs, and writes are `FileOp` requests.
- Logging, the console and colours are left out, because they do not affect the results.
- node-semver and JavaScript number parsing are modelled as the support modules `Semver` and `JsNumber`. They follow the behaviour the engine relies on, not every corner of those libraries.
- VersionSources.ProjectVersionReplacementText: the replacement reads the callback's `m[1]` and `m[2]` as the two capture groups. That assumes `replaceInFile` passes the callback a match array. `replaceInFile` is not part of this model. If it passed the matched text instead, `m[1]` and `m[2]` would be its second and third characters. `VersionSources.ProjectVersionKeepsSpacing` holds under the assumption only.
- SetVersions: absent JSON fields are read as empty text. The working directory join and JSON serialisation are left out. The `((...))` collapse of a version pattern is matched literally.
- NpmRelease: JSON serialisation, `execa`, `npm` itself and the version control revert of `restorePackageJson` are left out. `path.join` is not normalised. A scope check uses the text test `includes`, as the source does. The `testEmailRecip` option reaches `setPackageJson` as the list validation made of it (validate-options.ts:119-122), so the bugs email of a package can be written as a list; JSON serialisation of that list is left out.
- Help: the extraction of the option sections from the readme (`REGEX_HELP_*`) is left out; the options come in as values. File writes are left out. The `type.replace("\\|", "|")` at generate-help.ts:100 is applied before the type reaches the model.
- ValidateOptions: logging and the warnings about unexpanded environment variables (validate-options.ts:507-531) are left out. So are creating the log and dist directories (142-158, 287-292). File existence is an input. Non-string values given to string options would crash at string methods in the source; the model's option values are typed. A rejection carries the first line of the error the source logs.
- ReleaseRun: `verify`, `getGitAuthUrl`, `verifyAuth` and `fetch` are left out. The stages after level 3 (changelog edits, builds, releases, commit and tag) are left out. The results of the other stages are inputs, and so are `semver.coerce` and the first-release version (constants.ts is not part of this model). The effects of `runScripts`, `setVersions`, `revert` and `commitAndTag` inside the level-2 tasks are left out, except the `addEdit` of the changelog. An absent version concatenated into the output is the text `undefined`, as JavaScript prints it. An absent version, or a numeric pre-release identifier, passed to `stdout.write` directly (index.ts:454, 971, 1110) makes Node throw, and the run crashes with that message.
- LastRelease.GetLastRelease: uses the corrected production-version tracking of the first Findings row, so it returns a release where the source throws on an invalid tag after a production tag. The source's behaviour is `LastRelease.LastProdAsWritten`.
- ChangelogMd.GetSections: uses the corrected exact version match of the second Findings row. The source's prefix match is `ChangelogMd.SectionAsWritten`.
- NextVersion.GetNextVersion: uses the corrected bound level of the third Findings row. The source's behaviour is `NextVersion.GetNextVersionAsWritten`.
- ChangelogMd.GetHeader: uses the corrected title version of the fourth Findings row. The source's behaviour is `ChangelogMd.GetHeaderAsWritten`.
- Regexes.MdSection: uses the corrected lookahead of the fifth Findings row. The source's pattern is `Regexes.MdSectionAsWritten`.
- VersionSources.SetDotNetVersion: uses `includes` where the source calls the missing `Contains` (sixth Findings row). The source's behaviour is `VersionSources.SetDotNetVersionAsWritten`.
- SetVersions.SetFileStep: writes an entry's own JSON document (seventh Findings row). The source's behaviour is `SetVersions.SetFileStepAsWritten`.
- Help.GenerateHelp: checks the awaited existence of `src/args.ts` and `src/interface.ts` (last Findings row), and writes the intended command-line flag, `false` for an `n/a` argument list (the `generate-help.ts:131` Findings row). The source's behaviour on both is `Help.GenerateHelpAsWritten`, which marks every option `true`.
- ValidateOptions.TextEditor: the environment is read as on POSIX, where the variable is named `Path` exactly and is usually absent, so the search crashes on `split`. On Windows `process.env` finds `PATH` under the name `Path` too, and that case-insensitive lookup is not modelled.
- Commits.CompareByKey: `localeCompare` (get-commits.ts:262, 275) is read as ordinal comparison of the characters. The ICU collation Node uses orders differently, for example `add` before `Add` and `fix: x` before `fix(a): x`, so the model's order of equally ranked records can differ from the source's.
- LastRelease.RenderTag: lodash `template(tagFormat)({ version })` (index.ts:539, 1052; get-last-release.ts:96) is modelled as replacing every literal `${version}`. Lodash also expands `<%= version %>` and `${ version }` with spaces, evaluates other expressions, and throws on any other name; a tag format using those is not modelled.
- ChangelogMd.CreateSectionFromCommits: the base-class helpers `isSkippedCommitMessage`, `formatSubject` and `cleanMessage` (changelog-md.ts:43, 104) are not part of this model. They come in as the unconstrained functions of `ChangelogMd.Helpers`, so the contracts hold for any helper.
- CurrentVersion.ReadVersionFile: the user's `versionFiles` regular expression (get-current-version.ts:201-212) is not interpreted. Its successive first groups come in as the entry's `captures`.
- ValidateOptions.Validated: uses the corrected `package.json` type, resource file check, SVN path join and stdout task list of the Findings rows for validate-options.ts. The source's behaviour is `FromPackageAsWritten`, `RcFileCheckAsWritten`, `SvnPathAsWritten` and `StdOutTasksAsWritten`.

## Findings

Each row names a member that models the code as written, with a lemma exhibiting the discrepancy, and the corrected member the rest of the model uses. Nothing was executed.

| source | as written | input that shows it | evidently intended | confidence | as-written member | corrected member |
|---|---|---|---|---|---|---|
| src/lib/get-last-release.ts:56 | a tag whose version does not clean gives `cv = null`, and once a production version is recorded `semver.rcompare(lastProdVersion, null)` throws | tag format `v${version}`, tags `v1.0.0` then `v1.0` | an invalid version is skipped, as the tag filter skips it | high, not executed | LastRelease.InvalidAfterProdThrows | LastRelease.InvalidIgnored |
| src/lib/changelog/changelog-md.ts:604 | the section is located with a plain `indexOf` of `## <versionText> <version>`, a prefix match | asking for `1.2.1` in a changelog whose first section is `1.2.10` returns the `1.2.10` section | the header of exactly that version | high, not executed | ChangelogMd.PrefixTakenAsWritten | ChangelogMd.PrefixSkipped |
| src/lib/version/get-next-version.ts:42-56 | `prepatch` is coerced to `prerelease`, whose bound level after removing `pre` is `release`; `inc` returns `null` for it and `rcompare` throws | last version `1.5.0-beta.2`, production `1.5.0`, level `patch`, identifier `beta` | the chain continues with a plain `prerelease` step | medium (depends on the node-semver version), not executed | NextVersion.PatchChainThrowsAsWritten | NextVersion.PatchChainContinues |
| src/lib/version/get-next-version.ts:55-56 | with no production release yet, `inc(undefined, …)` is `null` and `rcompare` throws | semver, a pre-release identifier, no production tag | the first pre-release is not bounded | medium, not executed | NextVersion.NoProductionThrowsAsWritten | NextVersion.PatchChainContinues |
| src/lib/changelog/changelog-md.ts:372-390 | without a version argument and without `vcWebPath`, `titleVersion` stays `undefined` and the header reads `## Version undefined (date)` | `getHeader(context)` with `vcWebPath` unset | the title is the next release's version | high, not executed | ChangelogMd.HeaderAsWrittenUndefined | ChangelogMd.HeaderRoundTrip |
| src/lib/definitions/regexes.ts:27 | the lookahead `(?=^${versionText}` lacks the `## ` of a header line, so a section body runs on into the following sections | a changelog with two `## Version …` sections | the body ends at the next section header | high, not executed | Regexes.AsWrittenSwallowsNextSection | Regexes.SectionEndsAtNextHeader |
| src/lib/version/dotnet.ts:62 | `nextRelease.version.Contains(".")` calls a method strings do not have, and throws | any run with exactly one `AssemblyInfo` file | `includes(".")` | high, not executed | VersionSources.SetDotNetVersionThrows | VersionSources.SetDotNetVersion |
| src/lib/version/set-versions.ts:186 | a bare `package.json` entry of `setFiles` is written from the base file's JSON (`tvFile`), not its own | base `a/package.json`, `setFiles` entry `b/package.json` | the entry's own document with the new version | medium, not executed | SetVersions.SetFileJsonFromBase | SetVersions.SetFileStep |
| src/help/generate-help.ts:131 | the argument list, already quoted, is compared with the unquoted `n/a`, so every option is marked a command-line option | an option whose argument is `n/a` | `false` for an option without arguments | high, not executed | Help.CmdLineFlagAlwaysTrue | Help.CmdLineFlagIntendedAgrees |
| src/lib/validate-options.ts:174 | the repository type read from `package.json` is stored in `options.repo` | `package.json` with url and type, neither option set: the type is lost and validation fails | `options.repoType = …type` | high, not executed | ValidateOptions.PackageTypeLost | ValidateOptions.FromPackage |
| src/lib/validate-options.ts:412 | `options.cProjectRcFile.Contains(".rc")` calls a method strings do not have, and throws | any resource file given, such as `app.rc` | `includes(".rc")` | high, not executed | ValidateOptions.RcFileAlwaysThrows | ValidateOptions.RcFileCheck |
| src/lib/validate-options.ts:224-237 | the first `//` of the joined path is collapsed, which for a URL is the one after the scheme | svn repository `https://host/repo`, branch `trunk`: `https:/host/repo/trunk` | only the doubled slash at the join is collapsed | high, not executed | ValidateOptions.SchemeSlashLost | ValidateOptions.SvnPath |
| src/lib/validate-options.ts:591 | the stdout allow-list spells `taskCiEvInfo` | `taskModeStdOut` with `taskCiEnvInfo` | `taskCiEnvInfo` is allowed beside a stdout task | high, not executed | ValidateOptions.CiEnvInfoRefused | ValidateOptions.TasksChecked |
| src/help/generate-help.ts:174-192 | `pathExists(...)` is used without `await`, and a promise is always truthy | a project without `src/args.ts` | `Args file not found` for a missing file | high, not executed | Help.GenerateHelpAsWritten | Help.GenerateHelp |
