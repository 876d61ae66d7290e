/** `src/help/generate-help.ts`: the option help of the readme turned into
    the `publishRcOpts` table of `src/args.ts` and the `IArgs` interface of
    `src/interface.ts`, with the help text word-wrapped by `buildHelp`. */
module Help {
  import opened Wrappers
  import opened Text

  // ---------------------------------------------------------------------
  // buildHelp: word wrapping
  // ---------------------------------------------------------------------

  /** Each word followed by one space, run together. */
  function Spaced(words: seq<string>): string
    decreases |words|
  {
    if |words| == 0 then "" else Spaced(words[..|words| - 1]) + (words[|words| - 1] + " ")
  }

  /** The pieces run together. */
  function Concat(parts: seq<string>): string
    decreases |parts|
  {
    if |parts| == 0 then "" else Concat(parts[..|parts| - 1]) + parts[|parts| - 1]
  }

  /** Where the wrapping of one input line stands: the output lines already
      cut, and the line being filled (`cutLine`). */
  datatype Wrapped = Wrapped(cut: seq<string>, line: string)

  /** The words of one input line wrapped: a word goes on the current line
      while that line is shorter than `max`, and starts a new line once it
      has reached `max`. The lines hold the words in order, each followed by
      one space; a line is cut only once it has reached `max` characters. */
  function Wrap(words: seq<string>, max: nat): (r: Wrapped)
    ensures Concat(r.cut) + r.line == Spaced(words)
    ensures forall i :: 0 <= i < |r.cut| ==> |r.cut[i]| >= max
    ensures |words| > 0 ==> EndsWith(r.line, words[|words| - 1] + " ")
    decreases |words|
  {
    if |words| == 0 then Wrapped([], "")
    else
      var w := Wrap(words[..|words| - 1], max);
      WrapStepKeeps(w, words[|words| - 1], max);
      WrapStep(w, words[|words| - 1], max)
  }

  /** One more word: onto the current line while it is shorter than `max`,
      otherwise the current line is cut and the word starts the next one. */
  function WrapStep(w: Wrapped, word: string, max: nat): Wrapped
  {
    if |w.line| < max then Wrapped(w.cut, w.line + (word + " "))
    else Wrapped(w.cut + [w.line], word + " ")
  }

  /** A step keeps the text, cuts only full lines and ends on the new word. */
  lemma WrapStepKeeps(w: Wrapped, word: string, max: nat)
    requires forall i :: 0 <= i < |w.cut| ==> |w.cut[i]| >= max
    ensures var v := WrapStep(w, word, max);
      && Concat(v.cut) + v.line == (Concat(w.cut) + w.line) + (word + " ")
      && (forall i :: 0 <= i < |v.cut| ==> |v.cut[i]| >= max)
      && EndsWith(v.line, word + " ")
  {
    var x := word + " ";
    if |w.line| < max {
      Assoc3(Concat(w.cut), w.line, x);
      assert (w.line + x)[|w.line|..] == x;
    } else {
      ConcatSnoc(w.cut, w.line);
      assert x[0..] == x;
    }
  }

  lemma WrapSnoc(words: seq<string>, i: nat, max: nat)
    requires i < |words|
    ensures Wrap(words[..i + 1], max) == WrapStep(Wrap(words[..i], max), words[i], max)
  {
    assert words[..i + 1][..i] == words[..i];
  }

  lemma ConcatSnoc(parts: seq<string>, x: string)
    ensures Concat(parts + [x]) == Concat(parts) + x
  {
    assert (parts + [x])[..|parts|] == parts;
  }

  lemma Assoc3(a: string, b: string, c: string)
    ensures (a + b) + c == a + (b + c)
  {
  }

  /** One output line: indentation, line start, text, line end, newline. */
  function Framed(space: string, lineStart: string, text: string, lineEnd: string): string
  {
    space + lineStart + text + lineEnd + "\n"
  }

  /** The cut lines, each framed with its trailing spaces trimmed. */
  function FramedLines(lines: seq<string>, space: string, lineStart: string, lineEnd: string): string
    decreases |lines|
  {
    if |lines| == 0 then ""
    else FramedLines(lines[..|lines| - 1], space, lineStart, lineEnd) + Framed(space, lineStart, TrimRight(lines[|lines| - 1]), lineEnd)
  }

  lemma FramedLinesSnoc(lines: seq<string>, x: string, space: string, lineStart: string, lineEnd: string)
    ensures FramedLines(lines + [x], space, lineStart, lineEnd)
      == FramedLines(lines, space, lineStart, lineEnd) + Framed(space, lineStart, TrimRight(x), lineEnd)
  {
    assert (lines + [x])[..|lines|] == lines;
  }

  /** What one input line adds to the help section. A non-empty line is
      split on spaces after trimming its end and wrapped; an empty line adds
      an empty framed line, and when the section then ends in a space and a
      newline its trailing white space is trimmed before the newline. */
  function AddLine(section: string, line: string, max: nat, space: string, lineStart: string, lineEnd: string): string
  {
    if line != "" then
      var w := Wrap(Split(TrimRight(line), ' '), max);
      section + FramedLines(w.cut, space, lineStart, lineEnd)
        + (if w.line != "" then Framed(space, lineStart, TrimRight(w.line), lineEnd) else "")
    else
      var s := section + Framed(space, lineStart, "", lineEnd);
      if EndsWith(s, " \n") then TrimRight(s) + "\n" else s
  }

  /** The help section after the input lines. */
  function Section(lines: seq<string>, max: nat, space: string, lineStart: string, lineEnd: string): string
    decreases |lines|
  {
    if |lines| == 0 then ""
    else AddLine(Section(lines[..|lines| - 1], max, space, lineStart, lineEnd), lines[|lines| - 1], max, space, lineStart, lineEnd)
  }

  /** `"` escaped as `\"`. */
  function EscapeQuotes(s: string): string
  {
    ReplaceAll(s, "\"", "\\\"")
  }

  /** `buildHelp(readmeHelp, max, space, escapeQuotes, lineStart, lineEnd,
      sectionEnd)`: the section without its last line end and newline
      (`substring` stops at 0 when the section is shorter), its leading
      white space trimmed, and the section end appended. */
  function HelpText(readmeHelp: string, max: nat, space: string, escapeQuotes: bool,
                    lineStart: string, lineEnd: string, sectionEnd: string): string
  {
    var text := if escapeQuotes then EscapeQuotes(readmeHelp) else readmeHelp;
    var h := Section(Split(text, '\n'), max, space, lineStart, lineEnd);
    var end := if |h| - |lineEnd| - 1 < 0 then 0 else |h| - |lineEnd| - 1;
    TrimLeft(h[..end]) + sectionEnd
  }

  /** A non-empty input line always leaves words on the line being filled,
      so its last output line is always emitted. */
  lemma LastLineEmitted(line: string, max: nat)
    ensures Wrap(Split(TrimRight(line), ' '), max).line != ""
  {
    var words := Split(TrimRight(line), ' ');
    assert EndsWith(Wrap(words, max).line, words[|words| - 1] + " ");
  }

  /** Escaping quotes turns each `"` into `\"` and leaves the text between
      quotes alone. */
  lemma EscapeQuotesPieces(s: string)
    ensures EscapeQuotes(s) == Join(Split(s, '"'), "\\\"")
  {
    assert "\"" == ['"'];
    ReplaceCharJoinsSplit(s, '"', "\\\"");
  }

  /** The words of one input line, wrapped and cut, in the order they came. */
  method WrapLine(words: seq<string>, max: nat, space: string, lineStart: string, lineEnd: string)
    returns (out: string, cutLine: string)
    ensures var w := Wrap(words, max); out == FramedLines(w.cut, space, lineStart, lineEnd) && cutLine == w.line
  {
    out := "";
    cutLine := "";
    var i := 0;
    while i < |words|
      invariant 0 <= i <= |words|
      invariant var w := Wrap(words[..i], max); out == FramedLines(w.cut, space, lineStart, lineEnd) && cutLine == w.line
    {
      var word := words[i];
      ghost var w := Wrap(words[..i], max);
      WrapSnoc(words, i, max);
      if |cutLine| < max {
        cutLine := cutLine + (word + " ");
      } else {
        FramedLinesSnoc(w.cut, w.line, space, lineStart, lineEnd);
        out := out + Framed(space, lineStart, TrimRight(cutLine), lineEnd);
        cutLine := word + " ";
      }
      i := i + 1;
    }
    assert words[..i] == words;
  }

  /** The body of the loop of `buildHelp` over the input lines. */
  method AddHelpLine(helpSection: string, line: string, max: nat, space: string, lineStart: string, lineEnd: string)
    returns (r: string)
    ensures r == AddLine(helpSection, line, max, space, lineStart, lineEnd)
  {
    r := helpSection;
    if line != "" {
      var out, cutLine := WrapLine(Split(TrimRight(line), ' '), max, space, lineStart, lineEnd);
      r := r + out;
      if cutLine != "" {
        r := r + Framed(space, lineStart, TrimRight(cutLine), lineEnd);
      }
    } else {
      r := r + Framed(space, lineStart, "", lineEnd);
      if EndsWith(r, " \n") {
        r := TrimRight(r) + "\n";
      }
    }
  }

  lemma SectionSnoc(lines: seq<string>, i: nat, max: nat, space: string, lineStart: string, lineEnd: string)
    requires i < |lines|
    ensures Section(lines[..i + 1], max, space, lineStart, lineEnd)
      == AddLine(Section(lines[..i], max, space, lineStart, lineEnd), lines[i], max, space, lineStart, lineEnd)
  {
    assert lines[..i + 1][..i] == lines[..i];
  }

  /** `buildHelp`: the loops over the input lines and their words. */
  method BuildHelp(readmeHelp: string, max: nat, space: string, escapeQuotes: bool,
                   lineStart: string, lineEnd: string, sectionEnd: string) returns (r: string)
    ensures r == HelpText(readmeHelp, max, space, escapeQuotes, lineStart, lineEnd, sectionEnd)
  {
    var text := readmeHelp;
    if escapeQuotes {
      text := EscapeQuotes(text);
    }
    var helpLines := Split(text, '\n');
    var helpSection := "";
    var i := 0;
    while i < |helpLines|
      invariant 0 <= i <= |helpLines|
      invariant helpSection == Section(helpLines[..i], max, space, lineStart, lineEnd)
    {
      SectionSnoc(helpLines, i, max, space, lineStart, lineEnd);
      helpSection := AddHelpLine(helpSection, helpLines[i], max, space, lineStart, lineEnd);
      i := i + 1;
    }
    assert helpLines[..i] == helpLines;
    var end := if |helpSection| - |lineEnd| - 1 < 0 then 0 else |helpSection| - |lineEnd| - 1;
    r := TrimLeft(helpSection[..end]) + sectionEnd;
  }

  // ---------------------------------------------------------------------
  // Option entries of args.ts and interface.ts
  // ---------------------------------------------------------------------

  /** One option as read from the readme: its name, type, default value,
      the quoted command-line argument list and the help text. */
  datatype Argument = Argument(name: string, typ: string, default: string, argument: string, help: string)

  /** The argument list as the readme gives it (`-a \| --arg`), quoted:
      `"-a", "--arg"` (only the first separator is rewritten). */
  function QuotedArgument(raw: string): (r: string)
    ensures |r| >= 2 && r[0] == '"' && r[|r| - 1] == '"'
  {
    "\"" + ReplaceFirst(raw, " \\| ", "\", \"") + "\""
  }

  /** The TypeScript type of an option in `IArgs`: a flag is `"Y" | "N"`, an
      `enum(a|b)` the union of its quoted alternatives, anything else itself. */
  function InterfaceType(t: string): (r: string)
    ensures t == "flag" ==> r == "\"Y\" | \"N\""
    ensures t != "flag" && !StartsWith(t, "enum") ==> r == t
  {
    if t == "flag" then "\"Y\" | \"N\""
    else if StartsWith(t, "enum") then "\"" + ReplaceAll(ReplaceFirst(ReplaceFirst(t, "enum(", ""), ")", ""), "|", "\" | \"") + "\""
    else t
  }

  /** `enum(a|b|…)` becomes `"a" | "b" | …` when no alternative holds `|`
      or `)`. */
  lemma EnumTypeQuoted(alts: seq<string>)
    requires |alts| > 0
    requires forall k :: 0 <= k < |alts| ==> NoChar(alts[k], '|') && NoChar(alts[k], ')')
    ensures InterfaceType("enum(" + Join(alts, "|") + ")") == "\"" + Join(alts, "\" | \"") + "\""
  {
    var j := Join(alts, "|");
    JoinNoChar(alts, "|", ')');
    EnumStrip(j);
    EnumIsEnum(j);
    assert "|" == ['|'];
    ReplaceCharJoinsSplit(j, '|', "\" | \"");
    SplitJoin(alts, '|');
  }

  lemma EnumIsEnum(j: string)
    ensures StartsWith("enum(" + j + ")", "enum") && "enum(" + j + ")" != "flag"
  {
    var t := "enum(" + j + ")";
    assert t[..4] == "enum";
    assert |t| >= 6;
  }

  /** Dropping `enum(` and the first `)` leaves the alternatives. */
  lemma EnumStrip(j: string)
    requires NoChar(j, ')')
    ensures ReplaceFirst(ReplaceFirst("enum(" + j + ")", "enum(", ""), ")", "") == j
  {
    assert "enum(" + j + ")" == "enum(" + (j + ")");
    ReplaceFirstPrefix("enum(", j + ")");
    FirstCharAfter(j, ')', "");
    assert j + [')'] + "" == j + ")";
    assert (j + ")")[..|j|] == j && (j + ")")[|j| + 1..] == "";
  }

  /** A joined text holds a character only if a piece or the separator does. */
  lemma {:induction false} JoinNoChar(parts: seq<string>, sep: string, c: char)
    requires NoChar(sep, c)
    requires forall k :: 0 <= k < |parts| ==> NoChar(parts[k], c)
    ensures NoChar(Join(parts, sep), c)
    decreases |parts|
  {
    if |parts| > 1 {
      JoinNoChar(parts[1..], sep, c);
      var rest := Join(parts[1..], sep);
      var s := parts[0] + sep + rest;
      assert Join(parts, sep) == s;
      forall i | 0 <= i < |s| ensures s[i] != c {
        if i < |parts[0]| {
          assert s[i] == parts[0][i];
        } else if i < |parts[0]| + |sep| {
          assert s[i] == sep[i - |parts[0]|];
        } else {
          assert s[i] == rest[i - |parts[0]| - |sep|];
        }
      }
    }
  }

  /** The default value as written into `args.ts`: quoted unless the type is
      a number or a boolean, which are lower-cased when set. */
  function DefaultText(a: Argument): (r: string)
    ensures a.typ != "number" && a.typ != "boolean" ==> r == "\"" + a.default + "\""
    ensures (a.typ == "number" || a.typ == "boolean") ==> r == ToLower(a.default)
  {
    if a.typ != "number" && a.typ != "boolean" then "\"" + a.default + "\""
    else if a.default != "" then ToLower(a.default)
    else a.default
  }

  /** Options kept out of the public help: the help generator, the
      developer test task, and every option whose name holds `Private.`. */
  predicate HelpPrivate(name: string)
  {
    name == "taskGenerateHelp" || name == "taskDevTest" || Contains(name, "Private.")
  }

  /** The command-line flag of an entry as written: the quoted argument list
      is compared with the unquoted `n/a`. */
  function CmdLineFlag(argument: string): string
  {
    if argument != "n/a" then "true" else "false"
  }

  /** The command-line flag as intended: false for an option without
      arguments. */
  function CmdLineFlagIntended(argument: string): string
  {
    if argument != "\"n/a\"" then "true" else "false"
  }

  /** The argument list of an entry: empty for `n/a`. */
  function ArgumentList(argument: string): string
  {
    if argument != "\"n/a\"" then " " + argument + " " else ""
  }

  /** As written, every option is marked as a command-line option, even one
      whose argument list is `n/a` and so left empty. */
  lemma CmdLineFlagAlwaysTrue(raw: string)
    ensures CmdLineFlag(QuotedArgument(raw)) == "true"
    ensures raw == "n/a" ==> ArgumentList(QuotedArgument(raw)) == ""
  {
    var q := QuotedArgument(raw);
    assert q[0] == '"' && "n/a"[0] == 'n';
    if raw == "n/a" {
      assert !Contains("n/a", " \\| ") by {
        forall i | 0 <= i <= 3 ensures !OccursAt("n/a", " \\| ", i) { }
      }
      assert q == "\"n/a\"";
    }
  }

  /** As intended, an option is a command-line option exactly when the
      readme gives it an argument list other than `n/a`, and then its
      argument list is not empty. */
  lemma CmdLineFlagIntendedAgrees(raw: string)
    ensures CmdLineFlagIntended(QuotedArgument(raw)) == "false" <==> raw == "n/a"
    ensures CmdLineFlagIntended(QuotedArgument(raw)) == "true" <==> ArgumentList(QuotedArgument(raw)) != ""
  {
    var q := ReplaceFirst(raw, " \\| ", "\", \"");
    assert QuotedArgument(raw) == "\"" + q + "\"";
    if raw == "n/a" {
      CmdLineFlagAlwaysTrue(raw);
      assert q == "n/a";
    } else if Contains(raw, " \\| ") {
      var i := IndexOf(raw, " \\| ");
      assert q[i] == '"' && NoChar("n/a", '"');
      assert QuotedArgument(raw)[1..|QuotedArgument(raw)| - 1] == q;
    } else {
      assert QuotedArgument(raw)[1..|QuotedArgument(raw)| - 1] == q;
    }
  }

  const S1: string := "    "
  const S3: string := S1 + S1 + S1
  const SHelp: string := S1 + S1 + S1 + S1 + "  "

  /** The help text of an option in `args.ts`: lines of at most about 70
      characters, each a quoted string literal joined by `+`. */
  function ArgsHelp(a: Argument): string
  {
    HelpText(a.help, 70, SHelp, true, "\"", "\\n\" +", "\",")
  }

  /** The help text of an option in `interface.ts`: doc comment lines of
      about 90 characters. */
  function DocHelp(a: Argument): string
  {
    HelpText(a.help, 90, S1, false, " * ", "", "")
  }

  /** The command-line flag written in an entry: as written or as
      intended. */
  function EntryFlag(argument: string, asWritten: bool): string
  {
    if asWritten then CmdLineFlag(argument) else CmdLineFlagIntended(argument)
  }

  /** The `publishRcOpts` entry of one option, its flag as written or as
      intended. */
  function ArgsEntry(a: Argument, asWritten: bool): string
  {
    ArgsEntryWith(a, EntryFlag(a.argument, asWritten), ArgsHelp(a))
  }

  /** Every quoted argument list is marked a command-line option as
      written; as intended, exactly the `n/a` list is not. */
  lemma FlagMarked(argument: string)
    requires |argument| > 0 && argument[0] == '"'
    ensures EntryFlag(argument, true) == "true"
    ensures EntryFlag(argument, false) == (if argument == "\"n/a\"" then "false" else "true")
  {
    assert argument != "n/a" by { assert "n/a"[0] == 'n'; }
  }

  /** The entry of an option carries that flag. */
  lemma EntryMarked(a: Argument)
    requires |a.argument| > 0 && a.argument[0] == '"'
    ensures ArgsEntry(a, true) == ArgsEntryWith(a, "true", ArgsHelp(a))
    ensures a.argument == "\"n/a\"" ==> ArgsEntry(a, false) == ArgsEntryWith(a, "false", ArgsHelp(a))
    ensures a.argument != "\"n/a\"" ==> ArgsEntry(a, false) == ArgsEntryWith(a, "true", ArgsHelp(a))
  {
    FlagMarked(a.argument);
  }

  /** The `IArgs` member of one option, its help wrapped as a doc comment. */
  function InterfaceEntry(a: Argument): string
  {
    InterfaceEntryWith(a, DocHelp(a))
  }

  function ArgsEntries(args: seq<Argument>, asWritten: bool): string
    decreases |args|
  {
    if |args| == 0 then "" else ArgsEntries(args[..|args| - 1], asWritten) + ArgsEntry(args[|args| - 1], asWritten)
  }

  function InterfaceEntries(args: seq<Argument>): string
    decreases |args|
  {
    if |args| == 0 then "" else InterfaceEntries(args[..|args| - 1]) + InterfaceEntry(args[|args| - 1])
  }

  const ArgsHead: string := "export const publishRcOpts =\n{\n"
  const InterfaceHead: string := "export interface IArgs\n{\n"

  /** `src/args.ts`: the entries trimmed, the last character (the comma
      after the last entry) dropped, and the table closed. */
  function ArgsFile(args: seq<Argument>, asWritten: bool): string
  {
    var c := Trim(ArgsHead + ArgsEntries(args, asWritten));
    (if |c| > 0 then c[..|c| - 1] else c) + "\n\n};\n"
  }

  /** The `IArgs` block: the entries trimmed and ended with a newline. */
  function InterfaceBlock(args: seq<Argument>): string
  {
    Trim(InterfaceHead + InterfaceEntries(args)) + "\n"
  }

  /** The outcome of `generateHelp`: the two generated texts, or the message
      it returns when a file is missing. */
  datatype HelpOutcome = Generated(argsContent: string, interfaceContent: string) | Failed(message: string)

  /** `generateHelp`, given the two readme texts, the options read from the
      first one and whether `src/args.ts` and `src/interface.ts` exist. */
  method GenerateHelp(readme: string, readme2: string, args: seq<Argument>, argsFileExists: bool, interfaceFileExists: bool)
    returns (r: HelpOutcome)
    ensures readme == "" || readme2 == "" <==> r == Failed("Readme file not found")
    ensures readme != "" && readme2 != "" && !argsFileExists ==> r == Failed("Args file not found")
    ensures readme != "" && readme2 != "" && argsFileExists && !interfaceFileExists ==> r == Failed("Interface file not found")
    ensures r.Generated? <==> readme != "" && readme2 != "" && argsFileExists && interfaceFileExists
    ensures r.Generated? ==> r.argsContent == ArgsFile(args, false) && r.interfaceContent == InterfaceBlock(args)
  {
    if readme == "" || readme2 == "" {
      return Failed("Readme file not found");
    }
    var argsContent, interfaceContent := Entries(args, ArgsHead, InterfaceHead, false);
    argsContent := Trim(argsContent);
    argsContent := (if |argsContent| > 0 then argsContent[..|argsContent| - 1] else argsContent) + "\n\n};\n";
    interfaceContent := Trim(interfaceContent) + "\n";
    if !argsFileExists {
      return Failed("Args file not found");
    }
    if !interfaceFileExists {
      return Failed("Interface file not found");
    }
    return Generated(argsContent, interfaceContent);
  }

  /** `generateHelp` as written: the existence of the two files is judged
      on the promise `pathExists` returns, not on its awaited value, and a
      promise is always truthy, so the missing-file messages are never
      returned and the texts are generated whether or not the files exist;
      and every entry's command-line flag is the always-true one. */
  method GenerateHelpAsWritten(readme: string, readme2: string, args: seq<Argument>, argsFileExists: bool, interfaceFileExists: bool)
    returns (r: HelpOutcome)
    ensures r.Generated? <==> readme != "" && readme2 != ""
    ensures r.Failed? ==> r.message == "Readme file not found"
    ensures r.Generated? ==> r.argsContent == ArgsFile(args, true) && r.interfaceContent == InterfaceBlock(args)
  {
    if readme == "" || readme2 == "" {
      return Failed("Readme file not found");
    }
    var argsContent, interfaceContent := Entries(args, ArgsHead, InterfaceHead, true);
    argsContent := Trim(argsContent);
    argsContent := (if |argsContent| > 0 then argsContent[..|argsContent| - 1] else argsContent) + "\n\n};\n";
    interfaceContent := Trim(interfaceContent) + "\n";
    return Generated(argsContent, interfaceContent);
  }

  /** The loop of `generateHelp` over the options: the two texts with every
      option's entry appended in order to the given heads. */
  method Entries(args: seq<Argument>, argsHead: string, interfaceHead: string, asWritten: bool) returns (argsContent: string, interfaceContent: string)
    ensures argsContent == argsHead + ArgsEntries(args, asWritten)
    ensures interfaceContent == interfaceHead + InterfaceEntries(args)
  {
    argsContent := argsHead;
    interfaceContent := interfaceHead;
    for i := 0 to |args|
      invariant argsContent == argsHead + ArgsEntries(args[..i], asWritten)
      invariant interfaceContent == interfaceHead + InterfaceEntries(args[..i])
    {
      EntriesSnoc(args, i, argsHead, interfaceHead, asWritten);
      argsContent, interfaceContent := AppendEntries(argsContent, interfaceContent, args[i], asWritten);
    }
    assert args[..|args|] == args;
  }

  /** The body of the loop of `generateHelp` over the options. */
  method AppendEntries(argsContent: string, interfaceContent: string, a: Argument, asWritten: bool) returns (args2: string, interface2: string)
    ensures args2 == argsContent + ArgsEntry(a, asWritten) && interface2 == interfaceContent + InterfaceEntry(a)
  {
    var argsHelp := BuildArgsHelp(a);
    var flag := if asWritten then CmdLineFlag(a.argument) else CmdLineFlagIntended(a.argument);
    args2 := argsContent + ArgsEntryWith(a, flag, argsHelp);
    var docHelp := BuildDocHelp(a);
    interface2 := interfaceContent + InterfaceEntryWith(a, docHelp);
  }

  method BuildArgsHelp(a: Argument) returns (h: string)
    ensures h == ArgsHelp(a)
  {
    h := BuildHelp(a.help, 70, SHelp, true, "\"", "\\n\" +", "\",");
  }

  method BuildDocHelp(a: Argument) returns (h: string)
    ensures h == DocHelp(a)
  {
    h := BuildHelp(a.help, 90, S1, false, " * ", "", "");
  }

  lemma EntriesSnoc(args: seq<Argument>, i: nat, argsHead: string, interfaceHead: string, asWritten: bool)
    requires i < |args|
    ensures argsHead + ArgsEntries(args[..i + 1], asWritten) == (argsHead + ArgsEntries(args[..i], asWritten)) + ArgsEntry(args[i], asWritten)
    ensures interfaceHead + InterfaceEntries(args[..i + 1]) == (interfaceHead + InterfaceEntries(args[..i])) + InterfaceEntry(args[i])
  {
    assert args[..i + 1][..i] == args[..i];
    Assoc3(argsHead, ArgsEntries(args[..i], asWritten), ArgsEntry(args[i], asWritten));
    Assoc3(interfaceHead, InterfaceEntries(args[..i]), InterfaceEntry(args[i]));
  }

  /** `ArgsEntry` with the flag and the help text already built. */
  function ArgsEntryWith(a: Argument, flag: string, help: string): string
  {
    "\n" + S1 + a.name + ": [\n" + S1 + S1 + flag + ",\n"
    + S1 + S1 + "\"" + a.typ + "\",\n"
    + S1 + S1 + DefaultText(a) + ",\n"
    + S1 + S1 + "[" + ArgumentList(a.argument) + "],\n"
    + S1 + S1 + "{\n"
    + S3 + "help: " + help
    + "\n" + S3 + "helpPrivate: " + (if HelpPrivate(a.name) then "true" else "false")
    + "\n" + S1 + S1 + "}\n" + S1 + "],\n"
  }

  /** `InterfaceEntry` with the help text already built. */
  function InterfaceEntryWith(a: Argument, help: string): string
  {
    S1 + "/**\n" + S1 + " " + help
    + "\n" + S1 + " */\n" + S1 + a.name + ": " + InterfaceType(a.typ) + ";\n"
  }
}
