/**
 * The help texts and snapshots of the repository's unit tests, with what the
 * model computes for them: the flags of an options listing, the subcommands
 * of a commands section, and a breaking and a non-breaking diff.
 */
module Scenarios {
  import opened Wrappers
  import opened Text
  import opened Extractor
  import opened Differ

  // The options listing: three flags, one of them behind the short `-h`.

  const OptionsHead: string := "Usage: myapp [OPTIONS]\n" + "\n" + "Options:\n"
  const VerboseLine: string := "  " + "--verbose " + "      Enable verbose output\n"
  const OutputLine: string := "  " + "--output " + "FILE   Output file path\n"
  const HelpLine: string := "  -h," + " " + "--help " + "     Show help\n"
  const FlagHelp: string := OptionsHead + VerboseLine + OutputLine + HelpLine

  /** A line whose only dash run is one flag token followed by a space yields that token alone. */
  lemma OneTokenLine(lead: string, token: string, rest: string)
    requires lead != [] && !IsNameChar(lead[|lead| - 1]) && FlagMatches(lead) == []
    requires IsFlagToken(token) && '-' !in rest
    ensures FlagMatches(lead + (token + [' ']) + rest) == [token]
  {
    FlagMatchesConcat(lead, token + [' ']);
    FlagMatchesConcat(lead + (token + [' ']), rest);
    TokenMatches(token, ' ');
    NoDashNoFlags(rest);
  }

  /** The `-h, --help` line: the single-dash `-h` is no match, `--help` is. */
  lemma HelpLineFlags()
    ensures FlagMatches(HelpLine) == ["--help"]
  {
    assert FlagMatches("-h,") == [];
    FlagMatchesConcat("  ", "-h,");
    FlagMatchesConcat("  -h,", " ");
    NoDashNoFlags("  ");
    NoDashNoFlags(" ");
    assert "--help " == "--help" + [' '];
    OneTokenLine("  -h," + " ", "--help", "     Show help\n");
  }

  /** The `--verbose` line yields `--verbose`. */
  lemma VerboseLineFlags()
    ensures FlagMatches(VerboseLine) == ["--verbose"]
  {
    NoDashNoFlags("  ");
    assert "--verbose " == "--verbose" + [' '];
    OneTokenLine("  ", "--verbose", "      Enable verbose output\n");
  }

  /** The `--output FILE` line yields `--output`; the argument name is no flag. */
  lemma OutputLineFlags()
    ensures FlagMatches(OutputLine) == ["--output"]
  {
    NoDashNoFlags("  ");
    assert "--output " == "--output" + [' '];
    OneTokenLine("  ", "--output", "FILE   Output file path\n");
  }

  /** The matches of the whole options listing, in text order. */
  lemma FlagMatchesOfHelp()
    ensures FlagMatches(FlagHelp) == ["--verbose", "--output", "--help"]
  {
    NoDashNoFlags(OptionsHead);
    VerboseLineFlags();
    OutputLineFlags();
    HelpLineFlags();
    var p1 := OptionsHead + VerboseLine;
    var p2 := p1 + OutputLine;
    FlagMatchesConcat(OptionsHead, VerboseLine);
    assert FlagMatches(p1) == ["--verbose"];
    FlagMatchesConcat(p1, OutputLine);
    assert FlagMatches(p2) == ["--verbose", "--output"];
    FlagMatchesConcat(p2, HelpLine);
  }

  /** The three matches are distinct, so deduplication keeps them all. */
  lemma FlagsOfHelp()
    ensures Dedup(FlagMatches(FlagHelp)) == ["--verbose", "--output", "--help"]
  {
    FlagMatchesOfHelp();
    DedupOfDistinct(["--verbose", "--output", "--help"]);
  }

  // The commands listing: three subcommands, then a flags section. The
  // lines are written as concatenations of their parts (indent, name,
  // description) so that the lemmas below can name each part.

  const UsageLine: string := "Usage: myapp <command>"
  const CommandsHeader: string := "Available " + "Commands:"
  const InitEntry: string := "  " + "init" + "        Initialize a project"
  const BuildEntry: string := "  " + "build" + "       Build the project"
  const TestEntry: string := "  " + "test" + "        Run tests"
  const FlagsHeader: string := "Flags:"
  const HelpEntry: string := "  " + "--help   Show help"

  /** The commands listing, line by line; the text ends in a newline, so the last line is empty. */
  const SubcommandLines: seq<string> :=
    [UsageLine, "", CommandsHeader, InitEntry, BuildEntry, TestEntry, "", FlagsHeader, HelpEntry, ""]

  /** The same listing as one text. */
  const SubcommandHelp: string :=
    UsageLine + "\n" + ("" + "\n" + (CommandsHeader + "\n" + (InitEntry + "\n" + (BuildEntry + "\n" + (TestEntry + "\n"
    + ("" + "\n" + (FlagsHeader + "\n" + (HelpEntry + "\n" + ""))))))))

  /** Joining a first line onto the rest puts one newline between them. */
  lemma JoinCons(first: string, rest: seq<string>)
    requires |rest| >= 1
    ensures Join([first] + rest) == first + "\n" + Join(rest)
  {
    assert ([first] + rest)[1..] == rest;
  }

  /** The last four lines of the listing, joined. */
  lemma JoinOfTail()
    ensures Join(SubcommandLines[6..]) == "" + "\n" + (FlagsHeader + "\n" + (HelpEntry + "\n" + ""))
  {
    var l := SubcommandLines;
    JoinCons(HelpEntry, [""]);
    JoinCons(FlagsHeader, l[8..]);
    JoinCons("", l[7..]);
  }

  /** The three entries and what follows them, joined. */
  lemma JoinOfSection()
    ensures Join(SubcommandLines[3..]) == InitEntry + "\n" + (BuildEntry + "\n" + (TestEntry + "\n" + Join(SubcommandLines[6..])))
  {
    var l := SubcommandLines;
    JoinCons(TestEntry, l[6..]);
    JoinCons(BuildEntry, l[5..]);
    JoinCons(InitEntry, l[4..]);
  }

  /** The whole listing, joined. */
  lemma JoinOfAll()
    ensures Join(SubcommandLines) == UsageLine + "\n" + ("" + "\n" + (CommandsHeader + "\n" + Join(SubcommandLines[3..])))
  {
    var l := SubcommandLines;
    JoinCons(CommandsHeader, l[3..]);
    JoinCons("", l[2..]);
    JoinCons(UsageLine, l[1..]);
  }

  /** No line of the listing holds a newline. */
  lemma LinesHaveNoNewline()
    ensures forall k :: 0 <= k < |SubcommandLines| ==> '\n' !in SubcommandLines[k]
  {
  }

  /** Splitting the listing's text on newlines gives back its ten lines. */
  lemma HelpLines()
    ensures Split(SubcommandHelp) == SubcommandLines
  {
    JoinOfTail();
    JoinOfSection();
    JoinOfAll();
    LinesHaveNoNewline();
    SplitJoin(SubcommandLines);
  }

  /** A line that starts with a non-space character has no indent, so it is no entry. */
  lemma UnindentedKind(line: string)
    requires line != [] && !IsSpace(line[0]) && !IsHeader(line)
    ensures Classify(line) == Other
  {
    RegexSpaceIsSpace(line[0]);
    assert SpaceEnd(line, 0) == 0;
    assert TrimSpace(line) != [];
  }

  /** An entry line of the listing: two spaces, a name, and a description after a space. */
  lemma IndentedEntry(name: string, description: string)
    requires |name| >= 1 && IsLetter(name[0]) && forall i :: 1 <= i < |name| ==> IsNameChar(name[i])
    requires |description| >= 2 && description[0] == ' '
    requires !IsSpace(description[|description| - 1]) && description[|description| - 1] != ':'
    ensures Classify("  " + name + description) == Entry(name)
  {
    var line := "  " + name + description;
    assert line[|line| - 1] == description[|description| - 1];
    NotHeader(line);
    EntryName("  ", name, description);
  }

  /** The kind of each distinct line of the commands listing. */
  lemma UsageKind() ensures Classify(UsageLine) == Other {
    NotHeader(UsageLine);
    UnindentedKind(UsageLine);
  }
  lemma HeaderKind() ensures Classify(CommandsHeader) == Header {
    HeaderLine("Available ");
  }
  lemma EmptyKind() ensures Classify("") == Blank {
  }
  lemma InitKind() ensures Classify(InitEntry) == Entry("init") {
    IndentedEntry("init", "        Initialize a project");
  }
  lemma BuildKind() ensures Classify(BuildEntry) == Entry("build") {
    IndentedEntry("build", "       Build the project");
  }
  lemma TestKind() ensures Classify(TestEntry) == Entry("test") {
    IndentedEntry("test", "        Run tests");
  }
  lemma FlagsKind() ensures Classify(FlagsHeader) == Other {
    TrimSpaceOfTrimmed(FlagsHeader);
    UnindentedKind(FlagsHeader);
  }

  /** An indented flag is no entry: the name must start with a letter. */
  lemma IndentedDash(rest: string)
    requires rest != [] && rest[0] == '-'
    ensures CommandName("  " + rest).None?
  {
    var line := "  " + rest;
    assert SpaceEnd(line, 2) == 2;
    assert SpaceEnd(line, 0) == SpaceEnd(line, 1) == SpaceEnd(line, 2);
  }

  /** The indented `--help` line under `Flags:` is no entry. */
  lemma HelpEntryKind() ensures Classify(HelpEntry) == Other {
    NotHeader(HelpEntry);
    IndentedDash("--help   Show help");
    assert TrimSpace(HelpEntry) != [];
  }

  /** Classifying each line with `f`; `Kinds` is this with `Classify`. */
  function MapLines(f: string -> LineKind, lines: seq<string>): seq<LineKind> {
    seq(|lines|, k requires 0 <= k < |lines| => f(lines[k]))
  }

  /** `Kinds` is `MapLines` with `Classify`. */
  lemma KindsIsMapLines(lines: seq<string>)
    ensures Kinds(lines) == MapLines(Classify, lines)
  {
  }

  /**
   * Ten lines whose kinds under `f` are known, classified as a whole. The
   * classifier is a parameter so that the proof only uses the ten given
   * facts and never unfolds `Classify` on a line picked out of the list.
   */
  lemma MapLinesOfTen(f: string -> LineKind,
                      l0: string, l1: string, l2: string, l3: string, l4: string,
                      l5: string, l6: string, l7: string, l8: string, l9: string,
                      k0: LineKind, k1: LineKind, k2: LineKind, k3: LineKind, k4: LineKind,
                      k5: LineKind, k6: LineKind, k7: LineKind, k8: LineKind, k9: LineKind)
    requires f(l0) == k0 && f(l1) == k1 && f(l2) == k2 && f(l3) == k3 && f(l4) == k4
    requires f(l5) == k5 && f(l6) == k6 && f(l7) == k7 && f(l8) == k8 && f(l9) == k9
    ensures MapLines(f, [l0, l1, l2, l3, l4, l5, l6, l7, l8, l9]) == [k0, k1, k2, k3, k4, k5, k6, k7, k8, k9]
  {
  }

  /** Usage, blank, header, three entries, blank, `Flags:`, its indented flag, and the final empty line. */
  const SubcommandKinds: seq<LineKind> :=
    [Other, Blank, Header, Entry("init"), Entry("build"), Entry("test"), Blank, Other, Other, Blank]

  /** The kind of each line of the commands listing. */
  lemma KindsOfHelpLines()
    ensures Kinds(SubcommandLines) == SubcommandKinds
  {
    UsageKind();
    HeaderKind();
    InitKind();
    BuildKind();
    TestKind();
    FlagsKind();
    HelpEntryKind();
    EmptyKind();
    KindsIsMapLines(SubcommandLines);
    MapLinesOfTen(Classify, UsageLine, "", CommandsHeader, InitEntry, BuildEntry, TestEntry, "", FlagsHeader, HelpEntry, "",
                  Other, Blank, Header, Entry("init"), Entry("build"), Entry("test"), Blank, Other, Other, Blank);
  }

  /** Usage line, blank line, header: nothing is emitted and the section is open. */
  lemma ScanToHeader()
    ensures StateAfter([Other, Blank, Header]) == Inside
    ensures SubcommandsOf([Other, Blank, Header]) == []
  {
    var kinds := [Other, Blank, Header];
    assert kinds[..0] == [] && kinds[..1] == [Other] && kinds[..2] == [Other, Blank] && kinds[..3] == kinds;
    MachineStep(kinds, 0);
    MachineStep(kinds, 1);
    MachineStep(kinds, 2);
  }

  /** An entry inside a section is emitted, and the section stays open. */
  lemma EntryInside(pre: seq<LineKind>, name: string)
    requires StateAfter(pre) == Inside
    ensures StateAfter(pre + [Entry(name)]) == Inside
    ensures SubcommandsOf(pre + [Entry(name)]) == SubcommandsOf(pre) + [name]
  {
    var kinds := pre + [Entry(name)];
    assert kinds[..|pre|] == pre && kinds[..|pre| + 1] == kinds;
    MachineStep(kinds, |pre|);
  }

  /** A blank line closes the section and emits nothing. */
  lemma SectionCloses(pre: seq<LineKind>)
    requires StateAfter(pre) == Inside
    ensures StateAfter(pre + [Blank]) == Outside
    ensures SubcommandsOf(pre + [Blank]) == SubcommandsOf(pre)
  {
    var kinds := pre + [Blank];
    assert kinds[..|pre|] == pre && kinds[..|pre| + 1] == kinds;
    MachineStep(kinds, |pre|);
  }

  /** Outside a section, any line but a header emits nothing and leaves the state outside. */
  lemma QuietOutside(pre: seq<LineKind>, kind: LineKind)
    requires StateAfter(pre) == Outside && kind != Header
    ensures StateAfter(pre + [kind]) == Outside
    ensures SubcommandsOf(pre + [kind]) == SubcommandsOf(pre)
  {
    var kinds := pre + [kind];
    assert kinds[..|pre|] == pre && kinds[..|pre| + 1] == kinds;
    MachineStep(kinds, |pre|);
  }

  /** The shape of the commands listing: only the entries before the blank line are emitted. */
  lemma SubcommandsOfListing(a: string, b: string, c: string)
    ensures SubcommandsOf([Other, Blank, Header, Entry(a), Entry(b), Entry(c), Blank, Other, Other, Blank]) == [a, b, c]
  {
    var p3 := [Other, Blank, Header];
    ScanToHeader();
    var p4 := p3 + [Entry(a)];
    EntryInside(p3, a);
    var p5 := p4 + [Entry(b)];
    EntryInside(p4, b);
    var p6 := p5 + [Entry(c)];
    EntryInside(p5, c);
    var p7 := p6 + [Blank];
    SectionCloses(p6);
    var p8 := p7 + [Other];
    QuietOutside(p7, Other);
    var p9 := p8 + [Other];
    QuietOutside(p8, Other);
    var p10 := p9 + [Blank];
    QuietOutside(p9, Blank);
    assert SubcommandsOf(p10) == [] + [a] + [b] + [c] == [a, b, c];
    assert p10 == [Other, Blank, Header, Entry(a), Entry(b), Entry(c), Blank, Other, Other, Blank];
  }

  /** The machine over the listing's kinds emits the three entries and nothing after the blank line. */
  lemma SubcommandsOfKinds()
    ensures SubcommandsOf(SubcommandKinds) == ["init", "build", "test"]
  {
    SubcommandsOfListing("init", "build", "test");
  }

  /** The scan of the commands listing's lines emits `init`, `build`, `test`. */
  lemma SubcommandsOfHelpLines()
    ensures SubcommandsOf(Kinds(SubcommandLines)) == ["init", "build", "test"]
  {
    KindsOfHelpLines();
    SubcommandsOfKinds();
  }

  /** `ParseFlags` on the options listing finds the three long flags and not `-h`. */
  method ParseFlagsOfOptions() returns (flags: seq<string>)
    ensures flags == ["--verbose", "--output", "--help"]
  {
    flags := ParseFlags(FlagHelp);
    FlagsOfHelp();
  }

  /** `ParseSubcommands` on the commands listing finds the three entries, in order. */
  method ParseSubcommandsOfCommands() returns (names: seq<string>)
    ensures names == ["init", "build", "test"]
  {
    names := ParseSubcommands(SubcommandHelp);
    HelpLines();
    SubcommandsOfHelpLines();
  }

  /** A flag and a subcommand dropped, a flag added: breaking. */
  lemma DiffOfBreakingChange()
    ensures Diff(Snapshot("", ["--verbose", "--output", "--format"], ["init", "build", "deploy"], ""),
                 Snapshot("", ["--verbose", "--output", "--json"], ["init", "build"], ""))
            == DiffResult(["--format"], ["--json"], ["deploy"], [], true)
  {
    var oldFlags := ["--verbose", "--output", "--format"];
    var newFlags := ["--verbose", "--output", "--json"];
    assert Minus(oldFlags[..2], newFlags) == [];
    assert Minus(oldFlags, newFlags) == ["--format"];
    assert Minus(newFlags[..2], oldFlags) == [];
    assert Minus(newFlags, oldFlags) == ["--json"];
    var oldCommands := ["init", "build", "deploy"];
    assert Minus(oldCommands[..2], ["init", "build"]) == [];
  }

  /** Only additions: not breaking. */
  lemma DiffOfAdditions()
    ensures Diff(Snapshot("", ["--verbose"], ["init"], ""), Snapshot("", ["--verbose", "--debug"], ["init", "build"], ""))
            == DiffResult([], ["--debug"], [], ["build"], false)
  {
  }
}
