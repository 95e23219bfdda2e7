# clidiff core in Dafny

`clidiff` records the interface of a command-line program and reports what
changed between two recordings. It scrapes the program's `--help` output for
its long flags and its subcommands, and compares two such snapshots. A
removed flag or a removed subcommand counts as a breaking change; an
addition does not. This project models the core of `clidiff.go` and proves
properties of the model:

- `Wrappers` and `Collections`: an option type, Go's `map[T]bool` lookup
  (a missing key reads as false), lists without repeats, and suffixes.
- `Text`: the character classes of Go's regex syntax (`\w`, `\s`) and the
  `strings` functions the extractor uses (`TrimSpace`, `ToLower`,
  `HasSuffix`, `Split`), over `seq<char>`.
- `Extractor`:
  - `ParseFlags` is the source's loop over the matches of
    `--[a-zA-Z][\w-]*` with its `seen` map. It is proved equal to the first
    occurrences of every value in the ordered match list `FlagMatches`.
  - The matches are characterised without the scan: they are exactly the
    maximal name runs at the flag starts that no earlier flag's name run
    covers.
  - `ParseSubcommands` is the source's loop over the lines, with its
    `inSection` flag and its `continue`s. It is proved equal to the fold
    `SubcommandsOf` of a two-state machine. The machine reads the kind of
    each line (`Classify`): a header, a blank line, an entry with its name,
    or any other line, tested in the order the loop tests them.
    The loop body is the method `ScanLine`, one step of that machine.
  - Lemmas relate that fold to a description without the machine: a line
    emits a name exactly when an earlier header opened a section, no blank
    line has closed it since, the line is not itself a header, and it
    matches `^\s{2,}([a-zA-Z][\w-]*)\s`.
  - The regular expressions are written out as scanners.
- `Differ`:
  - `Snapshot` and `DiffResult` are datatypes.
  - `Subtract` is the two-loop `subtract` with its membership map, proved
    equal to the function `Minus`.
  - `Diff` is the pure function built from four subtractions, with its
    breaking verdict.
- `Reporter`:
  - `PrintDiff` returns the lines the source prints, in the source's order.
    It is proved equal to the function `Report`.
  - `ReadReport` is a reader that recovers the diff from those lines. The
    round trip shows the report loses nothing, as long as each line is
    printed as one line (see "Left out" for items that hold a newline).
- `Scenarios`: the help texts and snapshots of the unit tests, with what the
  model computes for each.

## Model

| member | source | states |
|---|---|---|
| Text.TrimSpace | clidiff.go:47 | the trimmed line has no space at either end; it is the slice of the line between the leading and the trailing spaces; it is empty exactly when the line is all spaces (Go's `unicode.IsSpace` set) |
| Text.TrimKeepsTail | clidiff.go:47 | trimming a line that ends in a text with no space at either end keeps that text at the end of the trimmed line |
| Text.ToLower | clidiff.go:47 | the folded line has the same length, each character is folded on its own, and no upper-case ASCII letter is left |
| Text.HasSuffix | clidiff.go:48 | true exactly when the string is what precedes the suffix followed by the suffix |
| Text.Split | clidiff.go:43 | the pieces contain no newline, there is at least one piece, and joining them with newlines gives back the text |
| Text.SplitJoin | clidiff.go:43 | splitting pieces that were joined with newlines gives back those pieces, so the split is the only newline-free decomposition |
| Extractor.FlagMatchesFrom | clidiff.go:26-29 | every match of the flag pattern from a given position is `--`, an ASCII letter, then only letters, digits, `_` or `-` |
| Extractor.FlagMatches | clidiff.go:29 | every match that `FindAllString` returns is a flag token |
| Extractor.FlagMatchOccurs | clidiff.go:26-29 | every match occurs in the text: it is the maximal name run of a flag start that no earlier flag's name run covers |
| Extractor.FlagFound | clidiff.go:26-29 | every flag start that no earlier flag's name run covers is matched as its whole maximal name run (so `x--help` and `---help` yield `--help`) |
| Extractor.FlagMatchesAre | clidiff.go:26-29 | a string is a match exactly when it is the maximal name run of an uncovered flag start |
| Extractor.BoundaryUncovered | clidiff.go:26 | a flag start at the start of the text or after a character outside `[\w-]` is uncovered |
| Extractor.NoDashNoFlags | clidiff.go:26-29 | a text without `-` has no matches |
| Extractor.TokenMatches | clidiff.go:26-29 | a flag token followed by a separator is matched whole and alone |
| Extractor.FlagMatchesConcat | clidiff.go:26-29 | after a character outside `[\w-]`, matching restarts: the matches of `u + v` are those of `u` followed by those of `v` |
| Extractor.Dedup | clidiff.go:30-37 | the deduplicated list is never longer than its input and holds nothing the input lacks |
| Extractor.DedupElements | clidiff.go:30-37 | deduplication keeps exactly the values of the match list |
| Extractor.DedupNoDuplicates | clidiff.go:30-37 | no value is kept twice |
| Extractor.DedupFirstOccurrenceOrder | clidiff.go:30-37 | the kept values are in the order of their first occurrences |
| Extractor.DedupOfDistinct | clidiff.go:30-37 | a list without repeats passes through unchanged |
| Extractor.ParseFlags | clidiff.go:28-39 | the result is the deduplicated match list: no repeats, exactly the matched values, every one a flag token |
| Extractor.Section | clidiff.go:44 | the `inSection` flag as two states, `Outside` (false, the initial value) and `Inside` (true) |
| Extractor.IsHeader | clidiff.go:47-48 | a line whose trimmed, lower-cased form ends in `commands:` is never blank |
| Extractor.IsBlank | clidiff.go:53 | `TrimSpace(line) == ""` holds exactly when every character of the line is a space |
| Extractor.CommandName | clidiff.go:57-58 | a name found is a match of `^\s{2,}([a-zA-Z][\w-]*)\s` whose indent is the whole leading run of `\s` |
| Extractor.CommandNameMatches | clidiff.go:57-58 | `Some(name)` exactly when the line matches the subcommand pattern with `name` as the group; a match, when there is one, is unique |
| Extractor.CommandNameUnique | clidiff.go:45 | every match begins where the leading `\s` run ends and its group is the maximal name run there |
| Extractor.Classify | clidiff.go:47-58 | a line is a header exactly when the header test holds, whatever else it is; blank exactly when it is no header and all spaces; an entry exactly when it is no header and matches the subcommand pattern (a blank line never matches), named by the group |
| Extractor.Step | clidiff.go:48-56 | after a line the section is open exactly when the line is a header, or the section was open and the line is not blank |
| Extractor.Emitted | clidiff.go:52-59 | a line contributes at most one name: the entry's name when the section is open, and nothing otherwise |
| Extractor.StateAfter | clidiff.go:44-56 | the scan starts outside; after a header it is inside and after a blank line outside |
| Extractor.SubcommandsOf | clidiff.go:46-61 | the scan never emits more names than there are lines |
| Extractor.ParseSubcommands | clidiff.go:41-63 | the loop with `inSection` and its `continue`s emits exactly what the section machine emits over the kinds of the split lines |
| Extractor.ScanLine | clidiff.go:47-59 | one pass of the loop body: a header sets `inSection`, a blank line inside clears it, and another line inside appends its match; this is one step of the section machine on the line's kind |
| Extractor.HeaderLine | clidiff.go:47-48 | any title followed by `Commands:` is a header line, whatever the title's case or leading spaces |
| Extractor.NotHeader | clidiff.go:47-48 | a line that ends in neither a space nor `:` is not a header |
| Extractor.EntryName | clidiff.go:57-58 | an indent of two or more `\s`, an identifier and a description that starts with `\s` yield that identifier, and the line is not blank |
| Extractor.BlankHasNoName | clidiff.go:53-57 | a whitespace-only line never matches the subcommand pattern |
| Extractor.MachineStep | clidiff.go:46-61 | one more line moves the state by one step and appends that line's emission |
| Extractor.SectionAfterPlainLine | clidiff.go:52-56 | after a line that is not a header, a section is open exactly when it was open before the line and the line is not blank |
| Extractor.StateAfterInside | clidiff.go:46-56 | the scan is inside before line `k` exactly when some earlier line is a header and no line since is blank; a header seen while inside keeps it inside |
| Extractor.HeadersAndBlanksEmitNothing | clidiff.go:48-56 | header lines and blank lines never contribute a name |
| Extractor.SubcommandsStep | clidiff.go:57-59 | each line appends its own name exactly when it emits and nothing otherwise, so names come out in line order, one per emitting line, with no deduplication |
| Extractor.SubcommandsMembership | clidiff.go:46-61 | a name is in the result exactly when some line inside a section, not a header, matches with that name |
| Differ.Snapshot | clidiff.go:11-16 | the recorded interface: command, flags, subcommands and capture time, in the struct's field order |
| Differ.DiffResult | clidiff.go:18-24 | the four change lists and the breaking verdict, in the struct's field order |
| Differ.Minus | clidiff.go:85-97 | the subtraction is never longer than `a` |
| Differ.Subtract | clidiff.go:85-97 | the two loops with the membership map compute `Minus(a, b)` |
| Differ.MinusMembership | clidiff.go:85-97 | a value is in `subtract(a, b)` exactly when it is in `a` and not in `b` |
| Differ.MinusCount | clidiff.go:85-97 | every occurrence in `a` of a value that is not in `b` is kept; a value in `b` has no occurrence left |
| Differ.MinusConcat | clidiff.go:85-97 | subtraction works piece by piece, so it keeps `a`'s order |
| Differ.MinusIgnoresForeign | clidiff.go:85-97 | adding to `b` values that `a` lacks changes nothing |
| Differ.MinusNoDuplicates | clidiff.go:85-97 | subtracting from a list without repeats gives a list without repeats |
| Differ.MinusSelf | clidiff.go:85-97 | subtracting a list from itself leaves nothing |
| Differ.Diff | clidiff.go:74-83 | the diff is breaking exactly when a removal list is non-empty |
| Differ.DiffMembership | clidiff.go:76-79 | each of the four lists holds exactly the values on one side and not the other |
| Differ.DiffBreaking | clidiff.go:81 | the diff is breaking exactly when some old flag or old subcommand is missing from the new snapshot |
| Differ.AdditionsAreNotBreaking | clidiff.go:81 | adding new flags and subcommands to the new snapshot leaves the removals and the verdict unchanged |
| Differ.DiffSelf | clidiff.go:74-83 | a snapshot compared with itself gives four empty lists and no breaking change |
| Differ.DiffDisjoint | clidiff.go:76-79 | no flag is both removed and added, and likewise for subcommands |
| Differ.DiffSwap | clidiff.go:76-79 | comparing the other way round exchanges removals and additions |
| Differ.DiffKeepsFlagsUnique | clidiff.go:76-77 | snapshots with unique flags give removed and added flag lists without repeats |
| Reporter.NoChanges | clidiff.go:100 | the early-return test: not breaking, no added flag and no added subcommand; for a diff whose verdict matches its removals, true exactly when all four lists are empty |
| Reporter.Report | clidiff.go:99-119 | the report is the no-change line alone, or one line per removed and added item plus two lines for the warning |
| Reporter.PrintDiff | clidiff.go:99-119 | the four loops print the lines of `Report`: the no-change line alone, or the removed flags, removed subcommands, added flags and added subcommands in that order, then the warning if breaking |
| Reporter.ReportNoChanges | clidiff.go:100-103 | the report is the no-change line alone exactly when the diff is not breaking and adds no flag and no subcommand |
| Reporter.WarningIffBreaking | clidiff.go:116-118 | the warning line is printed exactly when the diff is breaking |
| Reporter.ReadReport | clidiff.go:99-119 | a breaking verdict is read only from lines that end with the empty line and the warning; apart from the no-change line, every line read is one item or part of the warning |
| Reporter.ReadReportOfReport | clidiff.go:99-119 | for a diff whose verdict matches its removals, reading the report back gives the diff |
| Reporter.ReportInjective | clidiff.go:99-119 | two such diffs with the same report are equal |
| Reporter.ReadReportOfDiff | clidiff.go:99-119 | the report of any computed diff reads back as that diff |
| Scenarios.FlagMatchesOfHelp | clidiff_test.go:10-27 | the options listing's matches are `--verbose`, `--output`, `--help`; the single-dash `-h` gives none |
| Scenarios.ParseFlagsOfOptions | clidiff_test.go:10-27 | `ParseFlags` on the options listing returns `--verbose`, `--output`, `--help` |
| Scenarios.HelpLines | clidiff_test.go:30-51 | the commands listing splits into its ten lines, the last one empty |
| Scenarios.KindsOfHelpLines | clidiff_test.go:30-40 | the usage line is plain, `Available Commands:` is a header, the three indented lines are entries named `init`, `build`, `test`, `Flags:` and the indented `--help` line are plain, and the empty lines are blank |
| Scenarios.SubcommandsOfListing | clidiff.go:46-61 | in a listing of plain, blank, header, three entries, blank, two plain lines and a blank, exactly the three entries are emitted, in order |
| Scenarios.SubcommandsOfHelpLines | clidiff_test.go:30-51 | the scan of those lines emits `init`, `build`, `test`, and nothing after the blank line that ends the section |
| Scenarios.ParseSubcommandsOfCommands | clidiff_test.go:30-51 | `ParseSubcommands` on the commands listing returns `init`, `build`, `test`, in order |
| Scenarios.DiffOfBreakingChange | clidiff_test.go:53-75 | dropping `--format` and `deploy` and adding `--json` gives removed `[--format]`, `[deploy]`, added `[--json]`, and is breaking |
| Scenarios.DiffOfAdditions | clidiff_test.go:77-87 | only adding `--debug` and `build` is not breaking |

## Left out

- `LoadSnapshot` (clidiff.go:65-72) reads a file and decodes JSON. Snapshots are taken as given values.
- main.go is process glue: argument dispatch, running the program, the clock, writing JSON and `os.Exit`. It is not part of this model. Its exit status of 1 on a breaking diff is not modelled.
- `fmt` output: `PrintDiff` returns its lines instead of writing them. Each string is one printed line, without its newline.
- `PrintDiff`'s warning is printed with a leading `"\n"`. It is modelled as two lines: an empty one, then the warning.
- Reporter.PrintDiff: each item is one string of the result, taken as one printed line. A snapshot read from JSON may hold an item with a `'\n'` in it, and then `Printf` prints it over several lines. The model does not split such items, so "one string per line" and the `ReadReport` round trip describe the output only for items without a newline.
- Text.ToLower: folds ASCII letters only. No non-ASCII character lowercases to a character of `commands:`, so the header test is unaffected.
- Go's `regexp` engine is not modelled generally. Only the two fixed patterns are written out, as scanners over characters.
- Invalid UTF-8: Go strings are bytes. The model works on characters, so byte sequences that are not valid UTF-8 are not represented.
- Go's nil and empty slices are not distinguished: an empty result is `[]`.
