/**
 * The help-text extractor: `ParseFlags` and `ParseSubcommands`, with the two
 * regular expressions of the source written out as scanners.
 */
module Extractor {
  import opened Wrappers
  import opened Text
  import opened Collections

  // ---------------------------------------------------------------------
  // Flags: the tokens of `--[a-zA-Z][\w-]*`
  // ---------------------------------------------------------------------

  /** A string of the shape `--[a-zA-Z][\w-]*`. */
  predicate IsFlagToken(x: string) {
    && |x| >= 3
    && x[0] == '-' && x[1] == '-'
    && IsLetter(x[2])
    && forall k :: 3 <= k < |x| ==> IsNameChar(x[k])
  }

  /** The end of the maximal run of `[\w-]` characters of `t` that starts at `j`. */
  function NameEnd(t: string, j: nat): (e: nat)
    requires j <= |t|
    ensures j <= e <= |t|
    ensures forall k :: j <= k < e ==> IsNameChar(t[k])
    ensures e < |t| ==> !IsNameChar(t[e])
    decreases |t| - j
  {
    if j < |t| && IsNameChar(t[j]) then NameEnd(t, j + 1) else j
  }

  /** The flag pattern has a match starting at position `i` of `t`. */
  predicate FlagStartsAt(t: string, i: nat) {
    i + 2 < |t| && t[i] == '-' && t[i + 1] == '-' && IsLetter(t[i + 2])
  }

  /**
   * The leftmost, non-overlapping, greedy matches of the flag pattern in
   * `t[i..]`, as `FindAllString` returns them: the search resumes where the
   * previous match ended.
   */
  function FlagMatchesFrom(t: string, i: nat): (ms: seq<string>)
    requires i <= |t|
    ensures forall k :: 0 <= k < |ms| ==> IsFlagToken(ms[k])
    decreases |t| - i
  {
    if i == |t| then
      []
    else if FlagStartsAt(t, i) then
      var e := NameEnd(t, i + 3);
      [t[i..e]] + FlagMatchesFrom(t, e)
    else
      FlagMatchesFrom(t, i + 1)
  }

  /** `flagRe.FindAllString(helpText, -1)`: every match is a flag token. */
  function FlagMatches(t: string): (ms: seq<string>)
    ensures forall k :: 0 <= k < |ms| ==> IsFlagToken(ms[k])
  {
    FlagMatchesFrom(t, 0)
  }

  /**
   * No flag start before `i` reaches past `i` with its name run: the scan
   * never jumps over position `i`.
   */
  ghost predicate Uncovered(t: string, i: nat) {
    forall q: nat :: q < i && FlagStartsAt(t, q) ==> NameEnd(t, q + 3) <= i
  }

  /** A flag start inside the name run of another flag start ends where that run ends. */
  lemma RunAfterInnerStart(t: string, j: nat, q: nat)
    requires FlagStartsAt(t, j) && FlagStartsAt(t, q)
    requires j < q < NameEnd(t, j + 3)
    ensures NameEnd(t, q + 3) == NameEnd(t, j + 3)
  {
    var e := NameEnd(t, j + 3);
    assert q != j + 1 && q != j + 2;
    assert q + 3 <= e by {
      if e < |t| {
        assert IsNameChar(t[q + 1]) && IsNameChar(t[q + 2]);
      }
    }
    NameEndOfRun(t, q + 3, e);
  }

  /** The scan resumes at uncovered positions only. */
  lemma UncoveredAfterMatch(t: string, j: nat)
    requires FlagStartsAt(t, j) && Uncovered(t, j)
    ensures Uncovered(t, NameEnd(t, j + 3))
  {
    var e := NameEnd(t, j + 3);
    forall q: nat | q < e && FlagStartsAt(t, q)
      ensures NameEnd(t, q + 3) <= e
    {
      if j < q {
        RunAfterInnerStart(t, j, q);
      }
    }
  }

  /**
   * Every match of the scan from an uncovered position `j` is the maximal
   * name run of an uncovered flag start at or after `j`.
   */
  lemma {:induction false} FlagMatchOccursFrom(t: string, j: nat, m: string)
    requires j <= |t| && Uncovered(t, j) && m in FlagMatchesFrom(t, j)
    ensures exists i: nat :: j <= i && FlagStartsAt(t, i) && Uncovered(t, i) && m == t[i..NameEnd(t, i + 3)]
    decreases |t| - j
  {
    if FlagStartsAt(t, j) {
      var e := NameEnd(t, j + 3);
      if m != t[j..e] {
        UncoveredAfterMatch(t, j);
        FlagMatchOccursFrom(t, e, m);
      }
    } else {
      assert j < |t|;
      assert Uncovered(t, j + 1);
      FlagMatchOccursFrom(t, j + 1, m);
    }
  }

  /** A match is present in the text: the maximal name run of an uncovered flag start. */
  lemma FlagMatchOccurs(t: string, m: string)
    requires m in FlagMatches(t)
    ensures exists i: nat :: FlagStartsAt(t, i) && Uncovered(t, i) && m == t[i..NameEnd(t, i + 3)]
  {
    FlagMatchOccursFrom(t, 0, m);
  }

  /** The scan from `j` reaches every uncovered flag start at or after `j`. */
  lemma {:induction false} FlagFoundFrom(t: string, j: nat, i: nat)
    requires j <= i && FlagStartsAt(t, i) && Uncovered(t, i)
    ensures t[i..NameEnd(t, i + 3)] in FlagMatchesFrom(t, j)
    decreases i - j
  {
    if j < i {
      if FlagStartsAt(t, j) {
        FlagFoundFrom(t, NameEnd(t, j + 3), i);
      } else {
        FlagFoundFrom(t, j + 1, i);
      }
    }
  }

  /**
   * A flag start that no earlier flag's name run covers is matched in full,
   * as in `x--help` or `---help`.
   */
  lemma FlagFound(t: string, i: nat)
    requires FlagStartsAt(t, i) && Uncovered(t, i)
    ensures t[i..NameEnd(t, i + 3)] in FlagMatches(t)
  {
    FlagFoundFrom(t, 0, i);
  }

  /** The matches are exactly the maximal name runs of the uncovered flag starts. */
  lemma FlagMatchesAre(t: string, m: string)
    ensures m in FlagMatches(t) <==> exists i: nat :: FlagStartsAt(t, i) && Uncovered(t, i) && m == t[i..NameEnd(t, i + 3)]
  {
    if m in FlagMatches(t) {
      FlagMatchOccurs(t, m);
    }
    if exists i: nat :: FlagStartsAt(t, i) && Uncovered(t, i) && m == t[i..NameEnd(t, i + 3)] {
      var i: nat :| FlagStartsAt(t, i) && Uncovered(t, i) && m == t[i..NameEnd(t, i + 3)];
      FlagFound(t, i);
    }
  }

  /** A flag start at the start of the text or after a character outside `[\w-]` is uncovered. */
  lemma BoundaryUncovered(t: string, i: nat)
    requires FlagStartsAt(t, i) && (i == 0 || !IsNameChar(t[i - 1]))
    ensures Uncovered(t, i)
  {
    forall q: nat | q < i && FlagStartsAt(t, q)
      ensures NameEnd(t, q + 3) <= i
    {
      assert q + 3 < i;
    }
  }

  /** A run of name characters ended by a non-name character is what `NameEnd` measures. */
  lemma {:induction false} NameEndOfRun(t: string, j: nat, e: nat)
    requires j <= e <= |t|
    requires forall k :: j <= k < e ==> IsNameChar(t[k])
    requires e < |t| ==> !IsNameChar(t[e])
    ensures NameEnd(t, j) == e
    decreases e - j
  {
    if j < e {
      NameEndOfRun(t, j + 1, e);
    }
  }

  /** Text without a dash holds no flag. */
  lemma {:induction false} NoDashNoFlagsFrom(t: string, i: nat)
    requires i <= |t|
    requires '-' !in t
    ensures FlagMatchesFrom(t, i) == []
    decreases |t| - i
  {
    if i < |t| {
      assert t[i] != '-';
      NoDashNoFlagsFrom(t, i + 1);
    }
  }

  lemma NoDashNoFlags(t: string)
    requires '-' !in t
    ensures FlagMatches(t) == []
  {
    NoDashNoFlagsFrom(t, 0);
  }

  /** A flag token followed by a separator is matched in full, and is the only match. */
  lemma TokenMatches(x: string, c: char)
    requires IsFlagToken(x) && !IsNameChar(c)
    ensures FlagMatches(x + [c]) == [x]
  {
    var t := x + [c];
    assert FlagStartsAt(t, 0);
    NameEndOfRun(t, 3, |x|);
    assert t[0..|x|] == x;
    assert FlagMatchesFrom(t, |x|) == FlagMatchesFrom(t, |x| + 1) == [];
  }

  /** Matching in `v` does not depend on text in front of it. */
  lemma {:induction false} FlagMatchesShift(u: string, v: string, j: nat)
    requires j <= |v|
    ensures FlagMatchesFrom(u + v, |u| + j) == FlagMatchesFrom(v, j)
    decreases |v| - j
  {
    var t := u + v;
    if j < |v| {
      assert FlagStartsAt(t, |u| + j) == FlagStartsAt(v, j);
      if FlagStartsAt(v, j) {
        ShiftedRun(u, v, j);
        FlagMatchesShift(u, v, NameEnd(v, j + 3));
      } else {
        FlagMatchesShift(u, v, j + 1);
      }
    }
  }

  /** A flag's name run in `v` is the same run, shifted, in `u + v`. */
  lemma {:induction false} ShiftedRun(u: string, v: string, j: nat)
    requires FlagStartsAt(v, j)
    ensures |u| + NameEnd(v, j + 3) == NameEnd(u + v, |u| + j + 3)
    ensures (u + v)[|u| + j..|u| + NameEnd(v, j + 3)] == v[j..NameEnd(v, j + 3)]
  {
    var t := u + v;
    var e := NameEnd(v, j + 3);
    forall k | |u| + j + 3 <= k < |u| + e ensures IsNameChar(t[k]) {
      assert t[k] == v[k - |u|];
    }
    if e < |v| {
      assert t[|u| + e] == v[e];
    }
    NameEndOfRun(t, |u| + j + 3, |u| + e);
    assert t[|u| + j..|u| + e] == v[j..e];
  }

  /** Matching in `u` does not look past a separator that ends it. */
  lemma {:induction false} FlagMatchesPrefix(u: string, v: string, i: nat)
    requires i <= |u| && u != [] && !IsNameChar(u[|u| - 1])
    ensures FlagMatchesFrom(u + v, i) == FlagMatchesFrom(u, i) + FlagMatchesFrom(u + v, |u|)
    decreases |u| - i
  {
    var t := u + v;
    if i < |u| {
      assert FlagStartsAt(t, i) == FlagStartsAt(u, i);
      if FlagStartsAt(u, i) {
        var e := NameEnd(u, i + 3);
        assert e < |u|;
        NameEndOfRun(t, i + 3, e);
        assert t[i..e] == u[i..e];
        FlagMatchesPrefix(u, v, e);
      } else {
        FlagMatchesPrefix(u, v, i + 1);
      }
    }
  }

  /**
   * The matches of a text cut after a separator (a character outside
   * `[\w-]`) are the matches of the two parts, in order.
   */
  lemma FlagMatchesConcat(u: string, v: string)
    requires u != [] && !IsNameChar(u[|u| - 1])
    ensures FlagMatches(u + v) == FlagMatches(u) + FlagMatches(v)
  {
    FlagMatchesPrefix(u, v, 0);
    FlagMatchesShift(u, v, 0);
  }

  /** Each value of `s` at its first occurrence, the later occurrences dropped: never longer, nothing new. */
  function Dedup<T(==)>(s: seq<T>): (r: seq<T>)
    ensures |r| <= |s|
    ensures forall x :: x in r ==> x in s
  {
    if s == [] then
      []
    else
      var init := s[..|s| - 1];
      if s[|s| - 1] in init then Dedup(init) else Dedup(init) + [s[|s| - 1]]
  }

  /** The position of the first occurrence of `x` in `s`. */
  function FirstIndex<T(==)>(s: seq<T>, x: T): (i: nat)
    requires x in s
    ensures i < |s| && s[i] == x && x !in s[..i]
  {
    if s[0] == x then
      0
    else
      var i := FirstIndex(s[1..], x);
      assert s[1..][..i] == s[..i + 1][1..];
      1 + i
  }

  lemma FirstIndexInPrefix<T>(p: seq<T>, q: seq<T>, x: T)
    requires x in p
    ensures FirstIndex(p + q, x) == FirstIndex(p, x)
  {
    var i := FirstIndex(p, x);
    var j := FirstIndex(p + q, x);
    assert (p + q)[i] == x;
    assert forall k :: 0 <= k < i ==> p[..i][k] == p[k];
    assert forall k :: 0 <= k < j ==> (p + q)[..j][k] == (p + q)[k];
  }

  /** `Dedup` keeps exactly the values of its input. */
  lemma {:induction false} DedupElements<T>(s: seq<T>, x: T)
    ensures x in Dedup(s) <==> x in s
  {
    if s != [] {
      var init := s[..|s| - 1];
      assert s == init + [s[|s| - 1]];
      DedupElements(init, x);
    }
  }

  /** `Dedup` keeps no value twice. */
  lemma {:induction false} DedupNoDuplicates<T>(s: seq<T>)
    ensures NoDuplicates(Dedup(s))
  {
    if s != [] {
      var init := s[..|s| - 1];
      DedupNoDuplicates(init);
      DedupElements(init, s[|s| - 1]);
    }
  }

  /** `Dedup` keeps the values in the order of their first occurrence. */
  lemma {:induction false} DedupFirstOccurrenceOrder<T>(s: seq<T>)
    ensures forall i, j :: 0 <= i < j < |Dedup(s)| ==>
              Dedup(s)[i] in s && Dedup(s)[j] in s && FirstIndex(s, Dedup(s)[i]) < FirstIndex(s, Dedup(s)[j])
  {
    if s != [] {
      var init := s[..|s| - 1];
      var last := s[|s| - 1];
      assert s == init + [last];
      var d := Dedup(init);
      DedupFirstOccurrenceOrder(init);
      forall x | x in d
        ensures x in init && FirstIndex(s, x) == FirstIndex(init, x)
      {
        DedupElements(init, x);
        FirstIndexInPrefix(init, [last], x);
      }
      var r := Dedup(s);
      forall i, j | 0 <= i < j < |r|
        ensures r[i] in s && r[j] in s && FirstIndex(s, r[i]) < FirstIndex(s, r[j])
      {
        assert r[i] == d[i] && d[i] in d;
        if j < |d| {
          assert r[j] == d[j] && d[j] in d;
          assert FirstIndex(init, d[i]) < FirstIndex(init, d[j]);
        } else {
          assert last !in init && r[j] == last;
          assert s[..|init|] == init;
          assert FirstIndex(s, last) == |init|;
        }
      }
    } else {
      assert Dedup(s) == [];
    }
  }

  /** A sequence without repeats is its own deduplication. */
  lemma {:induction false} DedupOfDistinct<T>(s: seq<T>)
    requires NoDuplicates(s)
    ensures Dedup(s) == s
  {
    if s != [] {
      var init := s[..|s| - 1];
      assert NoDuplicates(init);
      DedupOfDistinct(init);
      assert s == init + [s[|s| - 1]];
    }
  }

  /**
   * `ParseFlags`: the flag tokens of `helpText`, each once, in the order in
   * which they first occur.
   */
  method ParseFlags(helpText: string) returns (result: seq<string>)
    ensures result == Dedup(FlagMatches(helpText))
    ensures NoDuplicates(result)
    ensures forall x :: x in result <==> x in FlagMatches(helpText)
    ensures forall k :: 0 <= k < |result| ==> IsFlagToken(result[k])
  {
    var matches := FlagMatches(helpText);
    var seen: map<string, bool> := map[];
    result := [];
    for n := 0 to |matches|
      invariant result == Dedup(matches[..n])
      invariant forall x :: Present(seen, x) <==> x in matches[..n]
    {
      var m := matches[n];
      assert matches[..n + 1] == matches[..n] + [m];
      if !Present(seen, m) {
        seen := seen[m := true];
        result := result + [m];
      }
    }
    assert matches[..|matches|] == matches;
    DedupNoDuplicates(matches);
    forall x ensures x in result <==> x in matches {
      DedupElements(matches, x);
    }
    forall k | 0 <= k < |result| ensures IsFlagToken(result[k]) {
      assert result[k] in matches;
    }
  }

  // ---------------------------------------------------------------------
  // Subcommands: a two-state machine over the lines of the text
  // ---------------------------------------------------------------------

  /** Whether the scan is inside a commands section (the source's `inSection`). */
  datatype Section = Outside | Inside

  /** A line whose trimmed, lower-cased form ends in `commands:`; such a line is never blank. */
  function IsHeader(line: string): (b: bool)
    ensures b ==> !IsBlank(line)
  {
    HasSuffix(ToLower(TrimSpace(line)), "commands:")
  }

  /** A line that trims to nothing: one made of spaces only. */
  function IsBlank(line: string): (b: bool)
    ensures b <==> forall k :: 0 <= k < |line| ==> IsSpace(line[k])
  {
    TrimSpace(line) == ""
  }

  /** The end of the run of regex spaces of `line` that starts at `j`. */
  function SpaceEnd(line: string, j: nat): (e: nat)
    requires j <= |line|
    ensures j <= e <= |line|
    ensures forall k :: j <= k < e ==> IsRegexSpace(line[k])
    ensures e < |line| ==> !IsRegexSpace(line[e])
    decreases |line| - j
  {
    if j < |line| && IsRegexSpace(line[j]) then SpaceEnd(line, j + 1) else j
  }

  /**
   * `line` matches `^\s{2,}([a-zA-Z][\w-]*)\s` with the first `k` characters
   * as the leading spaces and `name` as the captured group.
   */
  predicate NameAt(line: string, k: nat, name: string) {
    && 2 <= k && 1 <= |name| && k + |name| < |line|
    && (forall i :: 0 <= i < k ==> IsRegexSpace(line[i]))
    && line[k..k + |name|] == name
    && IsLetter(name[0])
    && (forall i :: 1 <= i < |name| ==> IsNameChar(name[i]))
    && IsRegexSpace(line[k + |name|])
  }

  /**
   * The submatch `m[1]` of the subcommand pattern, or None when the line
   * does not match. A name found is a match whose indent is the whole
   * leading run of spaces.
   */
  function CommandName(line: string): (r: Option<string>)
    ensures r.Some? ==> NameAt(line, SpaceEnd(line, 0), r.value)
  {
    var k := SpaceEnd(line, 0);
    if 2 <= k < |line| && IsLetter(line[k]) then
      var e := NameEnd(line, k + 1);
      if e < |line| && IsRegexSpace(line[e]) then
        assert forall i :: 1 <= i < e - k ==> line[k..e][i] == line[k + i];
        Some(line[k..e])
      else
        None
    else
      None
  }

  /**
   * `CommandName` yields a name exactly when the line matches the subcommand
   * pattern, and then it is the pattern's group; the match is unique.
   */
  lemma CommandNameMatches(line: string)
    ensures CommandName(line).Some? ==> exists k: nat :: NameAt(line, k, CommandName(line).value)
    ensures forall k: nat, name: string :: NameAt(line, k, name) ==> CommandName(line) == Some(name)
  {
    CommandNameUnique(line);
    var k := SpaceEnd(line, 0);
    if 2 <= k < |line| && IsLetter(line[k]) {
      var e := NameEnd(line, k + 1);
      if e < |line| && IsRegexSpace(line[e]) {
        assert NameAt(line, k, line[k..e]);
      }
    }
  }

  /** Any match of the subcommand pattern starts where the leading spaces end and spans the maximal name. */
  lemma CommandNameUnique(line: string)
    ensures forall k: nat, name: string :: NameAt(line, k, name) ==>
              k == SpaceEnd(line, 0) && k + |name| == NameEnd(line, k + 1) && name == line[k..k + |name|]
  {
    forall k: nat, name: string | NameAt(line, k, name)
      ensures k == SpaceEnd(line, 0) && k + |name| == NameEnd(line, k + 1)
    {
      var k0 := SpaceEnd(line, 0);
      assert !IsRegexSpace(line[k]);
      assert forall i :: 0 <= i < k0 ==> IsRegexSpace(line[i]);
      assert k0 <= k;
      assert k0 < |line| ==> !IsRegexSpace(line[k0]);
      assert k == k0;
      var e := k + |name|;
      var e0 := NameEnd(line, k + 1);
      assert forall i :: k + 1 <= i < e ==> line[i] == name[i - k];
      assert forall i :: k + 1 <= i < e0 ==> IsNameChar(line[i]);
      assert e <= e0;
      assert e0 < |line| ==> !IsNameChar(line[e0]);
      assert e == e0;
    }
  }

  /** What a line is to the scan: the source tests for a header first, then for a blank line, then the entry pattern. */
  datatype LineKind = Header | Blank | Entry(name: string) | Other

  /**
   * The header test wins; a blank line never matches the entry pattern, so a
   * line is an entry exactly when it is no header and matches, named by the
   * group.
   */
  function Classify(line: string): (kind: LineKind)
    ensures kind == Header <==> IsHeader(line)
    ensures kind == Blank <==> !IsHeader(line) && IsBlank(line)
    ensures kind.Entry? <==> !IsHeader(line) && CommandName(line).Some?
    ensures kind.Entry? ==> CommandName(line) == Some(kind.name)
  {
    if IsHeader(line) then Header
    else if IsBlank(line) then BlankHasNoName(line); Blank
    else match CommandName(line)
      case Some(name) => Entry(name)
      case None => Other
  }

  /** The kind of every line, in order. */
  function Kinds(lines: seq<string>): seq<LineKind> {
    seq(|lines|, k requires 0 <= k < |lines| => Classify(lines[k]))
  }

  /**
   * The state after one line: a header enters (or stays in) the section, a
   * blank line leaves it; the section is open after the line exactly when
   * the line is a header, or it was open and the line is not blank.
   */
  function Step(state: Section, kind: LineKind): (next: Section)
    ensures next == Inside <==> kind == Header || (state == Inside && kind != Blank)
  {
    match kind
    case Header => Inside
    case Blank => if state == Inside then Outside else state
    case _ => state
  }

  /** The names one line contributes in a given state: the entry's name inside a section, else none. */
  function Emitted(state: Section, kind: LineKind): (names: seq<string>)
    ensures |names| <= 1
    ensures names != [] <==> state == Inside && kind.Entry?
    ensures names != [] ==> names[0] == kind.name
  {
    if state == Inside && kind.Entry? then [kind.name] else []
  }

  /**
   * The state of the machine after it has read `kinds`, starting outside: a
   * final header leaves it inside, a final blank line outside, and before
   * any line it is outside.
   */
  function StateAfter(kinds: seq<LineKind>): (state: Section)
    ensures kinds == [] ==> state == Outside
    ensures kinds != [] && kinds[|kinds| - 1] == Header ==> state == Inside
    ensures kinds != [] && kinds[|kinds| - 1] == Blank ==> state == Outside
  {
    if kinds == [] then Outside
    else Step(StateAfter(kinds[..|kinds| - 1]), kinds[|kinds| - 1])
  }

  /** The names the machine emits while reading `kinds`: never more than there are lines. */
  function SubcommandsOf(kinds: seq<LineKind>): (names: seq<string>)
    ensures |names| <= |kinds|
  {
    if kinds == [] then []
    else
      var init := kinds[..|kinds| - 1];
      SubcommandsOf(init) + Emitted(StateAfter(init), kinds[|kinds| - 1])
  }

  /** One more line moves the machine by `Step` and appends what `Emitted` gives. */
  lemma MachineStep(kinds: seq<LineKind>, k: nat)
    requires k < |kinds|
    ensures StateAfter(kinds[..k + 1]) == Step(StateAfter(kinds[..k]), kinds[k])
    ensures SubcommandsOf(kinds[..k + 1]) == SubcommandsOf(kinds[..k]) + Emitted(StateAfter(kinds[..k]), kinds[k])
  {
    assert kinds[..k + 1][..k] == kinds[..k];
  }

  /**
   * `ParseSubcommands`: the names of the indented entries of the commands
   * sections of `helpText`, in line order and not deduplicated.
   */
  method ParseSubcommands(helpText: string) returns (result: seq<string>)
    ensures result == SubcommandsOf(Kinds(Split(helpText)))
  {
    result := [];
    var lines := Split(helpText);
    ghost var kinds := Kinds(lines);
    var inSection := false;
    for n := 0 to |lines|
      invariant result == SubcommandsOf(kinds[..n])
      invariant inSection <==> StateAfter(kinds[..n]) == Inside
    {
      MachineStep(kinds, n);
      var names;
      inSection, names := ScanLine(lines[n], inSection);
      result := result + names;
    }
    assert kinds[..|lines|] == kinds;
  }

  /**
   * One iteration of the loop of `ParseSubcommands`: a header enters the
   * section, a blank line inside leaves it, and any other line inside yields
   * its entry name, if it has one.
   */
  method ScanLine(line: string, inSection: bool) returns (next: bool, names: seq<string>)
    ensures next <==> Step(if inSection then Inside else Outside, Classify(line)) == Inside
    ensures names == Emitted(if inSection then Inside else Outside, Classify(line))
  {
    next, names := inSection, [];
    var trimmed := ToLower(TrimSpace(line));
    if HasSuffix(trimmed, "commands:") {
      next := true;
      return;
    }
    if inSection {
      if TrimSpace(line) == "" {
        next := false;
        return;
      }
      var m := CommandName(line);
      if m.Some? {
        names := [m.value];
      }
    }
  }

  /** ASCII case folding turns `Commands:` into `commands:`. */
  lemma LowerCommands()
    ensures ToLower("Commands:") == "commands:"
  {
  }

  /** Any title followed by `Commands:` is a header. */
  lemma HeaderLine(title: string)
    ensures IsHeader(title + "Commands:")
  {
    var r := TrimSpace(title + "Commands:");
    TrimKeepsTail(title, "Commands:");
    LowerOfTail(r, "Commands:");
    LowerCommands();
  }

  /** A line whose last character is neither a space nor a colon is no header. */
  lemma NotHeader(line: string)
    requires line != [] && !IsSpace(line[|line| - 1]) && line[|line| - 1] != ':'
    ensures !IsHeader(line)
  {
    var r := TrimSpace(line);
    assert r != [];
    assert LeadingSpaces(line) + |r| == |line|;
    assert r[|r| - 1] == line[|line| - 1];
    assert ToLower(r)[|r| - 1] != ':';
  }

  /**
   * A line made of at least two spaces, an identifier and a description that
   * starts with a space is an entry: it yields the identifier and is not blank.
   */
  lemma EntryName(indent: string, name: string, description: string)
    requires |indent| >= 2 && forall i :: 0 <= i < |indent| ==> IsRegexSpace(indent[i])
    requires |name| >= 1 && IsLetter(name[0]) && forall i :: 1 <= i < |name| ==> IsNameChar(name[i])
    requires |description| >= 1 && IsRegexSpace(description[0])
    ensures CommandName(indent + name + description) == Some(name)
    ensures !IsBlank(indent + name + description)
  {
    var line := indent + name + description;
    assert line[|indent|..|indent| + |name|] == name;
    assert NameAt(line, |indent|, name);
    assert !IsSpace(line[|indent|]);
  }

  // ---------------------------------------------------------------------
  // The section boundaries, stated without the machine
  // ---------------------------------------------------------------------

  /** Header line `h` opens a section that is still open before line `k`. */
  ghost predicate OpensSection(lines: seq<string>, h: nat, k: nat)
    requires h < k <= |lines|
  {
    IsHeader(lines[h]) && forall m :: h < m < k ==> !IsBlank(lines[m])
  }

  /**
   * Before line `k` the scan is inside a section: some earlier line is a
   * header and no line after it and before `k` is blank.
   */
  ghost predicate InSectionAt(lines: seq<string>, k: nat)
    requires k <= |lines|
  {
    exists h: nat :: h < k && OpensSection(lines, h, k)
  }

  /** Line `k` contributes a name: it is in a section, it is not a header, and it matches. */
  ghost predicate EmitsAt(lines: seq<string>, k: nat)
    requires k < |lines|
  {
    InSectionAt(lines, k) && !IsHeader(lines[k]) && CommandName(lines[k]).Some?
  }

  /** A blank line never matches the subcommand pattern. */
  lemma BlankHasNoName(line: string)
    requires IsBlank(line)
    ensures CommandName(line).None?
  {
    var k := SpaceEnd(line, 0);
    if k < |line| {
      assert IsSpace(line[k]);
    }
  }

  /** A section opened at `h` stays open over line `k` exactly when that line is not blank. */
  lemma OpensSectionStep(lines: seq<string>, h: nat, k: nat)
    requires h < k < |lines|
    ensures OpensSection(lines, h, k + 1) <==> OpensSection(lines, h, k) && !IsBlank(lines[k])
  {
    var blanks := seq(|lines|, m requires 0 <= m < |lines| => IsBlank(lines[m]));
    RangeStep(blanks, h, k);
  }

  /** No flag is set in `(h, k]` exactly when none is set in `(h, k)` and `blanks[k]` is not. */
  lemma RangeStep(blanks: seq<bool>, h: nat, k: nat)
    requires h < k < |blanks|
    ensures (forall m :: h < m < k + 1 ==> !blanks[m]) <==> (forall m :: h < m < k ==> !blanks[m]) && !blanks[k]
  {
  }

  /** A line that is not a header keeps a section open exactly when it is not blank. */
  lemma SectionAfterPlainLine(lines: seq<string>, j: nat)
    requires j < |lines| && !IsHeader(lines[j])
    ensures InSectionAt(lines, j + 1) <==> InSectionAt(lines, j) && !IsBlank(lines[j])
  {
    if InSectionAt(lines, j + 1) {
      var h: nat :| h < j + 1 && OpensSection(lines, h, j + 1);
      assert h != j;
      OpensSectionStep(lines, h, j);
      assert OpensSection(lines, h, j);
    }
    if InSectionAt(lines, j) && !IsBlank(lines[j]) {
      var h: nat :| h < j && OpensSection(lines, h, j);
      OpensSectionStep(lines, h, j);
      assert OpensSection(lines, h, j + 1);
    }
  }

  /** The machine is inside exactly when the declarative section condition holds. */
  lemma {:induction false} StateAfterInside(lines: seq<string>, k: nat)
    requires k <= |lines|
    ensures StateAfter(Kinds(lines)[..k]) == Inside <==> InSectionAt(lines, k)
  {
    if k > 0 {
      var j := k - 1;
      StateAfterInside(lines, j);
      MachineStep(Kinds(lines), j);
      if IsHeader(lines[j]) {
        assert OpensSection(lines, j, k);
      } else {
        SectionAfterPlainLine(lines, j);
      }
    }
  }

  /** The names line `k` contributes: its name when it emits, nothing otherwise. */
  ghost function EmittedAt(lines: seq<string>, k: nat): seq<string>
    requires k < |lines|
  {
    if EmitsAt(lines, k) then [CommandName(lines[k]).value] else []
  }

  /**
   * Reading one more line appends that line's name exactly when the line
   * emits: the names come out in line order, at most one per line.
   */
  lemma SubcommandsStep(lines: seq<string>, k: nat)
    requires k < |lines|
    ensures SubcommandsOf(Kinds(lines)[..k + 1]) == SubcommandsOf(Kinds(lines)[..k]) + EmittedAt(lines, k)
  {
    MachineStep(Kinds(lines), k);
    StateAfterInside(lines, k);
  }

  /** Header lines and blank lines never contribute a name. */
  lemma HeadersAndBlanksEmitNothing(lines: seq<string>, k: nat)
    requires k < |lines| && (IsHeader(lines[k]) || IsBlank(lines[k]))
    ensures SubcommandsOf(Kinds(lines)[..k + 1]) == SubcommandsOf(Kinds(lines)[..k])
  {
    MachineStep(Kinds(lines), k);
  }

  /** Line `k` emits the name `x`. */
  ghost predicate EmitsName(lines: seq<string>, k: nat, x: string)
    requires k < |lines|
  {
    EmitsAt(lines, k) && CommandName(lines[k]) == Some(x)
  }

  /** Every name the scan emits comes from a line that emits it. */
  lemma {:induction false} EmittedComesFromLine(lines: seq<string>, n: nat, x: string)
    requires n <= |lines| && x in SubcommandsOf(Kinds(lines)[..n])
    ensures exists k :: 0 <= k < n && EmitsName(lines, k, x)
  {
    var j := n - 1;
    SubcommandsStep(lines, j);
    if x in SubcommandsOf(Kinds(lines)[..j]) {
      EmittedComesFromLine(lines, j, x);
      var k :| 0 <= k < j && EmitsName(lines, k, x);
      assert 0 <= k < n;
    } else {
      assert x in EmittedAt(lines, j);
      assert EmitsName(lines, j, x);
    }
  }

  /** A line that emits a name puts it in the result of every longer scan. */
  lemma {:induction false} LineNameIsEmitted(lines: seq<string>, n: nat, k: nat, x: string)
    requires k < n <= |lines| && EmitsName(lines, k, x)
    ensures x in SubcommandsOf(Kinds(lines)[..n])
  {
    var j := n - 1;
    SubcommandsStep(lines, j);
    var before, here := SubcommandsOf(Kinds(lines)[..j]), EmittedAt(lines, j);
    assert SubcommandsOf(Kinds(lines)[..n]) == before + here;
    if k < j {
      LineNameIsEmitted(lines, j, k, x);
      assert x in before;
    } else {
      assert k == j;
      assert EmitsAt(lines, k) && CommandName(lines[k]).value == x;
      assert here == [x];
    }
  }

  /** A name is emitted exactly when some line emits it. */
  lemma SubcommandsMembership(lines: seq<string>, n: nat, x: string)
    requires n <= |lines|
    ensures x in SubcommandsOf(Kinds(lines)[..n]) <==> exists k :: 0 <= k < n && EmitsName(lines, k, x)
  {
    if x in SubcommandsOf(Kinds(lines)[..n]) {
      EmittedComesFromLine(lines, n, x);
    }
    if exists k :: 0 <= k < n && EmitsName(lines, k, x) {
      var k :| 0 <= k < n && EmitsName(lines, k, x);
      LineNameIsEmitted(lines, n, k, x);
    }
  }
}
