/**
 * The report printed for a diff, as the sequence of lines written to standard
 * output, and a reader that recovers the diff from those lines.
 */
module Reporter {
  import opened Wrappers
  import opened Differ
  import opened Collections

  const NoChangesLine := "\U{2705} No changes detected."
  const RemovedFlagTag := "\U{274C} BREAKING: flag removed: "
  const RemovedCommandTag := "\U{274C} BREAKING: subcommand removed: "
  const AddedFlagTag := "\U{2705} Added flag: "
  const AddedCommandTag := "\U{2705} Added subcommand: "
  const WarningLine := "\U{26A0}\U{FE0F}  Breaking changes detected! Exit code 1."

  /** One line per item, each item behind `tag`. */
  function Tagged(tag: string, items: seq<string>): (lines: seq<string>)
    ensures |lines| == |items|
    ensures forall k :: 0 <= k < |items| ==> lines[k] == tag + items[k]
  {
    seq(|items|, k requires 0 <= k < |items| => tag + items[k])
  }

  /**
   * The early-return condition of `PrintDiff`: not breaking and nothing added.
   * Removals count only through the verdict, so for a diff whose verdict
   * matches its removals this means that all four lists are empty.
   */
  predicate NoChanges(r: DiffResult): (b: bool)
    ensures Consistent(r) ==> (b <==> r.removedFlags == [] && r.addedFlags == [] && r.removedCommands == [] && r.addedCommands == [])
  {
    !r.hasBreaking && |r.addedFlags| == 0 && |r.addedCommands| == 0
  }

  /** The trailer: an empty line (the warning's leading newline), then the warning. */
  function Trailer(hasBreaking: bool): seq<string> {
    if hasBreaking then ["", WarningLine] else []
  }

  /**
   * The lines `PrintDiff` writes, one string per `Println`/`Printf` line:
   * the no-change line alone, or one line per listed item and two more for
   * the warning.
   */
  function Report(r: DiffResult): (lines: seq<string>)
    ensures NoChanges(r) ==> |lines| == 1
    ensures !NoChanges(r) ==>
              |lines| == |r.removedFlags| + |r.removedCommands| + |r.addedFlags| + |r.addedCommands|
                         + (if r.hasBreaking then 2 else 0)
  {
    if NoChanges(r) then [NoChangesLine]
    else
      Tagged(RemovedFlagTag, r.removedFlags) + Tagged(RemovedCommandTag, r.removedCommands)
      + Tagged(AddedFlagTag, r.addedFlags) + Tagged(AddedCommandTag, r.addedCommands)
      + Trailer(r.hasBreaking)
  }

  /** `PrintDiff`: the early return for an unchanged interface, then one loop per list. */
  method PrintDiff(r: DiffResult) returns (out: seq<string>)
    ensures out == Report(r)
  {
    if !r.hasBreaking && |r.addedFlags| == 0 && |r.addedCommands| == 0 {
      out := [NoChangesLine];
      return;
    }
    out := [];
    for i := 0 to |r.removedFlags|
      invariant out == Tagged(RemovedFlagTag, r.removedFlags[..i])
    {
      out := out + [RemovedFlagTag + r.removedFlags[i]];
    }
    assert r.removedFlags[..|r.removedFlags|] == r.removedFlags;
    ghost var before := out;
    for i := 0 to |r.removedCommands|
      invariant out == before + Tagged(RemovedCommandTag, r.removedCommands[..i])
    {
      out := out + [RemovedCommandTag + r.removedCommands[i]];
    }
    assert r.removedCommands[..|r.removedCommands|] == r.removedCommands;
    before := out;
    for i := 0 to |r.addedFlags|
      invariant out == before + Tagged(AddedFlagTag, r.addedFlags[..i])
    {
      out := out + [AddedFlagTag + r.addedFlags[i]];
    }
    assert r.addedFlags[..|r.addedFlags|] == r.addedFlags;
    before := out;
    for i := 0 to |r.addedCommands|
      invariant out == before + Tagged(AddedCommandTag, r.addedCommands[..i])
    {
      out := out + [AddedCommandTag + r.addedCommands[i]];
    }
    assert r.addedCommands[..|r.addedCommands|] == r.addedCommands;
    if r.hasBreaking {
      out := out + ["", WarningLine];
    }
  }

  predicate StartsWith(line: string, tag: string) {
    |tag| <= |line| && line[..|tag|] == tag
  }

  /** The leading run of lines behind `tag`, with the tag removed, and the lines after it. */
  function TakeTagged(tag: string, lines: seq<string>): (p: (seq<string>, seq<string>))
    ensures |p.0| + |p.1| == |lines|
  {
    if lines != [] && StartsWith(lines[0], tag) then
      var rest := TakeTagged(tag, lines[1..]);
      ([lines[0][|tag|..]] + rest.0, rest.1)
    else ([], lines)
  }

  /**
   * Reads a report back into the diff it shows; `None` for lines no report
   * has. A breaking verdict is read only from lines that end with the
   * warning, and apart from the no-change line every line read is one item
   * or part of the warning.
   */
  function ReadReport(lines: seq<string>): (d: Option<DiffResult>)
    ensures d.Some? && d.value.hasBreaking ==> |lines| >= 2 && lines[|lines| - 2..] == ["", WarningLine]
    ensures d.Some? && lines != [NoChangesLine] ==>
              |lines| == |d.value.removedFlags| + |d.value.removedCommands| + |d.value.addedFlags| + |d.value.addedCommands|
                         + (if d.value.hasBreaking then 2 else 0)
  {
    if lines == [NoChangesLine] then Some(DiffResult([], [], [], [], false))
    else
      var (removedFlags, rest1) := TakeTagged(RemovedFlagTag, lines);
      var (removedCommands, rest2) := TakeTagged(RemovedCommandTag, rest1);
      var (addedFlags, rest3) := TakeTagged(AddedFlagTag, rest2);
      var (addedCommands, rest4) := TakeTagged(AddedCommandTag, rest3);
      if rest4 == [] then Some(DiffResult(removedFlags, addedFlags, removedCommands, addedCommands, false))
      else if rest4 == ["", WarningLine] then
        ReadsToEnd(lines);
        Some(DiffResult(removedFlags, addedFlags, removedCommands, addedCommands, true))
      else None
  }

  /** What the four readers leave is the end of the lines. */
  lemma {:induction false} ReadsToEnd(lines: seq<string>)
    ensures var rest1 := TakeTagged(RemovedFlagTag, lines).1;
            var rest2 := TakeTagged(RemovedCommandTag, rest1).1;
            var rest3 := TakeTagged(AddedFlagTag, rest2).1;
            IsSuffix(TakeTagged(AddedCommandTag, rest3).1, lines)
  {
    var rest1 := TakeTagged(RemovedFlagTag, lines).1;
    var rest2 := TakeTagged(RemovedCommandTag, rest1).1;
    var rest3 := TakeTagged(AddedFlagTag, rest2).1;
    var rest4 := TakeTagged(AddedCommandTag, rest3).1;
    TakeTaggedRest(RemovedFlagTag, lines);
    TakeTaggedRest(RemovedCommandTag, rest1);
    TakeTaggedRest(AddedFlagTag, rest2);
    TakeTaggedRest(AddedCommandTag, rest3);
    SuffixTrans(rest2, rest1, lines);
    SuffixTrans(rest3, rest2, lines);
    SuffixTrans(rest4, rest3, lines);
  }

  /** `TakeTagged` leaves the end of the lines it reads. */
  lemma {:induction false} TakeTaggedRest(tag: string, lines: seq<string>)
    ensures IsSuffix(TakeTagged(tag, lines).1, lines)
  {
    if lines != [] && StartsWith(lines[0], tag) {
      TakeTaggedRest(tag, lines[1..]);
      SuffixTrans(TakeTagged(tag, lines).1, lines[1..], lines);
    }
  }

  /** A line whose `k`th character disagrees with `tag`'s does not start with `tag`. */
  lemma DiffersAt(line: string, tag: string, k: nat)
    requires k < |tag| && k < |line| && line[k] != tag[k]
    ensures !StartsWith(line, tag)
  {
    if |tag| <= |line| {
      assert line[..|tag|][k] == line[k];
    }
  }

  /** The tagged lines are read back, up to the first line that does not carry the tag. */
  lemma {:induction false} TakeTaggedOfTagged(tag: string, items: seq<string>, rest: seq<string>)
    requires rest == [] || !StartsWith(rest[0], tag)
    ensures TakeTagged(tag, Tagged(tag, items) + rest) == (items, rest)
  {
    var lines := Tagged(tag, items) + rest;
    if items == [] {
      assert lines == rest;
    } else {
      assert lines[0] == tag + items[0];
      assert lines[0][..|tag|] == tag;
      assert lines[0][|tag|..] == items[0];
      assert lines[1..] == Tagged(tag, items[1..]) + rest;
      TakeTaggedOfTagged(tag, items[1..], rest);
      assert [items[0]] + items[1..] == items;
    }
  }

  /** A consistent diff: it is breaking exactly when something was removed. */
  predicate Consistent(r: DiffResult) {
    r.hasBreaking <==> r.removedFlags != [] || r.removedCommands != []
  }

  /** The report prints the no-change line exactly for a diff with no changes. */
  lemma ReportNoChanges(r: DiffResult)
    ensures Report(r) == [NoChangesLine] <==> NoChanges(r)
  {
    var lines := Report(r);
    if !NoChanges(r) && |lines| == 1 {
      assert NoChangesLine[0] == '\U{2705}' && NoChangesLine[2] == 'N';
      if r.addedFlags != [] {
        assert lines[0][2] == AddedFlagTag[2];
      } else {
        assert lines[0][2] == AddedCommandTag[2];
      }
    }
  }

  /** `lines` is empty or its first line does not carry `tag`: where `TakeTagged` stops. */
  predicate StopsAt(lines: seq<string>, tag: string) {
    lines == [] || !StartsWith(lines[0], tag)
  }

  /** Lines behind a tag that differs from `tag` at `k` do not carry `tag`. */
  lemma TaggedStops(next: string, items: seq<string>, rest: seq<string>, tag: string, k: nat)
    requires k < |tag| && k < |next| && next[k] != tag[k]
    requires items == [] ==> StopsAt(rest, tag)
    ensures StopsAt(Tagged(next, items) + rest, tag)
  {
    if items != [] {
      var line := (Tagged(next, items) + rest)[0];
      assert line == next + items[0];
      DiffersAt(line, tag, k);
    }
  }

  /** The characters at which the tags tell each other apart. */
  lemma TagHeads()
    ensures |RemovedFlagTag| > 12 && RemovedFlagTag[0] == '\U{274C}' && RemovedFlagTag[12] == 'f'
    ensures |RemovedCommandTag| > 12 && RemovedCommandTag[0] == '\U{274C}' && RemovedCommandTag[12] == 's'
    ensures |AddedFlagTag| > 8 && AddedFlagTag[0] == '\U{2705}' && AddedFlagTag[8] == 'f'
    ensures |AddedCommandTag| > 8 && AddedCommandTag[0] == '\U{2705}' && AddedCommandTag[8] == 's'
    ensures WarningLine[0] == '\U{26A0}' && NoChangesLine[0] == '\U{2705}'
  {
  }

  /** For a consistent diff, reading its report back gives the diff: the report loses nothing. */
  lemma ReadReportOfReport(r: DiffResult)
    requires Consistent(r)
    ensures ReadReport(Report(r)) == Some(r)
  {
    if !NoChanges(r) {
      ReportNoChanges(r);
      TagHeads();
      var t1 := Tagged(RemovedFlagTag, r.removedFlags);
      var t2 := Tagged(RemovedCommandTag, r.removedCommands);
      var t3 := Tagged(AddedFlagTag, r.addedFlags);
      var t4 := Tagged(AddedCommandTag, r.addedCommands);
      var tr := Trailer(r.hasBreaking);
      assert Report(r) == t1 + (t2 + (t3 + (t4 + tr)));
      TakeTaggedOfTagged(AddedCommandTag, r.addedCommands, tr);
      TaggedStops(AddedCommandTag, r.addedCommands, tr, AddedFlagTag, 8);
      TakeTaggedOfTagged(AddedFlagTag, r.addedFlags, t4 + tr);
      TaggedStops(AddedCommandTag, r.addedCommands, tr, RemovedCommandTag, 0);
      TaggedStops(AddedFlagTag, r.addedFlags, t4 + tr, RemovedCommandTag, 0);
      TakeTaggedOfTagged(RemovedCommandTag, r.removedCommands, t3 + (t4 + tr));
      TaggedStops(AddedCommandTag, r.addedCommands, tr, RemovedFlagTag, 0);
      TaggedStops(AddedFlagTag, r.addedFlags, t4 + tr, RemovedFlagTag, 0);
      TaggedStops(RemovedCommandTag, r.removedCommands, t3 + (t4 + tr), RemovedFlagTag, 12);
      TakeTaggedOfTagged(RemovedFlagTag, r.removedFlags, t2 + (t3 + (t4 + tr)));
    }
  }

  /** Consistent diffs with the same report are the same diff. */
  lemma ReportInjective(r1: DiffResult, r2: DiffResult)
    requires Consistent(r1) && Consistent(r2)
    requires Report(r1) == Report(r2)
    ensures r1 == r2
  {
    ReadReportOfReport(r1);
    ReadReportOfReport(r2);
  }

  /** Every report of a diff can be read back into that diff. */
  lemma ReadReportOfDiff(prev: Snapshot, cur: Snapshot)
    ensures ReadReport(Report(Diff(prev, cur))) == Some(Diff(prev, cur))
  {
    ReadReportOfReport(Diff(prev, cur));
  }

  /** No line behind a tag that starts differently is the warning. */
  lemma NoWarningAmong(tag: string, items: seq<string>)
    requires tag != [] && tag[0] != WarningLine[0]
    ensures WarningLine !in Tagged(tag, items)
  {
    forall k | 0 <= k < |items|
      ensures Tagged(tag, items)[k] != WarningLine
    {
      assert Tagged(tag, items)[k][0] == tag[0];
    }
  }

  /** The warning is printed exactly when the diff is breaking. */
  lemma WarningIffBreaking(r: DiffResult)
    ensures WarningLine in Report(r) <==> r.hasBreaking
  {
    TagHeads();
    NoWarningAmong(RemovedFlagTag, r.removedFlags);
    NoWarningAmong(RemovedCommandTag, r.removedCommands);
    NoWarningAmong(AddedFlagTag, r.addedFlags);
    NoWarningAmong(AddedCommandTag, r.addedCommands);
  }
}
