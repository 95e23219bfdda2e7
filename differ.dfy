/**
 * Snapshots and the differ: what was removed and what was added between two
 * snapshots of a command's interface, and whether the change is breaking.
 */
module Differ {
  import opened Collections

  /** A captured interface: the flags and subcommands scraped from `--help`. */
  datatype Snapshot = Snapshot(command: string, flags: seq<string>, subcommands: seq<string>, capturedAt: string)

  /** The four change lists and the breaking verdict. */
  datatype DiffResult = DiffResult(
    removedFlags: seq<string>,
    addedFlags: seq<string>,
    removedCommands: seq<string>,
    addedCommands: seq<string>,
    hasBreaking: bool)

  /** The elements of `a` that do not occur in `b`, in `a`'s order, repeats kept. */
  function Minus<T(==)>(a: seq<T>, b: seq<T>): (r: seq<T>)
    ensures |r| <= |a|
  {
    if a == [] then []
    else
      var init := a[..|a| - 1];
      var x := a[|a| - 1];
      if x in b then Minus(init, b) else Minus(init, b) + [x]
  }

  /** `subtract`: fills a membership map from `b`, then keeps the elements of `a` it does not hold. */
  method Subtract<T(==)>(a: seq<T>, b: seq<T>) returns (out: seq<T>)
    ensures out == Minus(a, b)
  {
    var present: map<T, bool> := map[];
    for i := 0 to |b|
      invariant forall x :: Present(present, x) <==> x in b[..i]
    {
      assert b[..i + 1] == b[..i] + [b[i]];
      present := present[b[i] := true];
    }
    assert b[..|b|] == b;
    out := [];
    for i := 0 to |a|
      invariant out == Minus(a[..i], b)
    {
      assert a[..i + 1][..i] == a[..i];
      if !Present(present, a[i]) {
        out := out + [a[i]];
      }
    }
    assert a[..|a|] == a;
  }

  /** An element is in `Minus(a, b)` exactly when it is in `a` and not in `b`. */
  lemma {:induction false} MinusMembership<T>(a: seq<T>, b: seq<T>, x: T)
    ensures x in Minus(a, b) <==> x in a && x !in b
  {
    if a != [] {
      var init := a[..|a| - 1];
      assert a == init + [a[|a| - 1]];
      MinusMembership(init, b, x);
    }
  }

  /** `Minus` keeps every occurrence that `b` does not rule out, and no other. */
  lemma {:induction false} MinusCount<T>(a: seq<T>, b: seq<T>, x: T)
    ensures multiset(Minus(a, b))[x] == if x in b then 0 else multiset(a)[x]
  {
    if a != [] {
      var init := a[..|a| - 1];
      assert a == init + [a[|a| - 1]];
      MinusCount(init, b, x);
    }
  }

  /** `Minus` works piecewise: it keeps `a`'s order. */
  lemma {:induction false} MinusConcat<T>(a1: seq<T>, a2: seq<T>, b: seq<T>)
    ensures Minus(a1 + a2, b) == Minus(a1, b) + Minus(a2, b)
    decreases |a2|
  {
    if a2 == [] {
      assert a1 + a2 == a1;
    } else {
      var init := a2[..|a2| - 1];
      var x := a2[|a2| - 1];
      assert (a1 + a2)[..|a1 + a2| - 1] == a1 + init;
      MinusConcat(a1, init, b);
    }
  }

  /** Elements that `a` does not contain do not affect `Minus(a, b)`. */
  lemma {:induction false} MinusIgnoresForeign<T>(a: seq<T>, b: seq<T>, extra: seq<T>)
    requires forall x :: x in extra ==> x !in a
    ensures Minus(a, b + extra) == Minus(a, b)
  {
    if a != [] {
      var init := a[..|a| - 1];
      assert a == init + [a[|a| - 1]];
      assert forall x :: x in extra ==> x !in init;
      MinusIgnoresForeign(init, b, extra);
    }
  }

  /** `Minus` of a sequence without repeats has no repeats. */
  lemma {:induction false} MinusNoDuplicates<T>(a: seq<T>, b: seq<T>)
    requires NoDuplicates(a)
    ensures NoDuplicates(Minus(a, b))
  {
    if a != [] {
      var init := a[..|a| - 1];
      var x := a[|a| - 1];
      assert a == init + [x];
      MinusNoDuplicates(init, b);
      MinusMembership(init, b, x);
    }
  }

  /** `Diff`: the removals and the additions between `prev` and `cur`; removals make it breaking. */
  function Diff(prev: Snapshot, cur: Snapshot): (r: DiffResult)
    ensures r.hasBreaking <==> r.removedFlags != [] || r.removedCommands != []
  {
    var removedFlags := Minus(prev.flags, cur.flags);
    var removedCommands := Minus(prev.subcommands, cur.subcommands);
    DiffResult(
      removedFlags,
      Minus(cur.flags, prev.flags),
      removedCommands,
      Minus(cur.subcommands, prev.subcommands),
      |removedFlags| > 0 || |removedCommands| > 0)
  }

  /** The lists hold exactly what the snapshots disagree on. */
  lemma DiffMembership(prev: Snapshot, cur: Snapshot, x: string)
    ensures x in Diff(prev, cur).removedFlags <==> x in prev.flags && x !in cur.flags
    ensures x in Diff(prev, cur).addedFlags <==> x in cur.flags && x !in prev.flags
    ensures x in Diff(prev, cur).removedCommands <==> x in prev.subcommands && x !in cur.subcommands
    ensures x in Diff(prev, cur).addedCommands <==> x in cur.subcommands && x !in prev.subcommands
  {
    MinusMembership(prev.flags, cur.flags, x);
    MinusMembership(cur.flags, prev.flags, x);
    MinusMembership(prev.subcommands, cur.subcommands, x);
    MinusMembership(cur.subcommands, prev.subcommands, x);
  }

  /** A diff is breaking exactly when some old flag or subcommand is missing from the new snapshot. */
  lemma DiffBreaking(prev: Snapshot, cur: Snapshot)
    ensures Diff(prev, cur).hasBreaking <==>
              (exists f :: f in prev.flags && f !in cur.flags)
              || (exists c :: c in prev.subcommands && c !in cur.subcommands)
  {
    var r := Diff(prev, cur);
    if r.removedFlags != [] {
      DiffMembership(prev, cur, r.removedFlags[0]);
    }
    if r.removedCommands != [] {
      DiffMembership(prev, cur, r.removedCommands[0]);
    }
    forall f | f in prev.flags && f !in cur.flags ensures r.removedFlags != [] {
      DiffMembership(prev, cur, f);
    }
    forall c | c in prev.subcommands && c !in cur.subcommands ensures r.removedCommands != [] {
      DiffMembership(prev, cur, c);
    }
  }

  /**
   * Additions never count as breaking: adding flags and subcommands that the
   * old snapshot lacks leaves the removals and the verdict as they were.
   */
  lemma AdditionsAreNotBreaking(prev: Snapshot, cur: Snapshot, newFlags: seq<string>, newCommands: seq<string>)
    requires forall f :: f in newFlags ==> f !in prev.flags
    requires forall c :: c in newCommands ==> c !in prev.subcommands
    ensures var grown := cur.(flags := cur.flags + newFlags, subcommands := cur.subcommands + newCommands);
            && Diff(prev, grown).removedFlags == Diff(prev, cur).removedFlags
            && Diff(prev, grown).removedCommands == Diff(prev, cur).removedCommands
            && Diff(prev, grown).hasBreaking == Diff(prev, cur).hasBreaking
  {
    MinusIgnoresForeign(prev.flags, cur.flags, newFlags);
    MinusIgnoresForeign(prev.subcommands, cur.subcommands, newCommands);
  }

  /** Nothing is left when a sequence is subtracted from itself. */
  lemma MinusSelf<T>(a: seq<T>)
    ensures Minus(a, a) == []
  {
    if Minus(a, a) != [] {
      MinusMembership(a, a, Minus(a, a)[0]);
    }
  }

  /** A snapshot compared with itself shows no change. */
  lemma DiffSelf(s: Snapshot)
    ensures Diff(s, s) == DiffResult([], [], [], [], false)
  {
    MinusSelf(s.flags);
    MinusSelf(s.subcommands);
  }

  /** No flag is both removed and added, and likewise for subcommands. */
  lemma DiffDisjoint(prev: Snapshot, cur: Snapshot)
    ensures forall x :: x in Diff(prev, cur).removedFlags ==> x !in Diff(prev, cur).addedFlags
    ensures forall x :: x in Diff(prev, cur).removedCommands ==> x !in Diff(prev, cur).addedCommands
  {
    forall x {
      DiffMembership(prev, cur, x);
    }
  }

  /** Comparing in the other direction swaps removals and additions. */
  lemma DiffSwap(prev: Snapshot, cur: Snapshot)
    ensures Diff(cur, prev).removedFlags == Diff(prev, cur).addedFlags
    ensures Diff(cur, prev).addedFlags == Diff(prev, cur).removedFlags
    ensures Diff(cur, prev).removedCommands == Diff(prev, cur).addedCommands
    ensures Diff(cur, prev).addedCommands == Diff(prev, cur).removedCommands
  {
  }

  /** Snapshots whose flags are unique give removal and addition lists that are unique too. */
  lemma DiffKeepsFlagsUnique(prev: Snapshot, cur: Snapshot)
    requires NoDuplicates(prev.flags) && NoDuplicates(cur.flags)
    ensures NoDuplicates(Diff(prev, cur).removedFlags) && NoDuplicates(Diff(prev, cur).addedFlags)
  {
    MinusNoDuplicates(prev.flags, cur.flags);
    MinusNoDuplicates(cur.flags, prev.flags);
  }
}
