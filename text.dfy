/**
 * The character classes of Go's `regexp` syntax and the functions of Go's
 * `strings` package that the help-text extractor relies on, over `seq<char>`.
 */
module Text {

  /** The regex class `[a-zA-Z]`. */
  predicate IsLetter(c: char) {
    'a' <= c <= 'z' || 'A' <= c <= 'Z'
  }

  predicate IsDigit(c: char) {
    '0' <= c <= '9'
  }

  /** The regex class `[\w-]`; Go's `\w` is the ASCII class `[0-9A-Za-z_]`. */
  predicate IsNameChar(c: char) {
    IsLetter(c) || IsDigit(c) || c == '_' || c == '-'
  }

  /** Go's regex `\s`, the ASCII class `[\t\n\f\r ]` (no vertical tab). */
  predicate IsRegexSpace(c: char) {
    c == ' ' || c == '\t' || c == '\n' || c == '\U{0C}' || c == '\r'
  }

  /**
   * Go's `unicode.IsSpace`, which `strings.TrimSpace` uses: the six ASCII
   * spaces (vertical tab included), NEL, NO-BREAK SPACE and the other
   * characters with the Unicode White_Space property.
   */
  predicate IsSpace(c: char) {
    || c == ' ' || c == '\t' || c == '\n' || c == '\U{0B}' || c == '\U{0C}' || c == '\r'
    || c == '\U{85}' || c == '\U{A0}' || c == '\U{1680}'
    || ('\U{2000}' <= c <= '\U{200A}')
    || c == '\U{2028}' || c == '\U{2029}' || c == '\U{202F}' || c == '\U{205F}' || c == '\U{3000}'
  }

  lemma RegexSpaceIsSpace(c: char)
    ensures IsRegexSpace(c) ==> IsSpace(c)
  {
  }

  /** The length of the run of spaces that `s` starts with. */
  function LeadingSpaces(s: string): (n: nat)
    ensures n <= |s|
    ensures forall k :: 0 <= k < n ==> IsSpace(s[k])
    ensures n < |s| ==> !IsSpace(s[n])
  {
    if s != [] && IsSpace(s[0]) then 1 + LeadingSpaces(s[1..]) else 0
  }

  /** `s` with its trailing spaces removed. */
  function TrimRight(s: string): (r: string)
    ensures |r| <= |s| && r == s[..|r|]
    ensures forall k :: |r| <= k < |s| ==> IsSpace(s[k])
    ensures r != [] ==> !IsSpace(r[|r| - 1])
  {
    if s != [] && IsSpace(s[|s| - 1]) then TrimRight(s[..|s| - 1]) else s
  }

  /**
   * `strings.TrimSpace`: the slice of `s` left after dropping every leading
   * and every trailing space. It is empty exactly when `s` is all spaces.
   */
  function TrimSpace(s: string): (r: string)
    ensures r != [] ==> !IsSpace(r[0]) && !IsSpace(r[|r| - 1])
    ensures r == [] <==> forall k :: 0 <= k < |s| ==> IsSpace(s[k])
    ensures LeadingSpaces(s) + |r| <= |s| && r == s[LeadingSpaces(s)..LeadingSpaces(s) + |r|]
    ensures forall k :: LeadingSpaces(s) + |r| <= k < |s| ==> IsSpace(s[k])
  {
    var i := LeadingSpaces(s);
    var r := TrimRight(s[i..]);
    PrefixOfDrop(s, i, r);
    SpacesOfDrop(s, i, |r|);
    TrimmedEnds(s, i, r);
    r
  }

  /** A prefix of `s[i..]` is the slice of `s` that starts at `i`. */
  lemma PrefixOfDrop(s: string, i: nat, r: string)
    requires i <= |s| && |r| <= |s| - i && r == s[i..][..|r|]
    ensures r == s[i..i + |r|]
  {
  }

  /** Spaces from position `m` of `s[i..]` on are spaces of `s` from `i + m` on. */
  lemma SpacesOfDrop(s: string, i: nat, m: nat)
    requires i <= |s| && forall k :: m <= k < |s| - i ==> IsSpace(s[i..][k])
    ensures forall k :: i + m <= k < |s| ==> IsSpace(s[k])
  {
    forall k | i + m <= k < |s|
      ensures IsSpace(s[k])
    {
      assert s[k] == s[i..][k - i];
    }
  }

  /** What `TrimSpace` keeps has no space at either end, and is empty exactly when `s` is all spaces. */
  lemma TrimmedEnds(s: string, i: nat, r: string)
    requires i == LeadingSpaces(s) && r == TrimRight(s[i..])
    ensures r != [] ==> !IsSpace(r[0]) && !IsSpace(r[|r| - 1])
    ensures r == [] <==> forall k :: 0 <= k < |s| ==> IsSpace(s[k])
  {
    SpacesOfDrop(s, i, |r|);
    if r != [] {
      assert r[0] == s[i];
    }
  }

  /** Trimming a line that ends in a text without a space at either end keeps that text at its end. */
  lemma TrimKeepsTail(head: string, tail: string)
    requires tail != [] && !IsSpace(tail[0]) && !IsSpace(tail[|tail| - 1])
    ensures var r := TrimSpace(head + tail); |tail| <= |r| && r[|r| - |tail|..] == tail
  {
    var line := head + tail;
    var i := LeadingSpaces(line);
    var r := TrimSpace(line);
    assert line[|head|] == tail[0];
    assert i <= |head|;
    assert line[|line| - 1] == tail[|tail| - 1];
    assert i + |r| == |line|;
    assert r[|r| - |tail|..] == line[|head|..];
  }

  /** A string without leading or trailing spaces is its own trimmed form. */
  lemma TrimSpaceOfTrimmed(s: string)
    requires s != [] ==> !IsSpace(s[0]) && !IsSpace(s[|s| - 1])
    ensures TrimSpace(s) == s
  {
  }

  /** ASCII case folding of one character. */
  function LowerChar(c: char): char {
    if 'A' <= c <= 'Z' then (c as int + 32) as char else c
  }

  /**
   * `strings.ToLower`, restricted to ASCII letters: each character is folded
   * on its own, and no upper-case ASCII letter is left.
   */
  function ToLower(s: string): (r: string)
    ensures |r| == |s| && forall k :: 0 <= k < |s| ==> r[k] == LowerChar(s[k])
    ensures forall k :: 0 <= k < |r| ==> !('A' <= r[k] <= 'Z')
  {
    seq(|s|, k requires 0 <= k < |s| => LowerChar(s[k]))
  }

  /** Folding case commutes with taking a tail. */
  lemma LowerOfTail(r: string, tail: string)
    requires |tail| <= |r| && r[|r| - |tail|..] == tail
    ensures ToLower(r)[|r| - |tail|..] == ToLower(tail)
  {
  }

  /** `strings.HasSuffix`: `s` is what precedes the suffix followed by `suffix`. */
  function HasSuffix(s: string, suffix: string): (b: bool)
    ensures b <==> |suffix| <= |s| && s == s[..|s| - |suffix|] + suffix
  {
    var b := |suffix| <= |s| && s[|s| - |suffix|..] == suffix;
    assert b ==> s == s[..|s| - |suffix|] + suffix;
    b
  }

  /** The pieces of `parts` joined with a newline between each two. */
  function Join(parts: seq<string>): string
    requires |parts| >= 1
  {
    if |parts| == 1 then parts[0] else parts[0] + "\n" + Join(parts[1..])
  }

  /**
   * `strings.Split(s, "\n")`: the newline-free pieces between the newlines
   * of `s`; there is always one more piece than there are newlines.
   */
  function Split(s: string): (parts: seq<string>)
    ensures |parts| >= 1
    ensures forall k :: 0 <= k < |parts| ==> '\n' !in parts[k]
    ensures Join(parts) == s
  {
    if s == [] then
      [""]
    else
      var rest := Split(s[1..]);
      if s[0] == '\n' then
        [""] + rest
      else
        var parts := [[s[0]] + rest[0]] + rest[1..];
        assert parts[1..] == rest[1..];
        parts
  }

  /** Splitting undoes joining: `Split` is the unique newline-free decomposition. */
  lemma {:induction false} SplitJoin(parts: seq<string>)
    requires |parts| >= 1
    requires forall k :: 0 <= k < |parts| ==> '\n' !in parts[k]
    ensures Split(Join(parts)) == parts
    decreases |Join(parts)|
  {
    var p := parts[0];
    if p == [] {
      if |parts| > 1 {
        var tail := parts[1..];
        assert Join(parts) == "\n" + Join(tail);
        assert ("\n" + Join(tail))[1..] == Join(tail);
        SplitJoin(tail);
      }
    } else {
      var shorter := [p[1..]] + parts[1..];
      assert shorter[1..] == parts[1..];
      assert Join(parts) == [p[0]] + Join(shorter) by {
        if |parts| > 1 {
          assert Join(shorter) == p[1..] + "\n" + Join(parts[1..]);
        }
      }
      assert ([p[0]] + Join(shorter))[1..] == Join(shorter);
      assert forall k :: 0 <= k < |shorter| ==> '\n' !in shorter[k];
      SplitJoin(shorter);
      assert p[0] != '\n' && [p[0]] + p[1..] == p;
      assert Split(Join(parts)) == [[p[0]] + shorter[0]] + shorter[1..];
    }
  }
}
