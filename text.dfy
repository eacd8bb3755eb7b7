/**
 * The handful of Ruby string operations the importer relies on, written out
 * over `seq<char>`: character classes, substring search, `split` on one
 * character and its inverse, `lstrip` and `chomp`.
 */
module Text {
  import opened Wrappers

  predicate IsDigit(c: char) { '0' <= c <= '9' }

  /** Ruby's `\w` on a non-Unicode pattern: ASCII letters, digits and `_`. */
  predicate IsWordChar(c: char) {
    'a' <= c <= 'z' || 'A' <= c <= 'Z' || IsDigit(c) || c == '_'
  }

  /** Ruby's ISSPACE: space, tab, line feed, vertical tab, form feed, carriage return. */
  predicate IsSpace(c: char) {
    c == ' ' || c == '\t' || c == '\n' || c == '\U{B}' || c == '\U{C}' || c == '\r'
  }

  predicate StartsWith(s: string, prefix: string) {
    |prefix| <= |s| && s[..|prefix|] == prefix
  }

  predicate EndsWith(s: string, suffix: string) {
    |suffix| <= |s| && s[|s| - |suffix|..] == suffix
  }

  predicate OccursAt(s: string, pattern: string, i: nat) {
    i + |pattern| <= |s| && s[i..i + |pattern|] == pattern
  }

  /** The first occurrence of `pattern` in `s` at or after `from`. */
  function IndexOf(s: string, pattern: string, from: nat): (r: Option<nat>)
    ensures r.Some? ==> from <= r.value && OccursAt(s, pattern, r.value)
    ensures r.Some? ==> forall j :: from <= j < r.value ==> !OccursAt(s, pattern, j)
    ensures r.None? ==> forall j :: from <= j ==> !OccursAt(s, pattern, j)
    decreases |s| - from
  {
    if from + |pattern| > |s| then None
    else if OccursAt(s, pattern, from) then Some(from)
    else IndexOf(s, pattern, from + 1)
  }

  /** The position of the first `c` in `s`, or `|s|` when there is none. */
  function IndexOfChar(s: string, c: char): (k: nat)
    ensures k <= |s|
    ensures forall j :: 0 <= j < k ==> s[j] != c
    ensures k < |s| ==> s[k] == c
  {
    if |s| == 0 || s[0] == c then 0 else 1 + IndexOfChar(s[1..], c)
  }

  lemma {:induction false} IndexOfCharPast(x: string, y: string, c: char)
    requires c !in x
    ensures IndexOfChar(x + y, c) == |x| + IndexOfChar(y, c)
  {
    if |x| > 0 {
      assert (x + y)[1..] == x[1..] + y;
      IndexOfCharPast(x[1..], y, c);
    } else {
      assert x + y == y;
    }
  }

  /** `s.split(sep)` keeping every piece, empty ones included. */
  function Split(s: string, sep: char): (parts: seq<string>)
    ensures |parts| >= 1
    ensures forall i :: 0 <= i < |parts| ==> sep !in parts[i]
    decreases |s|
  {
    var k := IndexOfChar(s, sep);
    if k == |s| then [s] else [s[..k]] + Split(s[k + 1..], sep)
  }

  /** `parts.join(sep)`. */
  function Join(parts: seq<string>, sep: char): string {
    if |parts| == 0 then ""
    else if |parts| == 1 then parts[0]
    else parts[0] + [sep] + Join(parts[1..], sep)
  }

  lemma {:induction false} SplitWhole(x: string, sep: char)
    requires sep !in x
    ensures Split(x, sep) == [x]
  {
    IndexOfCharPast(x, "", sep);
    assert x + "" == x;
  }

  lemma {:induction false} SplitAfter(x: string, y: string, sep: char)
    requires sep !in x
    ensures Split(x + [sep] + y, sep) == [x] + Split(y, sep)
  {
    var s := x + [sep] + y;
    assert s == x + ([sep] + y);
    IndexOfCharPast(x, [sep] + y, sep);
    assert s[..|x|] == x;
    assert s[|x| + 1..] == y;
  }

  /** Joining the pieces of a split gives back the string. */
  lemma {:induction false} JoinSplit(s: string, sep: char)
    ensures Join(Split(s, sep), sep) == s
    decreases |s|
  {
    var k := IndexOfChar(s, sep);
    if k < |s| {
      var tail := Split(s[k + 1..], sep);
      JoinSplit(s[k + 1..], sep);
      var parts := [s[..k]] + tail;
      assert Split(s, sep) == parts;
      assert parts[0] == s[..k] && parts[1..] == tail;
      assert Join(parts, sep) == s[..k] + [sep] + Join(tail, sep);
      assert s == s[..k] + [sep] + s[k + 1..];
    }
  }

  /** Splitting a join of separator-free pieces gives back the pieces. */
  lemma {:induction false} SplitJoin(parts: seq<string>, sep: char)
    requires |parts| >= 1
    requires forall i :: 0 <= i < |parts| ==> sep !in parts[i]
    ensures Split(Join(parts, sep), sep) == parts
  {
    if |parts| == 1 {
      SplitWhole(parts[0], sep);
    } else {
      SplitJoin(parts[1..], sep);
      SplitAfter(parts[0], Join(parts[1..], sep), sep);
    }
  }

  /** The lines of a text as `^` and `$` see them: the pieces between line feeds. */
  function Lines(s: string): seq<string> { Split(s, '\n') }

  function Unlines(lines: seq<string>): string { Join(lines, '\n') }

  /** The text up to, not including, the first line feed. */
  function FirstLine(s: string): (line: string)
    ensures |line| <= |s|
  {
    s[..IndexOfChar(s, '\n')]
  }

  /** What follows a line feed never changes the line before it. */
  lemma {:induction false} FirstLineOfJoin(x: string, y: string)
    ensures FirstLine(x + "\n" + y) == FirstLine(x)
  {
    var k := IndexOfChar(x, '\n');
    if k == |x| {
      IndexOfCharPast(x, "\n" + y, '\n');
      assert x + "\n" + y == x + ("\n" + y);
      assert (x + "\n" + y)[..|x|] == x;
      assert x[..k] == x;
    } else {
      IndexOfCharPast(x[..k], x[k..] + "\n" + y, '\n');
      assert x + "\n" + y == x[..k] + (x[k..] + "\n" + y);
      IndexOfCharPast(x[..k], x[k..], '\n');
      assert x == x[..k] + x[k..];
      assert (x + "\n" + y)[..k] == x[..k];
    }
  }

  /** Ruby's `lstrip`: leading NUL and ISSPACE characters removed. */
  function LStrip(s: string): (r: string)
    ensures |r| <= |s| && (|r| > 0 ==> !IsSpace(r[0]) && r[0] != '\0')
    ensures s == s[..|s| - |r|] + r
    ensures forall i :: 0 <= i < |s| - |r| ==> IsSpace(s[i]) || s[i] == '\0'
  {
    if |s| > 0 && (IsSpace(s[0]) || s[0] == '\0') then LStrip(s[1..]) else s
  }

  /** Ruby's `chomp(suffix)`: one trailing `suffix` removed, if present. */
  function Chomp(s: string, suffix: string): (r: string)
    ensures EndsWith(s, suffix) ==> s == r + suffix
    ensures !EndsWith(s, suffix) ==> r == s
  {
    if EndsWith(s, suffix) then s[..|s| - |suffix|] else s
  }
}
