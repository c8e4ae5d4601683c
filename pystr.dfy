/** The parts of Python's `str` and `pathlib.PurePosixPath` behaviour that the
    modelled code relies on: `partition`, `split(sep)`, `splitlines()`,
    `strip()`, `re.split(r"\s+", ...)` and `PurePosixPath(...).parts`.
    Strings are sequences of code points, as Python's `str` is. */
module PyStr {

  /** `c.isspace()`: what `strip()` removes and what the regular expression
      class `\s` matches in a `str` pattern. */
  predicate IsSpace(c: char) {
    || c == ' '
    || ('\t' <= c <= '\r')
    || ('\U{1C}' <= c <= '\U{1F}')
    || c == '\U{85}' || c == '\U{A0}' || c == '\U{1680}'
    || ('\U{2000}' <= c <= '\U{200A}')
    || c == '\U{2028}' || c == '\U{2029}' || c == '\U{202F}'
    || c == '\U{205F}' || c == '\U{3000}'
  }

  /** The characters at which `str.splitlines()` ends a line (`\r\n` counts
      as one boundary). */
  predicate IsLineBreak(c: char) {
    || c == '\n' || c == '\r' || c == '\U{B}' || c == '\U{C}'
    || c == '\U{1C}' || c == '\U{1D}' || c == '\U{1E}'
    || c == '\U{85}' || c == '\U{2028}' || c == '\U{2029}'
  }

  predicate NoLineBreak(s: string) {
    forall i :: 0 <= i < |s| ==> !IsLineBreak(s[i])
  }

  /** Index of the first `c` in `s`. */
  function IndexOf(s: string, c: char): (i: nat)
    requires c in s
    ensures i < |s| && s[i] == c && c !in s[..i]
  {
    if s[0] == c then 0 else 1 + IndexOf(s[1..], c)
  }

  /** A separator in `a` is found at the same place once more is appended. */
  lemma IndexOfExtended(a: string, c: char, tail: string)
    requires c in a
    ensures c in a + tail && IndexOf(a + tail, c) == IndexOf(a, c)
  {
    var i := IndexOf(a, c);
    assert (a + tail)[i] == c && (a + tail)[..i] == a[..i];
    IndexOfFirst(a + tail, c, i);
  }

  /** The first position holding `c` is where `IndexOf` stops. */
  lemma {:induction false} IndexOfFirst(s: string, c: char, i: nat)
    requires i < |s| && s[i] == c && c !in s[..i]
    ensures IndexOf(s, c) == i
  {
    if i > 0 {
      assert s[0] == s[..i][0];
      assert s[1..][i - 1] == c && s[1..][..i - 1] == s[..i][1..];
      IndexOfFirst(s[1..], c, i - 1);
    }
  }

  lemma {:induction false} IndexOfAt(before: string, c: char, after: string)
    requires c !in before
    ensures c in before + [c] + after
    ensures IndexOf(before + [c] + after, c) == |before|
  {
    var s := before + [c] + after;
    assert s[|before|] == c;
    if before != [] {
      assert s[0] == before[0] && s[1..] == before[1..] + [c] + after;
      IndexOfAt(before[1..], c, after);
    }
  }

  /** `s.partition(c)` for a one-character separator: the text before the
      first `c`, whether there was one, and the text after it. */
  function Partition(s: string, c: char): (string, bool, string)
  {
    if c in s then
      var i := IndexOf(s, c);
      (s[..i], true, s[i + 1..])
    else
      (s, false, "")
  }

  /** `partition` undoes a join at a separator that the first part lacks. */
  lemma PartitionAt(before: string, c: char, after: string)
    requires c !in before
    ensures Partition(before + [c] + after, c) == (before, true, after)
  {
    var s := before + [c] + after;
    IndexOfAt(before, c, after);
    assert s[..|before|] == before;
    assert s[|before| + 1..] == after;
  }

  lemma PartitionSplits(s: string, c: char)
    ensures var (b, found, a) := Partition(s, c);
            c !in b && (found ==> s == b + [c] + a) && (!found ==> s == b && a == "")
  {
    if c in s {
      var i := IndexOf(s, c);
      assert s == s[..i] + [c] + s[i + 1..];
    }
  }

  /** `s.split(c)`: never empty, `"".split(c) == [""]`. */
  function Split(s: string, c: char): (r: seq<string>)
    ensures |r| >= 1
    ensures forall k :: 0 <= k < |r| ==> c !in r[k]
    decreases |s|
  {
    if c in s then
      var i := IndexOf(s, c);
      [s[..i]] + Split(s[i + 1..], c)
    else
      [s]
  }

  /** `c.join(parts)`. */
  function Join(parts: seq<string>, c: char): string
  {
    if |parts| == 0 then ""
    else if |parts| == 1 then parts[0]
    else parts[0] + [c] + Join(parts[1..], c)
  }

  lemma {:induction false} SplitJoin(s: string, c: char)
    ensures Join(Split(s, c), c) == s
    decreases |s|
  {
    if c in s {
      var i := IndexOf(s, c);
      SplitJoin(s[i + 1..], c);
      JoinCons(s[..i], Split(s[i + 1..], c), c);
      assert s == s[..i] + [c] + s[i + 1..];
    }
  }

  lemma JoinCons(head: string, tail: seq<string>, c: char)
    requires |tail| >= 1
    ensures Join([head] + tail, c) == head + [c] + Join(tail, c)
  {
    assert ([head] + tail)[1..] == tail;
  }

  lemma {:induction false} JoinSplit(parts: seq<string>, c: char)
    requires |parts| >= 1
    requires forall k :: 0 <= k < |parts| ==> c !in parts[k]
    ensures Split(Join(parts, c), c) == parts
  {
    if |parts| > 1 {
      var rest := Join(parts[1..], c);
      IndexOfAt(parts[0], c, rest);
      var s := parts[0] + [c] + rest;
      assert s[..|parts[0]|] == parts[0];
      assert s[|parts[0]| + 1..] == rest;
      JoinSplit(parts[1..], c);
    }
  }

  /** Index of the first line boundary in `s`, or `|s|`. */
  function FirstBreak(s: string): (i: nat)
    ensures i <= |s|
    ensures forall j :: 0 <= j < i ==> !IsLineBreak(s[j])
    ensures i < |s| ==> IsLineBreak(s[i])
  {
    if s == [] then 0
    else if IsLineBreak(s[0]) then 0
    else 1 + FirstBreak(s[1..])
  }

  /** `s.splitlines()`: no trailing empty line, `"".splitlines() == []`. */
  function SplitLines(s: string): (r: seq<string>)
    ensures forall k :: 0 <= k < |r| ==> NoLineBreak(r[k])
    decreases |s|
  {
    if s == [] then []
    else
      var i := FirstBreak(s);
      if i == |s| then [s]
      else
        var width := if s[i] == '\r' && i + 1 < |s| && s[i + 1] == '\n' then 2 else 1;
        [s[..i]] + SplitLines(s[i + width..])
  }

  /** The text of `lines`, each followed by `\n`. */
  function UnLines(lines: seq<string>): string
  {
    if lines == [] then "" else lines[0] + "\n" + UnLines(lines[1..])
  }

  lemma {:induction false} FirstBreakAt(line: string, rest: string)
    requires NoLineBreak(line)
    ensures FirstBreak(line + "\n" + rest) == |line|
  {
    if line != [] {
      assert (line + "\n" + rest)[1..] == line[1..] + "\n" + rest;
      FirstBreakAt(line[1..], rest);
    }
  }

  lemma {:induction false} SplitUnLines(lines: seq<string>)
    requires forall k :: 0 <= k < |lines| ==> NoLineBreak(lines[k])
    ensures SplitLines(UnLines(lines)) == lines
  {
    if lines != [] {
      var rest := UnLines(lines[1..]);
      var s := lines[0] + "\n" + rest;
      FirstBreakAt(lines[0], rest);
      assert s[|lines[0]|] == '\n';
      assert s[..|lines[0]|] == lines[0];
      assert s[|lines[0]| + 1..] == rest;
      SplitUnLines(lines[1..]);
    }
  }

  function LStrip(s: string): (r: string)
    ensures |r| <= |s| && r == s[|s| - |r|..]
    ensures r == [] || !IsSpace(r[0])
  {
    if s != [] && IsSpace(s[0]) then LStrip(s[1..]) else s
  }

  function RStrip(s: string): (r: string)
    ensures |r| <= |s| && r == s[..|r|]
    ensures r == [] || !IsSpace(r[|r| - 1])
  {
    if s != [] && IsSpace(s[|s| - 1]) then RStrip(s[..|s| - 1]) else s
  }

  /** `s.strip()`. */
  function Strip(s: string): string
  {
    RStrip(LStrip(s))
  }

  /** Text that `strip()` leaves alone. */
  predicate Stripped(s: string) {
    s == [] || (!IsSpace(s[0]) && !IsSpace(s[|s| - 1]))
  }

  lemma StripStripped(s: string)
    requires Stripped(s)
    ensures Strip(s) == s
  {
  }

  /** Index of the first white-space character, or `|s|`. */
  function FirstSpace(s: string): (i: nat)
    ensures i <= |s|
    ensures forall j :: 0 <= j < i ==> !IsSpace(s[j])
    ensures i < |s| ==> IsSpace(s[i])
  {
    if s == [] then 0
    else if IsSpace(s[0]) then 0
    else 1 + FirstSpace(s[1..])
  }

  /** `re.split(r"\s+", s)`: the pieces between maximal runs of white space,
      keeping the empty piece before a leading run and after a trailing one. */
  function SplitWhitespace(s: string): (r: seq<string>)
    ensures |r| >= 1
    decreases |s|
  {
    var i := FirstSpace(s);
    if i == |s| then [s]
    else
      var rest := LStrip(s[i..]);
      [s[..i]] + SplitWhitespace(rest)
  }

  function LeadingSlashes(s: string): (k: nat)
    ensures k <= |s|
    ensures forall j :: 0 <= j < k ==> s[j] == '/'
    ensures k < |s| ==> s[k] != '/'
  {
    if s != [] && s[0] == '/' then 1 + LeadingSlashes(s[1..]) else 0
  }

  /** The components of `PurePosixPath(path).parts`: a root part ("/", or
      "//" for exactly two leading slashes), then the names between slashes
      with the empty ones and "." dropped. */
  function PosixParts(path: string): seq<string>
  {
    var k := LeadingSlashes(path);
    RootPart(k) + Names(Split(path[k..], '/'))
  }

  /** The root part for a path with `slashes` leading slashes. */
  function RootPart(slashes: nat): seq<string>
  {
    if slashes == 0 then [] else if slashes == 2 then ["//"] else ["/"]
  }

  function Names(pieces: seq<string>): (r: seq<string>)
    ensures forall k :: 0 <= k < |r| ==> r[k] != "" && r[k] != "."
  {
    if pieces == [] then []
    else if pieces[0] == "" || pieces[0] == "." then Names(pieces[1..])
    else [pieces[0]] + Names(pieces[1..])
  }

  /** `PurePosixPath(path).is_absolute()`. */
  predicate IsAbsolute(path: string) {
    path != [] && path[0] == '/'
  }

  /** Python's `s[i:j]`: negative bounds count from the end, then both are
      clamped to `[0, |s|]`, and an empty range gives "". */
  function SliceBound(i: int, n: nat): (b: nat)
    ensures b <= n
  {
    if i < 0 then (if i + n < 0 then 0 else i + n)
    else if i > n then n
    else i
  }

  function Slice(s: string, i: int, j: int): (r: string)
    ensures |r| <= |s|
  {
    var a := SliceBound(i, |s|);
    var b := SliceBound(j, |s|);
    if a < b then s[a..b] else ""
  }
}
