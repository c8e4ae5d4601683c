/** The ignore-group reader of rgit/cli/ignored.py. A `.gitignore` file may
    bracket its patterns in groups: a line starting with `#{{{` opens a
    group named by the rest of the line, a line starting with `#}}}` closes
    it. The reader assigns every line of a file the groups open at it,
    reads each file once, and the `ignored` command labels each ignored
    path with the group of the pattern that matched it. */
module Ignored {
  import opened Wrappers
  import opened PyStr
  import opened Tools

  const StartMarker: string := "#{{{"
  const EndMarker: string := "#}}}"
  const NUL: char := '\0'

  // ---------------------------------------------------------------------
  // Group names

  /** `str.lower()` on one character, for the characters that can lower to
      a valid name character: the ASCII capitals and the Kelvin sign. Every
      other character lowers to something a group name may not contain, so
      it is left as it is. */
  function LowerChar(c: char): char {
    if 'A' <= c <= 'Z' then (c as int + 32) as char
    else if c == '\U{212A}' then 'k'
    else c
  }

  function Lower(s: string): (r: string)
    ensures |r| == |s| && forall i :: 0 <= i < |s| ==> r[i] == LowerChar(s[i])
  {
    seq(|s|, i requires 0 <= i < |s| => LowerChar(s[i]))
  }

  /** `^[a-z0-9_]+$`. */
  predicate IsGroupName(s: string) {
    s != [] && forall i :: 0 <= i < |s| ==> ('a' <= s[i] <= 'z' || '0' <= s[i] <= '9' || s[i] == '_')
  }

  /** The group a `#{{{` line opens: the rest of the line, trimmed and
      lowered. */
  function GroupName(line: string): string
    requires StartMarker <= line
  {
    Lower(Strip(line[|StartMarker|..]))
  }

  // ---------------------------------------------------------------------
  // _read_ignore_file

  /** The check after every line: at most one group may be open. */
  function Nested(stack: seq<string>): (r: Result<seq<string>>)
    ensures r.Ok? <==> |stack| <= 1
  {
    if |stack| > 1 then Err(ValueError("nested groups are not supported yet")) else Ok(stack)
  }

  /** The open groups after one more line. */
  function Step(stack: seq<string>, line: string): Result<seq<string>>
  {
    if StartMarker <= line then
      var name := GroupName(line);
      if !IsGroupName(name) then Err(ValueError("invalid group name"))
      else Nested(stack + [name])
    else if EndMarker <= line then
      if stack == [] then Err(IndexError) else Nested(stack[..|stack| - 1])
    else Nested(stack)
  }

  /** The groups of each of `lines`, read with `stack` open before the
      first. `list(set(group_stack))` is the stack itself, since it never
      holds two groups when it is recorded. */
  function GroupsFrom(stack: seq<string>, lines: seq<string>): Result<seq<seq<string>>>
    decreases |lines|
  {
    if lines == [] then Ok([])
    else match Step(stack, lines[0])
      case Err(e) => Err(e)
      case Ok(next) => Prepend([next], GroupsFrom(next, lines[1..]))
  }

  /** `_read_ignore_file` over the lines of a file. */
  function ReadIgnoreFile(lines: seq<string>): Result<seq<seq<string>>>
  {
    GroupsFrom([], lines)
  }

  /** `_read_ignore_file`: one pass over the lines with a stack of open
      groups. */
  method ReadIgnoreFileLines(lines: seq<string>) returns (r: Result<seq<seq<string>>>)
    ensures r == ReadIgnoreFile(lines)
  {
    var result: seq<seq<string>> := [];
    var stack: seq<string> := [];
    var k := 0;
    PrependNothing(ReadIgnoreFile(lines));
    while k < |lines|
      invariant k <= |lines|
      invariant ReadIgnoreFile(lines) == Prepend(result, GroupsFrom(stack, lines[k..]))
    {
      ghost var prior := stack;
      var line := lines[k];
      assert lines[k..][0] == line && lines[k..][1..] == lines[k + 1..];
      if StartMarker <= line {
        var name := Lower(Strip(line[|StartMarker|..]));
        if !IsGroupName(name) {
          return Err(ValueError("invalid group name"));
        }
        stack := stack + [name];
      } else if EndMarker <= line {
        if stack == [] {
          return Err(IndexError);
        }
        stack := stack[..|stack| - 1];
      }
      if |stack| > 1 {
        return Err(ValueError("nested groups are not supported yet"));
      }
      assert Step(prior, line) == Ok(stack);
      PrependOne(result, stack, GroupsFrom(stack, lines[k + 1..]));
      result := result + [stack];
      k := k + 1;
    }
    assert lines[k..] == [];
    PrependAll(result);
    r := Ok(result);
  }

  /** What a line's groups are, given the groups of the line before it: an
      opening line belongs to the group it opens and needs none open before
      it, a closing line belongs to no group and needs one open before it,
      and every other line stays in the group of the line before. */
  predicate LineGroups(prev: seq<string>, line: string, groups: seq<string>) {
    |groups| <= 1
    && (StartMarker <= line ==> prev == [] && IsGroupName(GroupName(line)) && groups == [GroupName(line)])
    && (!(StartMarker <= line) && EndMarker <= line ==> |prev| == 1 && groups == [])
    && (!(StartMarker <= line) && !(EndMarker <= line) ==> groups == prev)
  }

  lemma StepGroups(stack: seq<string>, line: string)
    requires |stack| <= 1
    ensures Step(stack, line).Ok? ==> LineGroups(stack, line, Step(stack, line).value)
  {
  }

  /** The groups of the line before line `i`, or the stack open before the
      first line. */
  function Prev(stack: seq<string>, groups: seq<seq<string>>, i: nat): seq<string>
    requires i <= |groups|
  {
    if i == 0 then stack else groups[i - 1]
  }

  lemma {:induction false} GroupsFromShape(stack: seq<string>, lines: seq<string>)
    requires |stack| <= 1
    ensures GroupsFrom(stack, lines).Ok? ==>
              var groups := GroupsFrom(stack, lines).value;
              |groups| == |lines|
              && forall i :: 0 <= i < |lines| ==> LineGroups(Prev(stack, groups, i), lines[i], groups[i])
    decreases |lines|
  {
    if lines != [] && GroupsFrom(stack, lines).Ok? {
      var next := Step(stack, lines[0]).value;
      StepGroups(stack, lines[0]);
      var rest := GroupsFrom(next, lines[1..]);
      GroupsFromShape(next, lines[1..]);
      var groups := GroupsFrom(stack, lines).value;
      assert groups == [next] + rest.value;
      forall i | 0 < i < |lines|
        ensures LineGroups(Prev(stack, groups, i), lines[i], groups[i])
      {
        assert lines[i] == lines[1..][i - 1];
        assert groups[i] == rest.value[i - 1];
        assert Prev(stack, groups, i) == Prev(next, rest.value, i - 1);
      }
    }
  }

  /** `_read_ignore_file` yields one group list per line, in line order,
      each holding at most one group, as `LineGroups` describes. */
  lemma ReadIgnoreFileShape(lines: seq<string>)
    ensures ReadIgnoreFile(lines).Ok? ==>
              var groups := ReadIgnoreFile(lines).value;
              |groups| == |lines|
              && forall i :: 0 <= i < |lines| ==> LineGroups(Prev([], groups, i), lines[i], groups[i])
  {
    GroupsFromShape([], lines);
  }

  /** The groups open after lines that gave `groups`. */
  function After(stack: seq<string>, groups: seq<seq<string>>): seq<string> {
    if groups == [] then stack else groups[|groups| - 1]
  }

  lemma {:induction false} GroupsFromSplit(stack: seq<string>, pre: seq<string>, rest: seq<string>)
    requires GroupsFrom(stack, pre).Ok?
    ensures GroupsFrom(stack, pre + rest)
         == Prepend(GroupsFrom(stack, pre).value, GroupsFrom(After(stack, GroupsFrom(stack, pre).value), rest))
    decreases |pre|
  {
    if pre == [] {
      assert pre + rest == rest;
      PrependNothing(GroupsFrom(stack, rest));
    } else {
      var next := Step(stack, pre[0]).value;
      GroupsFromCons(stack, pre, rest);
      GroupsFromSplit(next, pre[1..], rest);
      var tail := GroupsFrom(next, pre[1..]).value;
      assert GroupsFrom(stack, pre).value == [next] + tail;
      assert After(stack, [next] + tail) == After(next, tail);
      PrependConcat([next], tail, GroupsFrom(After(next, tail), rest));
    }
  }

  lemma GroupsFromCons(stack: seq<string>, pre: seq<string>, rest: seq<string>)
    requires pre != [] && Step(stack, pre[0]).Ok?
    ensures GroupsFrom(stack, pre + rest)
         == Prepend([Step(stack, pre[0]).value], GroupsFrom(Step(stack, pre[0]).value, pre[1..] + rest))
  {
    assert (pre + rest)[0] == pre[0] && (pre + rest)[1..] == pre[1..] + rest;
  }

  /** The ways a file is refused, each at the first line that breaks the
      grouping, whatever follows it: a `#}}}` with no group open, a `#{{{`
      while a group is open, and a `#{{{` whose name is not lower-case
      letters, digits and underscores. */
  lemma ReadIgnoreFileErrors(pre: seq<string>, line: string, post: seq<string>)
    requires ReadIgnoreFile(pre).Ok?
    ensures var open := After([], ReadIgnoreFile(pre).value);
            var r := ReadIgnoreFile(pre + [line] + post);
            (!(StartMarker <= line) && EndMarker <= line && open == [] ==> r == Err(IndexError))
            && (StartMarker <= line && IsGroupName(GroupName(line)) && open != [] ==> r == Err(ValueError("nested groups are not supported yet")))
            && (StartMarker <= line && !IsGroupName(GroupName(line)) ==> r == Err(ValueError("invalid group name")))
  {
    var groups := ReadIgnoreFile(pre).value;
    var open := After([], groups);
    assert pre + [line] + post == pre + ([line] + post);
    GroupsFromSplit([], pre, [line] + post);
    assert ([line] + post)[0] == line;
  }

  /** A `#}}}` before any `#{{{` is refused by the pop on an empty stack. */
  lemma UnopenedClose()
    ensures ReadIgnoreFile(["*.o\n", "#}}}\n"]) == Err(IndexError)
  {
    var plain, close := "*.o\n", "#}}}\n";
    assert plain[0] == '*' && StartMarker[0] == '#' && EndMarker[0] == '#';
    assert close[1] == '}' && StartMarker[1] == '{';
    assert close[..4] == EndMarker;
    assert Step([], plain) == Ok([]);
    assert Step([], close) == Err(IndexError);
    assert [plain, close][1..] == [close];
  }

  // ---------------------------------------------------------------------
  // get_groups and its cache

  /** `ignore_file_map[lineno - 1]` behind its assertion. The assertion
      admits `lineno - 1 == len(ignore_file_map)`, which the indexing then
      refuses. */
  function GroupsAt(groups: seq<seq<string>>, lineno: int): (r: Result<seq<string>>)
    ensures r.Ok? <==> 1 <= lineno <= |groups|
    ensures r.Ok? ==> r.value == groups[lineno - 1]
    ensures lineno == |groups| + 1 ==> r == Err(IndexError)
    ensures r.Err? && lineno != |groups| + 1 ==> r == Err(AssertionError)
  {
    if !(0 <= lineno - 1 <= |groups|) then Err(AssertionError)
    else if lineno - 1 == |groups| then Err(IndexError)
    else Ok(groups[lineno - 1])
  }

  /** What `get_groups(path, lineno)` gives when `files` maps each path to
      the lines of the file there. */
  function GetGroupsSpec(files: string -> seq<string>, path: Option<string>, lineno: Option<int>)
    : Result<Option<seq<string>>>
  {
    if path.None? || lineno.None? then Ok(None)
    else
      var groups :- ReadIgnoreFile(files(path.value));
      var g :- GroupsAt(groups, lineno.value);
      Ok(Some(g))
  }

  /** `IgnoreGroupReader`: the group lists of the files read so far.
      `files` stands for the file system, which does not change during a
      run; `loaded` records every file opened, in order. */
  class IgnoreGroupReader {
    const files: string -> seq<string>
    var cache: map<string, seq<seq<string>>>
    ghost var loaded: seq<string>

    /** Every cached list is the one the file gives, every cached file was
        loaded exactly once, and a file loaded but not cached is one that
        cannot be read. */
    ghost predicate Valid()
      reads this
    {
      (forall p :: p in cache ==> ReadIgnoreFile(files(p)) == Ok(cache[p]))
      && (forall p :: p in cache ==> multiset(loaded)[p] == 1)
      && (forall k :: 0 <= k < |loaded| && loaded[k] !in cache ==> ReadIgnoreFile(files(loaded[k])).Err?)
    }

    constructor(files: string -> seq<string>)
      ensures Valid()
      ensures this.files == files && cache == map[] && loaded == []
    {
      this.files := files;
      cache := map[];
      loaded := [];
    }

    /** `get_groups(path, lineno)`: the cache makes no difference to the
        answer, and a file is loaded only when it is not cached yet. */
    method GetGroups(path: Option<string>, lineno: Option<int>) returns (r: Result<Option<seq<string>>>)
      requires Valid()
      modifies this
      ensures Valid()
      ensures r == GetGroupsSpec(files, path, lineno)
      ensures path.None? || lineno.None? ==> cache == old(cache) && loaded == old(loaded)
      ensures path.Some? && lineno.Some? && path.value in old(cache) ==> cache == old(cache) && loaded == old(loaded)
      ensures path.Some? && lineno.Some? && path.value !in old(cache) ==>
                loaded == old(loaded) + [path.value]
                && cache == (if ReadIgnoreFile(files(path.value)).Ok?
                             then old(cache)[path.value := ReadIgnoreFile(files(path.value)).value]
                             else old(cache))
    {
      if path.None? || lineno.None? {
        return Ok(None);
      }
      var p := path.value;
      if p !in cache {
        loaded := loaded + [p];
        var read := ReadIgnoreFileLines(files(p));
        if read.Err? {
          assert loaded[|loaded| - 1] == p;
          return Err(read.error);
        }
        assert p !in old(loaded);
        cache := cache[p := read.value];
      }
      var groups := cache[p];
      var g := GroupsAt(groups, lineno.value);
      if g.Err? {
        return Err(g.error);
      }
      r := Ok(Some(g.value));
    }
  }

  /** Asking twice for the same file opens it once. */
  method AskTwice(files: string -> seq<string>, path: string, a: int, b: int)
    returns (first: Result<Option<seq<string>>>, second: Result<Option<seq<string>>>, ghost loaded: seq<string>)
    ensures first == GetGroupsSpec(files, Some(path), Some(a))
    ensures second == GetGroupsSpec(files, Some(path), Some(b))
    ensures loaded == if ReadIgnoreFile(files(path)).Ok? then [path] else [path, path]
  {
    var reader := new IgnoreGroupReader(files);
    first := reader.GetGroups(Some(path), Some(a));
    second := reader.GetGroups(Some(path), Some(b));
    loaded := reader.loaded;
  }

  // ---------------------------------------------------------------------
  // check-ignore output and group labels

  /** One verdict of `git check-ignore -z --verbose --non-matching`: the
      ignore file, the line in it, the pattern, and the path. */
  datatype Quad = Quad(source: string, line: string, pattern: string, path: string)

  /** The check on the NUL-separated output for `count` paths, and its
      reading as `count` quads. */
  function SplitQuads(stdout: string, count: nat): (r: Result<seq<Quad>>)
    ensures r.Ok? ==> |r.value| == count
  {
    var pieces := Split(stdout, NUL);
    if |pieces| != 4 * count + 1 then Err(AssertionError)
    else if pieces[4 * count] != "" then Err(AssertionError)
    else Ok(seq(count, i requires 0 <= i < count => Quad(pieces[4 * i], pieces[4 * i + 1], pieces[4 * i + 2], pieces[4 * i + 3])))
  }

  function QuadFields(q: Quad): seq<string> {
    [q.source, q.line, q.pattern, q.path]
  }

  /** The fields of `quads`, four to a quad. */
  function Fields(quads: seq<Quad>): (r: seq<string>)
    ensures |r| == 4 * |quads|
  {
    if quads == [] then [] else QuadFields(quads[0]) + Fields(quads[1..])
  }

  lemma {:induction false} FieldsAt(quads: seq<Quad>, i: nat)
    requires i < |quads|
    ensures Fields(quads)[4 * i] == quads[i].source
    ensures Fields(quads)[4 * i + 1] == quads[i].line
    ensures Fields(quads)[4 * i + 2] == quads[i].pattern
    ensures Fields(quads)[4 * i + 3] == quads[i].path
  {
    var f := Fields(quads);
    assert f == QuadFields(quads[0]) + Fields(quads[1..]);
    if i > 0 {
      FieldsAt(quads[1..], i - 1);
      var j := 4 * (i - 1);
      assert f[j + 4] == Fields(quads[1..])[j];
      assert f[j + 5] == Fields(quads[1..])[j + 1];
      assert f[j + 6] == Fields(quads[1..])[j + 2];
      assert f[j + 7] == Fields(quads[1..])[j + 3];
    }
  }

  predicate NoNulQuad(q: Quad) {
    NUL !in q.source && NUL !in q.line && NUL !in q.pattern && NUL !in q.path
  }

  lemma {:induction false} FieldsNoNul(quads: seq<Quad>)
    requires forall i :: 0 <= i < |quads| ==> NoNulQuad(quads[i])
    ensures forall k :: 0 <= k < |Fields(quads)| ==> NUL !in Fields(quads)[k]
  {
    if quads != [] {
      FieldsNoNul(quads[1..]);
      assert NoNulQuad(quads[0]);
      var f := Fields(quads);
      assert f == QuadFields(quads[0]) + Fields(quads[1..]);
      forall k | 4 <= k < |f|
        ensures NUL !in f[k]
      {
        assert f[k] == Fields(quads[1..])[k - 4];
      }
    }
  }

  /** What git writes for `quads`: every field followed by NUL. */
  function EncodeQuads(quads: seq<Quad>): string {
    Join(Fields(quads) + [""], NUL)
  }

  lemma EncodedPieces(quads: seq<Quad>)
    requires forall i :: 0 <= i < |quads| ==> NoNulQuad(quads[i])
    ensures Split(EncodeQuads(quads), NUL) == Fields(quads) + [""]
  {
    FieldsNoNul(quads);
    EmptyLast(Fields(quads));
    JoinSplit(Fields(quads) + [""], NUL);
  }

  /** An empty last piece adds no NUL. */
  lemma EmptyLast(pieces: seq<string>)
    requires forall k :: 0 <= k < |pieces| ==> NUL !in pieces[k]
    ensures forall k :: 0 <= k < |pieces + [""]| ==> NUL !in (pieces + [""])[k]
  {
    forall k | 0 <= k < |pieces + [""]|
      ensures NUL !in (pieces + [""])[k]
    {
      if k < |pieces| {
        assert (pieces + [""])[k] == pieces[k];
      }
    }
  }

  /** The quads git writes are read back. */
  lemma SplitQuadsRoundTrip(quads: seq<Quad>)
    requires forall i :: 0 <= i < |quads| ==> NoNulQuad(quads[i])
    ensures SplitQuads(EncodeQuads(quads), |quads|) == Ok(quads)
  {
    var parts := Fields(quads) + [""];
    EncodedPieces(quads);
    assert |parts| == 4 * |quads| + 1 && parts[4 * |quads|] == "";
    var r := SplitQuads(EncodeQuads(quads), |quads|);
    assert r.Ok?;
    forall i | 0 <= i < |quads|
      ensures r.value[i] == quads[i]
    {
      FieldsAt(quads, i);
    }
    assert r.value == quads;
  }

  /** The output is refused when it does not hold exactly one quad per path
      asked about. */
  lemma SplitQuadsMiscount(quads: seq<Quad>, count: nat)
    requires forall i :: 0 <= i < |quads| ==> NoNulQuad(quads[i])
    requires count != |quads|
    ensures SplitQuads(EncodeQuads(quads), count) == Err(AssertionError)
  {
    EncodedPieces(quads);
  }

  /** `worktree_path / ignore_file`: an absolute name stands alone.
      Unlike `PurePosixPath`, the join does not normalise: a worktree that
      ends in `/` gives `//` in the reported ignore file, and `.`
      components are kept. */
  function JoinPath(worktree: string, name: string): string {
    if name != [] && name[0] == '/' then name else worktree + "/" + name
  }

  /** Where the matching pattern is: the ignore file and line, both absent
      for a path that no pattern matches. */
  function QuadSource(worktree: string, q: Quad): (r: Result<(Option<string>, Option<int>)>)
    ensures r.Ok? ==> (r.value.0.None? <==> q.source == "") && (r.value.1.None? <==> q.line == "")
    ensures r.Ok? <==> (q.source == "") == (q.line == "") && (q.line == "" || StrictInt(q.line).Ok?)
  {
    var file := if q.source == "" then None else Some(JoinPath(worktree, q.source));
    var line :- if q.line == "" then Ok(None)
                else if StrictInt(q.line).Err? then Err(StrictInt(q.line).error)
                else Ok(Some(StrictInt(q.line).value as int));
    if file.None? != line.None? then Err(AssertionError) else Ok((file, line))
  }

  const Unidentified: string := "<failed to identify matching ignore pattern>"

  /** The label of an ignored path: its group, `-` outside any group, and a
      fixed text when no pattern was found. */
  function GroupLabel(groups: Option<seq<string>>): (r: Result<string>)
    ensures groups.None? ==> r == Ok(Unidentified)
    ensures groups.Some? && groups.value == [] ==> r == Ok("-")
    ensures groups.Some? && |groups.value| == 1 ==> r == Ok(groups.value[0])
    ensures groups.Some? && |groups.value| > 1 ==> r == Err(AssertionError)
  {
    if groups.None? then Ok(Unidentified)
    else if |groups.value| < 1 then Ok("-")
    else if |groups.value| > 1 then Err(AssertionError)
    else Ok(groups.value[0])
  }

  /** `--group` keeps only the labels named, when any are; `--not-in-group`
      drops the labels named. */
  predicate Keep(group: string, only: set<string>, exclude: set<string>) {
    (only == {} || group in only) && group !in exclude
  }

  /** An ignored path kept for the output, with its label and source. */
  datatype Hit = Hit(group: string, path: string, source: Option<string>, line: Option<int>, pattern: string)

  /** The kept verdicts among `quads`, in order. */
  function Classify(files: string -> seq<string>, worktree: string, quads: seq<Quad>,
                    only: set<string>, exclude: set<string>): (r: Result<seq<Hit>>)
    ensures r.Ok? ==> |r.value| <= |quads|
    ensures r.Ok? ==> forall k :: 0 <= k < |r.value| ==> Keep(r.value[k].group, only, exclude)
    decreases |quads|
  {
    if quads == [] then Ok([])
    else
      var q := quads[0];
      var src :- QuadSource(worktree, q);
      var groups :- GetGroupsSpec(files, src.0, src.1);
      var tag :- GroupLabel(groups);
      var rest := Classify(files, worktree, quads[1..], only, exclude);
      if Keep(tag, only, exclude) then Prepend([Hit(tag, q.path, src.0, src.1, q.pattern)], rest)
      else rest
  }

  /** With no `--group` and no `--not-in-group`, every verdict is kept. */
  lemma {:induction false} ClassifyKeepsAll(files: string -> seq<string>, worktree: string, quads: seq<Quad>)
    ensures Classify(files, worktree, quads, {}, {}).Ok? ==> |Classify(files, worktree, quads, {}, {}).value| == |quads|
    decreases |quads|
  {
    if quads != [] {
      ClassifyKeepsAll(files, worktree, quads[1..]);
    }
  }

  /** The part of `Ignored.execute` for one work tree: split check-ignore's
      output into quads, find each one's groups through the shared reader,
      label and filter. */
  method ClassifyIgnored(reader: IgnoreGroupReader, worktree: string, stdout: string, count: nat,
                         only: set<string>, exclude: set<string>) returns (r: Result<seq<Hit>>)
    requires reader.Valid()
    modifies reader
    ensures reader.Valid()
    ensures r == (var quads :- SplitQuads(stdout, count); Classify(reader.files, worktree, quads, only, exclude))
  {
    var split := SplitQuads(stdout, count);
    if split.Err? {
      return Err(split.error);
    }
    var quads := split.value;
    var hits: seq<Hit> := [];
    var k := 0;
    PrependNothing(Classify(reader.files, worktree, quads, only, exclude));
    while k < |quads|
      invariant k <= |quads|
      invariant reader.Valid()
      invariant Classify(reader.files, worktree, quads, only, exclude)
             == Prepend(hits, Classify(reader.files, worktree, quads[k..], only, exclude))
    {
      var q := quads[k];
      assert quads[k..][0] == q && quads[k..][1..] == quads[k + 1..];
      var src := QuadSource(worktree, q);
      if src.Err? {
        return Err(src.error);
      }
      var groups := reader.GetGroups(src.value.0, src.value.1);
      if groups.Err? {
        return Err(groups.error);
      }
      var tag := GroupLabel(groups.value);
      if tag.Err? {
        return Err(tag.error);
      }
      if Keep(tag.value, only, exclude) {
        var hit := Hit(tag.value, q.path, src.value.0, src.value.1, q.pattern);
        PrependOne(hits, hit, Classify(reader.files, worktree, quads[k + 1..], only, exclude));
        hits := hits + [hit];
      }
      k := k + 1;
    }
    assert quads[k..] == [];
    PrependAll(hits);
    r := Ok(hits);
  }
}
