/** The parser of `git status --porcelain=v2 -z` output (the inner functions
    of `status` in rgit/git.py). The stream is a sequence of NUL-terminated
    records; each starts with a one-character tag and a space. A rename or
    copy record (`2`) takes the record after it as its second path. Fields
    are cut at fixed positions or at single spaces, and a missing separator
    stops the parse. */
module Porcelain {
  import opened Wrappers
  import opened PyStr

  /** The fields an ordinary change and a rename or copy share: the
      two-character XY state, the four-character submodule state, three file
      modes (HEAD, index, work tree) and two object names (HEAD, index). */
  datatype Change = Change(xy: string, sub: string, mH: string, mI: string, mW: string, hH: string, hI: string)

  datatype StatusEntry =
    | Header(name: string, value: string)
    | Untracked(path: string)
    | Ignored(path: string)
    | Ordinary(change: Change, path: string)
    | Rename(change: Change, xScore: string, path1: string, path2: string)
    | Unmerged(xy: string, sub: string, m1: string, m2: string, m3: string, mW: string,
               h1: string, h2: string, h3: string, path: string)

  const NUL: char := '\0'

  /** Each field followed by one space. */
  function Terminated(fields: seq<string>): string
  {
    if fields == [] then "" else fields[0] + " " + Terminated(fields[1..])
  }

  predicate NoSpace(s: string) {
    ' ' !in s
  }

  /** `count` successive `partition(" ")` calls, each followed by
      `assert sep == " "`: the fields cut off and what remains. */
  function TakeFields(s: string, count: nat): (r: Result<(seq<string>, string)>)
    ensures r.Ok? ==> |r.value.0| == count
  {
    if count == 0 then Ok(([], s))
    else if ' ' !in s then Err(AssertionError)
    else
      var i := IndexOf(s, ' ');
      var tail := TakeFields(s[i + 1..], count - 1);
      if tail.Err? then tail else Ok(([s[..i]] + tail.value.0, tail.value.1))
  }

  predicate AllNoSpace(fields: seq<string>) {
    forall k :: 0 <= k < |fields| ==> NoSpace(fields[k])
  }

  /** One step of `TakeFields`: the field before the first space, then the
      fields taken from what follows it. */
  lemma TakeFieldsStep(s: string, count: nat, i: nat)
    requires count > 0 && i < |s| && s[i] == ' ' && ' ' !in s[..i]
    ensures TakeFields(s, count)
         == (var tail := TakeFields(s[i + 1..], count - 1);
             if tail.Err? then tail else Ok(([s[..i]] + tail.value.0, tail.value.1)))
  {
    assert ' ' in s;
  }

  lemma TerminatedPrepend(field: string, fields: seq<string>, rest: string)
    ensures Terminated([field] + fields) + rest == field + " " + (Terminated(fields) + rest)
  {
    assert ([field] + fields)[1..] == fields;
  }

  lemma TerminatedCons(fields: seq<string>, rest: string)
    requires fields != []
    ensures var s := Terminated(fields) + rest;
            var i := |fields[0]|;
            && i < |s| && s[..i] == fields[0] && s[i] == ' '
            && s[i + 1..] == Terminated(fields[1..]) + rest
  {
    assert Terminated(fields) + rest == fields[0] + " " + (Terminated(fields[1..]) + rest);
  }

  lemma RejoinField(s: string, i: nat, fields: seq<string>, rest: string)
    requires i < |s| && s[i] == ' ' && ' ' !in s[..i]
    requires s[i + 1..] == Terminated(fields) + rest && AllNoSpace(fields)
    ensures s == Terminated([s[..i]] + fields) + rest && AllNoSpace([s[..i]] + fields)
  {
    TerminatedPrepend(s[..i], fields, rest);
    assert s == s[..i] + " " + s[i + 1..];
    var fs := [s[..i]] + fields;
    forall k | 0 <= k < |fs|
      ensures NoSpace(fs[k])
    {
      if k > 0 {
        assert fs[k] == fields[k - 1];
      }
    }
  }

  /** What `TakeFields` cuts off rejoins, with single spaces, into its input. */
  lemma {:induction false} TakeFieldsRejoin(s: string, count: nat)
    requires TakeFields(s, count).Ok?
    ensures var p := TakeFields(s, count).value;
            s == Terminated(p.0) + p.1 && AllNoSpace(p.0)
    decreases count, 1
  {
    if count == 0 {
      assert Terminated([]) + s == s;
    } else {
      TakeFieldsRejoinStep(s, count);
    }
  }

  /** One field cut off the front, and the rest rejoined. */
  lemma {:induction false} TakeFieldsRejoinStep(s: string, count: nat)
    requires count > 0 && TakeFields(s, count).Ok?
    ensures var q := TakeFields(s, count).value;
            s == Terminated(q.0) + q.1 && AllNoSpace(q.0)
    decreases count, 0
  {
    assert ' ' in s;
    var i := IndexOf(s, ' ');
    var rest := s[i + 1..];
    TakeFieldsStep(s, count, i);
    var t := TakeFields(rest, count - 1);
    assert t.Ok? && TakeFields(s, count).value == ([s[..i]] + t.value.0, t.value.1);
    TakeFieldsRejoin(rest, count - 1);
    RejoinField(s, i, t.value.0, t.value.1);
  }

  /** Fields without spaces, each followed by a space, are cut off again. */
  lemma {:induction false} TakeFieldsTerminated(fields: seq<string>, rest: string)
    requires AllNoSpace(fields)
    ensures TakeFields(Terminated(fields) + rest, |fields|) == Ok((fields, rest))
  {
    if fields != [] {
      var s := Terminated(fields) + rest;
      var tail := Terminated(fields[1..]) + rest;
      TerminatedCons(fields, rest);
      assert NoSpace(fields[0]);
      TakeFieldsStep(s, |fields|, |fields[0]|);
      assert AllNoSpace(fields[1..]);
      TakeFieldsTerminated(fields[1..], rest);
      assert [fields[0]] + fields[1..] == fields;
    } else {
      assert Terminated(fields) + rest == rest;
    }
  }

  /** The five space-terminated fields of a change, in record order. */
  function ChangeFields(c: Change): (r: seq<string>)
    ensures |r| == 5
  {
    [c.mH, c.mI, c.mW, c.hH, c.hI]
  }

  function EncodeChange(c: Change): string
  {
    c.xy + " " + c.sub + " " + Terminated(ChangeFields(c))
  }

  /** The fixed-width head shared by ordinary, rename and unmerged records:
      two characters, a space, four characters, a space. */
  lemma HeadLayout(line: string)
    requires |line| >= 8 && line[2] == ' ' && line[7] == ' '
    ensures line == line[..2] + " " + line[3..7] + " " + line[8..]
  {
  }

  lemma HeadOf(xy: string, sub: string, tail: string)
    requires |xy| == 2 && |sub| == 4
    ensures var line := xy + " " + sub + " " + tail;
            && |line| >= 8 && line[2] == ' ' && line[7] == ' '
            && line[..2] == xy && line[3..7] == sub && line[8..] == tail
  {
    var line := xy + " " + sub + " " + tail;
    assert line[..2] == xy;
    assert line[3..7] == sub;
    assert line[8..] == tail;
  }

  /** `split_ordinary_or_first_part_of_renamed`: two characters, a space,
      four characters, a space, then five space-terminated fields; the
      remainder is the path, spaces included. */
  function SplitOrdinary(line: string): Result<(Change, string)>
  {
    if |line| < 3 then Err(IndexError)
    else if line[2] != ' ' then Err(AssertionError)
    else if |line| < 8 then Err(IndexError)
    else if line[7] != ' ' then Err(AssertionError)
    else
      var p :- TakeFields(line[8..], 5);
      var f := p.0;
      Ok((Change(line[..2], line[3..7], f[0], f[1], f[2], f[3], f[4]), p.1))
  }

  predicate WellFormedChange(c: Change) {
    |c.xy| == 2 && |c.sub| == 4 && AllNoSpace(ChangeFields(c))
  }

  /** Rejoining the fields of an ordinary record with single spaces
      reproduces the line, and the fields meet the layout. */
  lemma OrdinarySplitRejoin(line: string)
    requires SplitOrdinary(line).Ok?
    ensures var (c, path) := SplitOrdinary(line).value;
            WellFormedChange(c) && EncodeChange(c) + path == line
  {
    var q := TakeFields(line[8..], 5);
    TakeFieldsRejoin(line[8..], 5);
    var (fs, path) := q.value;
    var c := Change(line[..2], line[3..7], fs[0], fs[1], fs[2], fs[3], fs[4]);
    assert SplitOrdinary(line).value == (c, path);
    assert ChangeFields(c) == fs;
    HeadLayout(line);
    HeadAssoc(line[..2], line[3..7], Terminated(fs), path);
  }

  lemma HeadAssoc(xy: string, sub: string, fields: string, path: string)
    ensures xy + " " + sub + " " + fields + path == xy + " " + sub + " " + (fields + path)
  {
  }

  /** Encoding a well-formed change and any path, then splitting, gives
      them back. */
  lemma OrdinaryEncodeSplit(c: Change, path: string)
    requires WellFormedChange(c)
    ensures SplitOrdinary(EncodeChange(c) + path) == Ok((c, path))
  {
    var fs := ChangeFields(c);
    var tail := Terminated(fs) + path;
    var line := EncodeChange(c) + path;
    assert line == c.xy + " " + c.sub + " " + tail;
    HeadOf(c.xy, c.sub, tail);
    TakeFieldsTerminated(fs, path);
  }

  /** The seven space-terminated fields of an unmerged record. */
  function UnmergedFields(e: StatusEntry): (r: seq<string>)
    requires e.Unmerged?
    ensures |r| == 7
  {
    [e.m1, e.m2, e.m3, e.mW, e.h1, e.h2, e.h3]
  }

  function EncodeUnmerged(e: StatusEntry): string
    requires e.Unmerged?
  {
    e.xy + " " + e.sub + " " + (Terminated(UnmergedFields(e)) + e.path)
  }

  /** `process_unmerged`: two characters, a space, four characters, a space,
      seven space-terminated fields, then the path. */
  function ProcessUnmerged(line: string): Result<StatusEntry>
  {
    if |line| < 3 then Err(IndexError)
    else if line[2] != ' ' then Err(AssertionError)
    else if |line| < 8 then Err(IndexError)
    else if line[7] != ' ' then Err(AssertionError)
    else
      var p :- TakeFields(line[8..], 7);
      var f := p.0;
      Ok(Unmerged(line[..2], line[3..7], f[0], f[1], f[2], f[3], f[4], f[5], f[6], p.1))
  }

  predicate WellFormedUnmerged(e: StatusEntry) {
    e.Unmerged? && |e.xy| == 2 && |e.sub| == 4 && AllNoSpace(UnmergedFields(e))
  }

  /** An unmerged record parses into fields that rejoin into it. */
  lemma UnmergedSplitRejoin(line: string)
    requires ProcessUnmerged(line).Ok?
    ensures var e := ProcessUnmerged(line).value;
            WellFormedUnmerged(e) && EncodeUnmerged(e) == line
  {
    var q := TakeFields(line[8..], 7);
    TakeFieldsRejoin(line[8..], 7);
    var (fs, path) := q.value;
    var e := Unmerged(line[..2], line[3..7], fs[0], fs[1], fs[2], fs[3], fs[4], fs[5], fs[6], path);
    assert ProcessUnmerged(line).value == e;
    SevenFields(fs);
    HeadLayout(line);
  }

  lemma SevenFields(fs: seq<string>)
    requires |fs| == 7
    ensures [fs[0], fs[1], fs[2], fs[3], fs[4], fs[5], fs[6]] == fs
  {
  }

  /** A well-formed unmerged entry parses back from its record. */
  lemma UnmergedEncodeSplit(e: StatusEntry)
    requires WellFormedUnmerged(e)
    ensures ProcessUnmerged(EncodeUnmerged(e)) == Ok(e)
  {
    var fs := UnmergedFields(e);
    var tail := Terminated(fs) + e.path;
    var line := EncodeUnmerged(e);
    HeadOf(e.xy, e.sub, tail);
    TakeFieldsTerminated(fs, e.path);
  }

  /** `process_header`: name and value around the first space. */
  function ProcessHeader(line: string): Result<StatusEntry>
  {
    var (name, found, value) := Partition(line, ' ');
    if !found then Err(AssertionError) else Ok(Header(name, value))
  }

  /** `process_rename`: the ordinary layout, then the similarity score and
      the path up to the record's end; `path2` is the next record. */
  function ProcessRename(line: string, path2: string): Result<StatusEntry>
  {
    var p :- SplitOrdinary(line);
    var (xScore, found, path1) := Partition(p.1, ' ');
    if !found then Err(AssertionError) else Ok(Rename(p.0, xScore, path1, path2))
  }

  /** The handler of a record with a tag other than `2`. */
  function ProcessRecord(tag: char, line: string): Result<StatusEntry>
  {
    if tag == '#' then ProcessHeader(line)
    else if tag == '?' then Ok(Untracked(line))
    else if tag == '!' then Ok(Ignored(line))
    else if tag == '1' then
      var p :- SplitOrdinary(line);
      Ok(Ordinary(p.0, p.1))
    else if tag == 'u' then ProcessUnmerged(line)
    else Err(ValueError("unrecognized status line"))
  }

  /** The records, in order, into entries: the loop of
      `process_status_porcelain_v2_output`. */
  function ParseRecords(records: seq<string>): Result<seq<StatusEntry>>
    decreases |records|
  {
    if records == [] then Ok([])
    else
      var entry := records[0];
      if |entry| < 2 then Err(ValueError("not enough values to unpack"))
      else if entry[1] != ' ' then Err(AssertionError)
      else if entry[0] == '2' then
        if |records| < 2 then Err(IndexError)
        else
          var e :- ProcessRename(entry[2..], records[1]);
          var tail :- ParseRecords(records[2..]);
          Ok([e] + tail)
      else
        var e :- ProcessRecord(entry[0], entry[2..]);
        var tail :- ParseRecords(records[1..]);
        Ok([e] + tail)
  }

  /** The records of the stream: none for empty output; otherwise the output
      must end with NUL and the records are the NUL-separated pieces before
      that final NUL. */
  function Records(stdout: string): Result<seq<string>>
  {
    if stdout == [] then Ok([])
    else if stdout[|stdout| - 1] != NUL then Err(AssertionError)
    else Ok(Split(stdout[..|stdout| - 1], NUL))
  }

  function ParseStatus(stdout: string): Result<seq<StatusEntry>>
  {
    var records :- Records(stdout);
    ParseRecords(records)
  }

  /** The record loop: pops records off the front and appends one entry per
      record, two records for a rename. */
  method ProcessRecords(records: seq<string>) returns (r: Result<seq<StatusEntry>>)
    ensures r == ParseRecords(records)
  {
    var stack := records;
    var result: seq<StatusEntry> := [];
    PrependNothing(ParseRecords(records));
    while stack != []
      invariant ParseRecords(records) == Prepend(result, ParseRecords(stack))
      decreases |stack|
    {
      ghost var before := stack;
      var entry := stack[0];
      stack := stack[1..];
      if |entry| < 2 {
        return Err(ValueError("not enough values to unpack"));
      }
      if entry[1] != ' ' {
        return Err(AssertionError);
      }
      var e: Result<StatusEntry>;
      if entry[0] == '2' {
        if stack == [] {
          return Err(IndexError);
        }
        var path2 := stack[0];
        stack := stack[1..];
        e := ProcessRename(entry[2..], path2);
      } else {
        e := ProcessRecord(entry[0], entry[2..]);
      }
      if e.Err? {
        return Err(e.error);
      }
      assert ParseRecords(before) == Prepend([e.value], ParseRecords(stack));
      PrependOne(result, e.value, ParseRecords(stack));
      result := result + [e.value];
    }
    PrependAll(result);
    r := Ok(result);
  }

  /** `process_status_porcelain_v2_output`. */
  method ProcessStatusOutput(stdout: string) returns (r: Result<seq<StatusEntry>>)
    ensures r == ParseStatus(stdout)
  {
    var records := Records(stdout);
    if records.Err? {
      return Err(records.error);
    }
    r := ProcessRecords(records.value);
  }

  function RenameCount(entries: seq<StatusEntry>): nat
  {
    if entries == [] then 0 else (if entries[0].Rename? then 1 else 0) + RenameCount(entries[1..])
  }

  /** One entry per record, except that a rename takes two records: the
      number of entries is the number of records minus the renames. */
  lemma {:induction false} EntryCount(records: seq<string>)
    requires ParseRecords(records).Ok?
    ensures |ParseRecords(records).value| == |records| - RenameCount(ParseRecords(records).value)
    decreases |records|
  {
    var es := ParseRecords(records).value;
    if records != [] {
      var entry := records[0];
      assert es[1..] == ParseRecords(if entry[0] == '2' then records[2..] else records[1..]).value;
      if entry[0] == '2' {
        EntryCount(records[2..]);
      } else {
        EntryCount(records[1..]);
        assert !es[0].Rename? by {
          var line := entry[2..];
          assert es[0] == ProcessRecord(entry[0], line).value;
        }
      }
    }
  }

  /** Empty output is an empty status. */
  lemma EmptyOutput()
    ensures ParseStatus("") == Ok([])
  {
  }

  /** Output that does not end with NUL is rejected, and an unknown tag is a
      `ValueError`. */
  lemma MalformedOutput(stdout: string, entry: string)
    ensures stdout != [] && stdout[|stdout| - 1] != NUL ==> ParseStatus(stdout) == Err(AssertionError)
    ensures |entry| >= 2 && entry[1] == ' ' && entry[0] !in "#?!12u" ==>
              ParseRecords([entry]) == Err(ValueError("unrecognized status line"))
  {
  }

  /** The record(s) an entry is written as. */
  function EncodeEntry(e: StatusEntry): seq<string>
  {
    match e
    case Header(name, value) => ["# " + (name + " " + value)]
    case Untracked(path) => ["? " + path]
    case Ignored(path) => ["! " + path]
    case Ordinary(c, path) => ["1 " + (EncodeChange(c) + path)]
    case Rename(c, xScore, path1, path2) => ["2 " + (EncodeChange(c) + (xScore + " " + path1)), path2]
    case Unmerged(_, _, _, _, _, _, _, _, _, _) => ["u " + EncodeUnmerged(e)]
  }

  function EncodeRecords(entries: seq<StatusEntry>): seq<string>
  {
    if entries == [] then [] else EncodeEntry(entries[0]) + EncodeRecords(entries[1..])
  }

  /** The output git writes for `entries`: every record followed by NUL. */
  function Encode(entries: seq<StatusEntry>): string
  {
    if entries == [] then "" else Join(EncodeRecords(entries), NUL) + [NUL]
  }

  predicate NoNul(s: string) {
    NUL !in s
  }

  /** What git can print: no field holds NUL, fields cut at spaces hold no
      space, and the fixed-width fields have their width. */
  predicate WellFormedEntry(e: StatusEntry) {
    match e
    case Header(name, value) => NoSpace(name) && NoNul(name) && NoNul(value)
    case Untracked(path) => NoNul(path)
    case Ignored(path) => NoNul(path)
    case Ordinary(c, path) => WellFormedChange(c) && NoNulChange(c) && NoNul(path)
    case Rename(c, xScore, path1, path2) =>
      WellFormedChange(c) && NoNulChange(c) && NoSpace(xScore) && NoNul(xScore) && NoNul(path1) && NoNul(path2)
    case Unmerged(_, _, _, _, _, _, _, _, _, _) =>
      WellFormedUnmerged(e) && NoNul(EncodeUnmerged(e))
  }

  predicate NoNulChange(c: Change) {
    NoNul(EncodeChange(c))
  }

  lemma EncodeEntryNoNul(e: StatusEntry)
    requires WellFormedEntry(e)
    ensures forall k :: 0 <= k < |EncodeEntry(e)| ==> NoNul(EncodeEntry(e)[k])
  {
  }

  lemma {:induction false} EncodeRecordsNoNul(entries: seq<StatusEntry>)
    requires forall i :: 0 <= i < |entries| ==> WellFormedEntry(entries[i])
    ensures forall k :: 0 <= k < |EncodeRecords(entries)| ==> NoNul(EncodeRecords(entries)[k])
  {
    if entries != [] {
      EncodeEntryNoNul(entries[0]);
      EncodeRecordsNoNul(entries[1..]);
    }
  }

  lemma TaggedRecord(tag: char, body: string)
    ensures var entry := [tag, ' '] + body;
            |entry| >= 2 && entry[0] == tag && entry[1] == ' ' && entry[2..] == body
  {
    assert ([tag, ' '] + body)[2..] == body;
  }

  /** A record with a tag other than `2` yields one entry in front of the
      entries of the records after it. */
  lemma ParseSingle(tag: char, body: string, rest: seq<string>, e: StatusEntry)
    requires tag != '2' && ProcessRecord(tag, body) == Ok(e)
    ensures ParseRecords([[tag, ' '] + body] + rest) == Prepend([e], ParseRecords(rest))
  {
    var records := [[tag, ' '] + body] + rest;
    TaggedRecord(tag, body);
    assert records[0] == [tag, ' '] + body && records[1..] == rest;
  }

  /** A rename record and the path record after it yield one entry in front
      of the entries of the records after them. */
  lemma ParsePair(body: string, path2: string, rest: seq<string>, e: StatusEntry)
    requires ProcessRename(body, path2) == Ok(e)
    ensures ParseRecords([['2', ' '] + body, path2] + rest) == Prepend([e], ParseRecords(rest))
  {
    var records := [['2', ' '] + body, path2] + rest;
    TaggedRecord('2', body);
    assert records[0] == ['2', ' '] + body && records[1] == path2 && records[2..] == rest;
  }

  /** Each well-formed entry parses back from the record(s) it is written as. */
  lemma EntryRoundTrip(e: StatusEntry, rest: seq<string>)
    requires WellFormedEntry(e)
    ensures ParseRecords(EncodeEntry(e) + rest)
         == Prepend([e], ParseRecords(rest))
  {
    match e
    case Header(name, value) =>
      PartitionAt(name, ' ', value);
      ParseSingle('#', name + " " + value, rest, e);
    case Untracked(path) =>
      ParseSingle('?', path, rest, e);
    case Ignored(path) =>
      ParseSingle('!', path, rest, e);
    case Ordinary(c, path) =>
      OrdinaryEncodeSplit(c, path);
      ParseSingle('1', EncodeChange(c) + path, rest, e);
    case Rename(c, xScore, path1, path2) =>
      var tail := xScore + " " + path1;
      OrdinaryEncodeSplit(c, tail);
      PartitionAt(xScore, ' ', path1);
      ParsePair(EncodeChange(c) + tail, path2, rest, e);
      assert EncodeEntry(e) + rest == [['2', ' '] + (EncodeChange(c) + tail), path2] + rest;
    case Unmerged(_, _, _, _, _, _, _, _, _, _) =>
      UnmergedEncodeSplit(e);
      ParseSingle('u', EncodeUnmerged(e), rest, e);
  }

  lemma {:induction false} RecordsRoundTrip(entries: seq<StatusEntry>)
    requires forall i :: 0 <= i < |entries| ==> WellFormedEntry(entries[i])
    ensures ParseRecords(EncodeRecords(entries)) == Ok(entries)
  {
    if entries != [] {
      RecordsRoundTrip(entries[1..]);
      EntryRoundTrip(entries[0], EncodeRecords(entries[1..]));
      assert [entries[0]] + entries[1..] == entries;
    }
  }

  /** Round trip of the whole stream: parsing what git writes for a list of
      well-formed entries gives that list back. */
  lemma StreamRoundTrip(entries: seq<StatusEntry>)
    requires forall i :: 0 <= i < |entries| ==> WellFormedEntry(entries[i])
    ensures ParseStatus(Encode(entries)) == Ok(entries)
  {
    if entries != [] {
      var records := EncodeRecords(entries);
      EncodeRecordsNoNul(entries);
      assert |records| >= 1 by {
        assert |EncodeEntry(entries[0])| >= 1;
      }
      var body := Join(records, NUL);
      var out := body + [NUL];
      assert out[..|out| - 1] == body;
      JoinSplit(records, NUL);
      RecordsRoundTrip(entries);
    }
  }
}
