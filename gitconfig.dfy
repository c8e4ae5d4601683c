/** The readers of `git config` and `git rev-parse` output in rgit/git.py:
    the `--get-regex` line splitter, the `--get-all --null` value splitter,
    the per-remote grouping of repeated keys and the bare-repository flag.
    Git's output arrives as text; running git is not part of this model. */
module GitConfig {
  import opened Wrappers
  import opened PyStr
  import opened OrderedDict

  /** A remote's configuration: each key with its values in the order git
      printed them. */
  type Config = Dict<string, seq<string>>

  /** One line of `git config --get-regex` output: the key before the first
      space must carry `prefix`; the key without it and the value, both
      stripped. No space at all fails the two-name unpacking. */
  function ConfigLine(line: string, prefix: string): (r: Result<(string, string)>)
    ensures ' ' !in line ==> r == Err(ValueError("not enough values to unpack"))
  {
    var p := Partition(line, ' ');
    if !p.1 then Err(ValueError("not enough values to unpack"))
    else if !(prefix <= p.0) then Err(AssertionError)
    else Ok((Strip(p.0[|prefix|..]), Strip(p.2)))
  }

  /** An accepted line has a space, its key carries the prefix, and the
      parts it yields have no white space at their ends. */
  lemma ConfigLineAccepted(line: string, prefix: string)
    requires ConfigLine(line, prefix).Ok?
    ensures ' ' in line && prefix <= line
    ensures Stripped(ConfigLine(line, prefix).value.0) && Stripped(ConfigLine(line, prefix).value.1)
  {
    var p := Partition(line, ' ');
    PartitionSplits(line, ' ');
    SplitLineHasPrefix(line, p.0, p.2, prefix);
    StripIsStripped(p.0[|prefix|..]);
    StripIsStripped(p.2);
  }

  lemma SplitLineHasPrefix(line: string, key: string, value: string, prefix: string)
    requires line == key + [' '] + value && prefix <= key
    ensures ' ' in line && prefix <= line
  {
    assert line[|key|] == ' ';
    assert line[..|key|] == key;
  }

  lemma StripIsStripped(s: string)
    ensures Stripped(Strip(s))
  {
    var l := LStrip(s);
    var r := RStrip(l);
    if r != [] {
      assert l[0] == r[0];
    }
  }

  /** The entries of `lines`, in order; the first bad line decides the error. */
  function ConfigEntries(lines: seq<string>, prefix: string): (r: Result<seq<(string, string)>>)
    ensures r.Ok? ==> |r.value| == |lines|
  {
    if lines == [] then Ok([])
    else
      var e :- ConfigLine(lines[0], prefix);
      var rest :- ConfigEntries(lines[1..], prefix);
      Ok([e] + rest)
  }

  lemma ConfigEntriesStep(lines: seq<string>, prefix: string)
    requires lines != [] && ConfigLine(lines[0], prefix).Ok?
    ensures ConfigEntries(lines, prefix)
         == Prepend([ConfigLine(lines[0], prefix).value], ConfigEntries(lines[1..], prefix))
  {
  }

  lemma ConfigEntriesFails(lines: seq<string>, prefix: string)
    requires lines != [] && ConfigLine(lines[0], prefix).Err?
    ensures ConfigEntries(lines, prefix) == Err(ConfigLine(lines[0], prefix).error)
  {
  }

  /** `walk_config_regex_output`: one entry per line of `text`. */
  method WalkConfigRegexOutput(text: string, prefix: string) returns (r: Result<seq<(string, string)>>)
    ensures r == ConfigEntries(SplitLines(text), prefix)
  {
    var lines := SplitLines(text);
    var result: seq<(string, string)> := [];
    var k := 0;
    PrependNothing(ConfigEntries(lines, prefix));
    while k < |lines|
      invariant k <= |lines|
      invariant ConfigEntries(lines, prefix) == Prepend(result, ConfigEntries(lines[k..], prefix))
    {
      var e := ConfigLine(lines[k], prefix);
      ghost var rest := lines[k..];
      assert rest[0] == lines[k] && rest[1..] == lines[k + 1..];
      if e.Err? {
        ConfigEntriesFails(rest, prefix);
        return Err(e.error);
      }
      ConfigEntriesStep(rest, prefix);
      PrependOne(result, e.value, ConfigEntries(lines[k + 1..], prefix));
      result := result + [e.value];
      k := k + 1;
    }
    assert lines[k..] == [];
    PrependAll(result);
    r := Ok(result);
  }

  /** What git writes for `key` and `value` under `prefix`. */
  function ConfigText(entries: seq<(string, string)>, prefix: string): seq<string>
  {
    if entries == [] then [] else [prefix + entries[0].0 + " " + entries[0].1] + ConfigText(entries[1..], prefix)
  }

  /** An entry git can print: the full key has no space, neither part has a
      line break or white space at its ends. */
  predicate PrintableEntry(e: (string, string), prefix: string) {
    && ' ' !in prefix && ' ' !in e.0
    && NoLineBreak(prefix) && NoLineBreak(e.0) && NoLineBreak(e.1)
    && Stripped(e.0) && Stripped(e.1)
  }

  lemma NoLineBreakConcat(a: string, b: string)
    requires NoLineBreak(a) && NoLineBreak(b)
    ensures NoLineBreak(a + b)
  {
    assert forall i :: 0 <= i < |a + b| ==> (a + b)[i] == if i < |a| then a[i] else b[i - |a|];
  }

  lemma NotInConcat(a: string, b: string, c: char)
    requires c !in a && c !in b
    ensures c !in a + b
  {
    assert forall i :: 0 <= i < |a + b| ==> (a + b)[i] == if i < |a| then a[i] else b[i - |a|];
  }

  lemma ConfigLineOf(line: string, prefix: string, key: string, value: string)
    requires ' ' !in prefix + key && line == (prefix + key) + [' '] + value
    requires Stripped(key) && Stripped(value)
    ensures ConfigLine(line, prefix) == Ok((key, value))
  {
    PartitionAt(prefix + key, ' ', value);
    var p := Partition(line, ' ');
    assert p == (prefix + key, true, value);
    assert (prefix + key)[..|prefix|] == prefix;
    assert prefix <= p.0;
    assert p.0[|prefix|..] == key;
    StripStripped(key);
    StripStripped(value);
  }

  lemma ConfigLineRoundTrip(e: (string, string), prefix: string)
    requires PrintableEntry(e, prefix)
    ensures ConfigLine(prefix + e.0 + " " + e.1, prefix) == Ok(e)
  {
    NotInConcat(prefix, e.0, ' ');
    assert prefix + e.0 + " " + e.1 == (prefix + e.0) + [' '] + e.1;
    ConfigLineOf(prefix + e.0 + " " + e.1, prefix, e.0, e.1);
  }

  lemma ConfigLineNoBreak(e: (string, string), prefix: string)
    requires PrintableEntry(e, prefix)
    ensures NoLineBreak(prefix + e.0 + " " + e.1)
  {
    NoLineBreakConcat(prefix, e.0);
    NoLineBreakConcat(prefix + e.0, " ");
    NoLineBreakConcat(prefix + e.0 + " ", e.1);
  }

  lemma {:induction false} ConfigTextNoBreak(entries: seq<(string, string)>, prefix: string)
    requires forall i :: 0 <= i < |entries| ==> PrintableEntry(entries[i], prefix)
    ensures forall k :: 0 <= k < |ConfigText(entries, prefix)| ==> NoLineBreak(ConfigText(entries, prefix)[k])
  {
    if entries != [] {
      ConfigLineNoBreak(entries[0], prefix);
      ConfigTextNoBreak(entries[1..], prefix);
    }
  }

  lemma {:induction false} ConfigEntriesOfText(entries: seq<(string, string)>, prefix: string)
    requires forall i :: 0 <= i < |entries| ==> PrintableEntry(entries[i], prefix)
    ensures ConfigEntries(ConfigText(entries, prefix), prefix) == Ok(entries)
  {
    if entries != [] {
      var tail := entries[1..];
      ConfigLineRoundTrip(entries[0], prefix);
      assert forall i :: 0 <= i < |tail| ==> tail[i] == entries[i + 1];
      ConfigEntriesOfText(tail, prefix);
      ConfigEntriesCons(entries[0], tail, prefix);
      assert [entries[0]] + tail == entries;
    }
  }

  /** One printed line in front of lines that read back. */
  lemma ConfigEntriesCons(e: (string, string), tail: seq<(string, string)>, prefix: string)
    requires ConfigLine(prefix + e.0 + " " + e.1, prefix) == Ok(e)
    requires ConfigEntries(ConfigText(tail, prefix), prefix) == Ok(tail)
    ensures ConfigEntries(ConfigText([e] + tail, prefix), prefix) == Ok([e] + tail)
  {
    var lines := ConfigText([e] + tail, prefix);
    assert ([e] + tail)[0] == e && ([e] + tail)[1..] == tail;
    assert lines[0] == prefix + e.0 + " " + e.1 && lines[1..] == ConfigText(tail, prefix);
  }

  /** Round trip: the text git prints for printable entries reads back as
      exactly those entries, in order. */
  lemma ConfigRoundTrip(entries: seq<(string, string)>, prefix: string)
    requires forall i :: 0 <= i < |entries| ==> PrintableEntry(entries[i], prefix)
    ensures ConfigEntries(SplitLines(UnLines(ConfigText(entries, prefix))), prefix) == Ok(entries)
  {
    ConfigTextNoBreak(entries, prefix);
    SplitUnLines(ConfigText(entries, prefix));
    ConfigEntriesOfText(entries, prefix);
  }

  /** A line whose key lacks the prefix is an assertion failure. */
  lemma ForeignKey(key: string, value: string, prefix: string)
    requires ' ' !in key && !(prefix <= key)
    ensures ConfigEntries([key + " " + value], prefix) == Err(AssertionError)
  {
    PartitionAt(key, ' ', value);
    assert key + " " + value == key + [' '] + value;
  }

  /** `get_config`: empty text, or text ending in NUL; the values are the
      NUL-separated pieces before that NUL (`""[:-1]` is `""`, so empty text
      gives one empty value). */
  function GetConfig(text: string): (r: Result<seq<string>>)
    ensures r.Ok? ==> |r.value| >= 1
    ensures r.Err? <==> text != [] && text[|text| - 1] != '\0'
    ensures r.Err? ==> r.error == AssertionError
  {
    if text == [] then Ok([""])
    else if text[|text| - 1] != '\0' then Err(AssertionError)
    else Ok(Split(text[..|text| - 1], '\0'))
  }

  /** Accepted non-empty text is its NUL-free values, each followed by a
      NUL. */
  lemma GetConfigValues(text: string)
    requires text != [] && GetConfig(text).Ok?
    ensures forall k :: 0 <= k < |GetConfig(text).value| ==> '\0' !in GetConfig(text).value[k]
    ensures Join(GetConfig(text).value, '\0') + ['\0'] == text
  {
    var body := text[..|text| - 1];
    SplitJoin(body, '\0');
    assert body + ['\0'] == text;
  }

  lemma GetConfigEmpty()
    ensures GetConfig("") == Ok([""])
  {
  }

  /** Round trip: values without NUL, each written with `--null`, read back. */
  lemma GetConfigRoundTrip(values: seq<string>)
    requires |values| >= 1 && forall k :: 0 <= k < |values| ==> '\0' !in values[k]
    ensures GetConfig(Join(values, '\0') + ['\0']) == Ok(values)
  {
    var body := Join(values, '\0');
    assert (body + ['\0'])[..|body|] == body;
    JoinSplit(values, '\0');
  }

  /** `remote_config.setdefault(key, []).append(value)`. */
  function Append(d: Config, key: string, value: string): Config
  {
    match Get(d, key)
    case None => Put(d, key, [value])
    case Some(vs) => Put(d, key, vs + [value])
  }

  function GroupFrom(d: Config, entries: seq<(string, string)>): Config
    decreases |entries|
  {
    if entries == [] then d else GroupFrom(Append(d, entries[0].0, entries[0].1), entries[1..])
  }

  /** The grouping loop of `enumerate_remotes`. */
  method Group(entries: seq<(string, string)>) returns (d: Config)
    ensures d == GroupFrom([], entries)
  {
    d := [];
    var k := 0;
    while k < |entries|
      invariant k <= |entries|
      invariant GroupFrom([], entries) == GroupFrom(d, entries[k..])
    {
      assert entries[k..][1..] == entries[k + 1..];
      d := Append(d, entries[k].0, entries[k].1);
      k := k + 1;
    }
  }

  /** The values `entries` gives `key`, in order. */
  function ValuesOf(entries: seq<(string, string)>, key: string): seq<string>
  {
    if entries == [] then []
    else (if entries[0].0 == key then [entries[0].1] else []) + ValuesOf(entries[1..], key)
  }

  function Extend(prior: Option<seq<string>>, more: seq<string>): Option<seq<string>>
  {
    match prior
    case None => if more == [] then None else Some(more)
    case Some(vs) => Some(vs + more)
  }

  lemma GroupFromValues(d: Config, entries: seq<(string, string)>, key: string)
    requires Valid(d)
    ensures Valid(GroupFrom(d, entries))
    ensures Get(GroupFrom(d, entries), key) == Extend(Get(d, key), ValuesOf(entries, key))
  {
    GroupFromValid(d, entries);
    GroupFromGet(d, entries, key);
  }

  /** Grouping keeps the keys distinct. */
  lemma {:induction false} GroupFromValid(d: Config, entries: seq<(string, string)>)
    requires Valid(d)
    ensures Valid(GroupFrom(d, entries))
    decreases |entries|
  {
    if entries != [] {
      AppendValid(d, entries[0].0, entries[0].1);
      GroupFromValid(Append(d, entries[0].0, entries[0].1), entries[1..]);
    }
  }

  /** The values under `key` are extended by those the entries give it. */
  lemma {:induction false} GroupFromGet(d: Config, entries: seq<(string, string)>, key: string)
    requires Valid(d)
    ensures Get(GroupFrom(d, entries), key) == Extend(Get(d, key), ValuesOf(entries, key))
    decreases |entries|
  {
    if entries != [] {
      var (k, v) := entries[0];
      var d' := Append(d, k, v);
      var mine := if k == key then [v] else [];
      AppendGet(d, k, v, key);
      AppendValid(d, k, v);
      GroupFromGet(d', entries[1..], key);
      ValuesOfStep(entries, key);
      ExtendTwice(Get(d, key), mine, ValuesOf(entries[1..], key));
    } else {
      ExtendNothing(Get(d, key));
    }
  }

  lemma AppendValid(d: Config, k: string, v: string)
    requires Valid(d)
    ensures Valid(Append(d, k, v))
  {
  }

  lemma AppendGet(d: Config, k: string, v: string, key: string)
    requires Valid(d)
    ensures Get(Append(d, k, v), key) == Extend(Get(d, key), if k == key then [v] else [])
  {
    var vs := if Get(d, k).Some? then Get(d, k).value + [v] else [v];
    assert Append(d, k, v) == Put(d, k, vs);
    GetPut(d, k, vs, key);
    if k != key && Get(d, key).Some? {
      assert Get(d, key).value + [] == Get(d, key).value;
    }
  }

  lemma ValuesOfStep(entries: seq<(string, string)>, key: string)
    requires entries != []
    ensures ValuesOf(entries, key) == (if entries[0].0 == key then [entries[0].1] else []) + ValuesOf(entries[1..], key)
  {
  }

  lemma ExtendNothing(prior: Option<seq<string>>)
    ensures Extend(prior, []) == prior
  {
    if prior.Some? {
      assert prior.value + [] == prior.value;
    }
  }

  lemma ExtendTwice(prior: Option<seq<string>>, a: seq<string>, b: seq<string>)
    ensures Extend(Extend(prior, a), b) == Extend(prior, a + b)
  {
    if prior.Some? {
      assert prior.value + a + b == prior.value + (a + b);
    } else if a == [] {
      assert a + b == b;
    }
  }

  /** Every key of a remote's configuration lists all the values git printed
      for it, in order, and a key git never printed is absent. */
  lemma GroupValues(entries: seq<(string, string)>, key: string)
    ensures Valid(GroupFrom([], entries))
    ensures Get(GroupFrom([], entries), key) == if ValuesOf(entries, key) == [] then None else Some(ValuesOf(entries, key))
  {
    GroupFromValues([], entries, key);
  }

  /** `prefix.rstrip(".")`. */
  function RStripDots(s: string): (r: string)
    ensures r <= s && (r == [] || r[|r| - 1] != '.')
  {
    if s != [] && s[|s| - 1] == '.' then RStripDots(s[..|s| - 1]) else s
  }

  /** The key prefix `get_config_prefix` walks with: trailing dots dropped,
      then one dot. */
  function ConfigPrefix(prefix: string): (r: string)
    ensures |r| >= 1 && r[|r| - 1] == '.'
  {
    RStripDots(prefix) + "."
  }

  /** `enumerate_remotes`: one entry per line of `git remote` output, the
      stripped name with the grouped configuration that
      `configText(remote)` (the `--get-regex` output for that remote)
      holds. */
  function Remotes(names: seq<string>, configText: string -> string, prefixOf: string -> string)
    : (r: Result<seq<(string, Config)>>)
    ensures r.Ok? ==> |r.value| == |names|
  {
    if names == [] then Ok([])
    else
      var entries :- ConfigEntries(SplitLines(configText(names[0])), prefixOf(names[0]));
      var rest :- Remotes(names[1..], configText, prefixOf);
      Ok([(Strip(names[0]), GroupFrom([], entries))] + rest)
  }

  /** The prefix rgit walks a remote's keys with: `remote.<name>.`. */
  function RemotePrefix(name: string): string
  {
    ConfigPrefix("remote." + name)
  }

  lemma RemotesStep(names: seq<string>, configText: string -> string, prefixOf: string -> string)
    requires names != []
    requires ConfigEntries(SplitLines(configText(names[0])), prefixOf(names[0])).Ok?
    ensures Remotes(names, configText, prefixOf)
         == (var entries := ConfigEntries(SplitLines(configText(names[0])), prefixOf(names[0])).value;
             Prepend([(Strip(names[0]), GroupFrom([], entries))], Remotes(names[1..], configText, prefixOf)))
  {
  }

  method EnumerateRemotes(remoteOutput: string, configText: string -> string)
    returns (r: Result<seq<(string, Config)>>)
    ensures r == Remotes(SplitLines(remoteOutput), configText, RemotePrefix)
  {
    var names := SplitLines(remoteOutput);
    var result: seq<(string, Config)> := [];
    var k := 0;
    PrependNothing(Remotes(names, configText, RemotePrefix));
    while k < |names|
      invariant k <= |names|
      invariant Remotes(names, configText, RemotePrefix) == Prepend(result, Remotes(names[k..], configText, RemotePrefix))
    {
      var entries := WalkConfigRegexOutput(configText(names[k]), RemotePrefix(names[k]));
      if entries.Err? {
        return Err(entries.error);
      }
      var config := Group(entries.value);
      assert names[k..][1..] == names[k + 1..];
      RemotesStep(names[k..], configText, RemotePrefix);
      PrependOne(result, (Strip(names[k]), config), Remotes(names[k + 1..], configText, RemotePrefix));
      result := result + [(Strip(names[k]), config)];
      k := k + 1;
    }
    assert names[k..] == [];
    PrependAll(result);
    r := Ok(result);
  }

  /** `is_bare`: the stripped output must be `true` or `false`; anything else
      misses the lookup table. */
  function IsBare(stdout: string): (r: Result<bool>)
    ensures r.Ok? <==> Strip(stdout) == "true" || Strip(stdout) == "false"
    ensures r.Ok? ==> (r.value <==> Strip(stdout) == "true")
    ensures r.Err? ==> r.error == KeyError
  {
    var s := Strip(stdout);
    if s == "true" then Ok(true)
    else if s == "false" then Ok(false)
    else Err(KeyError)
  }

  /** What `git rev-parse --is-bare-repository` prints is read back. */
  lemma IsBareRoundTrip(bare: bool)
    ensures IsBare(if bare then "true\n" else "false\n") == Ok(bare)
  {
    if bare {
      assert "true" + "\n" == "true\n";
      StripLine("true");
    } else {
      assert "false" + "\n" == "false\n";
      StripLine("false");
    }
  }

  /** A word git prints on a line of its own strips back to the word. */
  lemma StripLine(word: string)
    requires word != [] && !IsSpace(word[0]) && !IsSpace(word[|word| - 1])
    ensures Strip(word + "\n") == word
  {
    var out := word + "\n";
    assert LStrip(out) == out;
    assert out[..|out| - 1] == word;
    assert RStrip(out) == RStrip(word);
    StripStripped(word);
  }
}
