/** `get_repo_commit_statistics` (rgit/cli/status.py): from a repository's
    remote configuration, its fetch refspecs, `git show-ref` and
    `git rev-list`, the number of local branches without a destination
    upstream ("Refs") and the number of commits not yet in their upstream
    ("Commits"). Each phase is a loop over git's output; each loop is
    proved against a fold that states the phase, and the phases' lemmas
    state what the source promises of them. */
module CommitStatistics {
  import opened Wrappers
  import opened PyStr
  import opened OrderedDict
  import opened GitConfig
  import opened Refspec
  import opened Paths
  import opened RepoStatus

  // ---------------------------------------------------------------------
  // Phase 1: the configuration keys to ignore

  /** The values of `rgit.ignore-remote-config`, each split at runs of
      white space, in order. */
  function SplitAll(values: seq<string>): seq<string>
  {
    if values == [] then [] else SplitWhitespace(values[0]) + SplitAll(values[1..])
  }

  /** What the ignore list collects from `git config --get-all --null`
      output (a missing key exits non-zero and prints nothing, which the
      source accepts). */
  function IgnoredKeys(text: string): Result<seq<string>>
  {
    var values :- GetConfig(text);
    Ok(SplitAll(values))
  }

  method GatherIgnoredKeys(text: string) returns (r: Result<seq<string>>)
    ensures r == IgnoredKeys(text)
  {
    var values := GetConfig(text);
    if values.Err? {
      return Err(values.error);
    }
    var ignored := SplitEach(values.value);
    r := Ok(ignored);
  }

  /** The loop over the configured values, splitting each at white space. */
  method SplitEach(vs: seq<string>) returns (ignored: seq<string>)
    ensures ignored == SplitAll(vs)
  {
    ignored := [];
    var k := 0;
    while k < |vs|
      invariant k <= |vs|
      invariant SplitAll(vs) == ignored + SplitAll(vs[k..])
    {
      SplitAllStep(vs, k);
      ghost var tail := SplitAll(vs[k + 1..]);
      assert ignored + (SplitWhitespace(vs[k]) + tail) == (ignored + SplitWhitespace(vs[k])) + tail;
      ignored := ignored + SplitWhitespace(vs[k]);
      k := k + 1;
    }
    assert vs[k..] == [];
    assert ignored + [] == ignored;
  }

  lemma SplitAllStep(vs: seq<string>, k: nat)
    requires k < |vs|
    ensures SplitAll(vs[k..]) == SplitWhitespace(vs[k]) + SplitAll(vs[k + 1..])
  {
    assert vs[k..][0] == vs[k] && vs[k..][1..] == vs[k + 1..];
  }

  /** Every value of the setting names the keys it lists. */
  lemma IgnoredKeysRoundTrip(keys: seq<string>)
    requires |keys| >= 1 && forall k :: 0 <= k < |keys| ==> '\0' !in keys[k] && FirstSpace(keys[k]) == |keys[k]|
    ensures IgnoredKeys(Join(keys, '\0') + ['\0']) == Ok(keys)
  {
    GetConfigRoundTrip(keys);
    SplitAllWords(keys);
  }

  lemma {:induction false} SplitAllWords(keys: seq<string>)
    requires forall k :: 0 <= k < |keys| ==> FirstSpace(keys[k]) == |keys[k]|
    ensures SplitAll(keys) == keys
  {
    if keys != [] {
      assert SplitWhitespace(keys[0]) == [keys[0]];
      assert forall k :: 0 <= k < |keys| - 1 ==> keys[1..][k] == keys[k + 1];
      SplitAllWords(keys[1..]);
    }
  }

  // ---------------------------------------------------------------------
  // Phase 2: sorting the remotes

  /** `d_remote_t`: a remote's URLs and fetch refspecs. */
  datatype Remote = Remote(url: seq<string>, fetch: seq<string>)

  /** `remote_config.pop(key, None)` for each key in turn. */
  function Discard(c: Config, keys: seq<string>): (r: Config)
    ensures Valid(c) ==> Valid(r)
    decreases |keys|
  {
    if keys == [] then c else Discard(Pop(c, keys[0]).0, keys[1..])
  }

  /** After the pops, a listed key is gone and every other key keeps its
      values. */
  lemma {:induction false} DiscardGet(c: Config, keys: seq<string>, key: string)
    requires Valid(c)
    ensures Get(Discard(c, keys), key) == if key in keys then None else Get(c, key)
    decreases |keys|
  {
    if keys != [] {
      GetPop(c, keys[0], key);
      DiscardGet(Pop(c, keys[0]).0, keys[1..], key);
    }
  }

  lemma {:induction false} DiscardAppend(c: Config, a: seq<string>, b: seq<string>)
    ensures Discard(c, a + b) == Discard(Discard(c, a), b)
    decreases |a|
  {
    if a != [] {
      assert (a + b)[0] == a[0] && (a + b)[1..] == a[1..] + b;
      var c' := Pop(c, a[0]).0;
      assert Discard(c, a + b) == Discard(c', a[1..] + b);
      assert Discard(c, a) == Discard(c', a[1..]);
      DiscardAppend(c', a[1..], b);
    } else {
      assert a + b == b;
    }
  }

  /** The keys rgit knows how to disregard, after `url` and `fetch`. */
  const KnownKeys: seq<string> := ["push", "receivepack", "uploadpack", "skipfetchall"]

  /** Every key popped after `fetch`, in the order the source pops them. */
  function DroppedKeys(ignored: seq<string>): seq<string>
  {
    KnownKeys + ignored + ["rgit-ignore-refs"]
  }

  /** Where one remote goes: skipped (no `fetch`), or kept as a destination
      or other remote, with whatever configuration is left over. */
  datatype Placement = Skipped | Placed(toDest: bool, remote: Remote, leftover: Config)

  /** The last URL of a remote: `remote.url[-1]`. */
  function LastUrl(urls: seq<string>): Result<string>
  {
    if urls == [] then Err(IndexError) else Ok(urls[|urls| - 1])
  }

  /** One remote in the remote loop: `url` is required, a remote without
      `fetch` is skipped, and its last URL decides whether it is a
      destination remote. */
  function Place(c: Config, ignored: seq<string>, destinations: seq<string>, urlsplit: string -> UrlParts)
    : (r: Result<Placement>)
    ensures Get(c, "url").None? ==> r == Err(KeyError)
    ensures Get(c, "url").Some? && Get(c, "fetch").None? ==> r == Ok(Skipped)
  {
    var (c1, url) := Pop(c, "url");
    if url.None? then Err(KeyError)
    else
      var (c2, fetch) := Pop(c1, "fetch");
      if fetch.None? then Ok(Skipped)
      else
        var leftover := Discard(c2, DroppedKeys(ignored));
        var last :- LastUrl(url.value);
        var toDest := FirstRemotePrefix(destinations, last, urlsplit).Some?;
        Ok(Placed(toDest, Remote(url.value, fetch.value), leftover))
  }

  /** A kept remote carries its `url` and `fetch` values, goes to the
      destinations exactly when its last URL starts with a configured
      destination prefix, and leaves over exactly the keys that are none
      of `url`, `fetch`, the known keys, the ignored keys and
      `rgit-ignore-refs`. */
  lemma PlaceKept(c: Config, ignored: seq<string>, destinations: seq<string>, urlsplit: string -> UrlParts, key: string)
    requires Valid(c)
    requires Place(c, ignored, destinations, urlsplit).Ok? && Place(c, ignored, destinations, urlsplit).value.Placed?
    ensures var p := Place(c, ignored, destinations, urlsplit).value;
            Get(c, "url") == Some(p.remote.url) && Get(c, "fetch") == Some(p.remote.fetch)
            && p.remote.url != []
            && (p.toDest <==> exists i :: 0 <= i < |destinations|
                                && UrlIn(urlsplit, p.remote.url[|p.remote.url| - 1], destinations[i]))
            && Get(p.leftover, key)
               == if key == "url" || key == "fetch" || key in DroppedKeys(ignored) then None else Get(c, key)
  {
    var c1 := Pop(c, "url").0;
    PlaceShape(c, ignored, destinations, urlsplit);
    GetPop(c, "url", "fetch");
    GetPop(c, "url", key);
    GetPop(c1, "fetch", key);
    DiscardGet(Pop(c1, "fetch").0, DroppedKeys(ignored), key);
  }

  /** The components of a kept remote, in terms of the pops. */
  lemma PlaceShape(c: Config, ignored: seq<string>, destinations: seq<string>, urlsplit: string -> UrlParts)
    requires Place(c, ignored, destinations, urlsplit).Ok? && Place(c, ignored, destinations, urlsplit).value.Placed?
    ensures var p := Place(c, ignored, destinations, urlsplit).value;
            var (c1, url) := Pop(c, "url");
            var (c2, fetch) := Pop(c1, "fetch");
            url == Some(p.remote.url) && fetch == Some(p.remote.fetch) && p.remote.url != []
            && p.toDest == FirstRemotePrefix(destinations, p.remote.url[|p.remote.url| - 1], urlsplit).Some?
            && p.leftover == Discard(c2, DroppedKeys(ignored))
  {
  }

  /** The remotes the loop keeps, and the leftover configuration of those
      with unsupported keys. */
  datatype RemoteSets = RemoteSets(dest: Dict<string, Remote>, other: Dict<string, Remote>, unsupported: Dict<string, Config>)

  predicate ValidSets(s: RemoteSets) {
    Valid(s.dest) && Valid(s.other) && Valid(s.unsupported)
  }

  /** Recording one placed remote under `name`. */
  function Record(acc: RemoteSets, name: string, p: Placement): (r: RemoteSets)
    ensures ValidSets(acc) ==> ValidSets(r)
  {
    if p.Skipped? then acc
    else
      var acc1 := if p.leftover != [] then acc.(unsupported := Put(acc.unsupported, name, p.leftover)) else acc;
      if p.toDest then acc1.(dest := Put(acc1.dest, name, p.remote))
      else acc1.(other := Put(acc1.other, name, p.remote))
  }

  /** The remote loop, as a fold over the enumerated remotes. */
  function SortRemotes(acc: RemoteSets, remotes: seq<(string, Config)>, ignored: seq<string>,
                       destinations: seq<string>, urlsplit: string -> UrlParts): Result<RemoteSets>
    decreases |remotes|
  {
    if remotes == [] then Ok(acc)
    else
      var p :- Place(remotes[0].1, ignored, destinations, urlsplit);
      SortRemotes(Record(acc, remotes[0].0, p), remotes[1..], ignored, destinations, urlsplit)
  }

  const NoRemotes: RemoteSets := RemoteSets([], [], [])

  /** `config.pop(key, None)` for each of `keys`, in order. */
  method PopAll(c0: Config, keys: seq<string>) returns (c: Config)
    ensures c == Discard(c0, keys)
  {
    c := c0;
    var j := 0;
    while j < |keys|
      invariant j <= |keys|
      invariant Discard(c0, keys) == Discard(c, keys[j..])
    {
      assert keys[j..][0] == keys[j] && keys[j..][1..] == keys[j + 1..];
      c := Pop(c, keys[j]).0;
      j := j + 1;
    }
    assert keys[j..] == [];
  }

  /** The body of the remote loop for one configuration: the pops in the
      order the source does them, then the destination test. */
  method PlaceRemote(c0: Config, ignored: seq<string>, destinations: seq<string>, urlsplit: string -> UrlParts)
    returns (r: Result<Placement>)
    ensures r == Place(c0, ignored, destinations, urlsplit)
  {
    var c, url := Pop(c0, "url").0, Pop(c0, "url").1;
    if url.None? {
      return Err(KeyError);
    }
    var fetch;
    c, fetch := Pop(c, "fetch").0, Pop(c, "fetch").1;
    if fetch.None? {
      return Ok(Skipped);
    }
    var c2 := c;
    c := PopAll(c, KnownKeys);
    c := PopAll(c, ignored);
    c := Pop(c, "rgit-ignore-refs").0;
    DiscardDropped(c2, ignored);
    if url.value == [] {
      return Err(IndexError);
    }
    var matching := MatchingRemote(destinations, url.value[|url.value| - 1], urlsplit);
    r := Ok(Placed(matching.Some?, Remote(url.value, fetch.value), c));
  }

  /** The pops after `fetch` are the known keys, the ignored keys, then
      `rgit-ignore-refs`. */
  lemma DiscardDropped(c: Config, ignored: seq<string>)
    ensures Discard(c, DroppedKeys(ignored))
         == Pop(Discard(Discard(c, KnownKeys), ignored), "rgit-ignore-refs").0
  {
    DiscardAppend(c, KnownKeys, ignored);
    DiscardAppend(c, KnownKeys + ignored, ["rgit-ignore-refs"]);
  }

  /** The remote loop: a remote without `url` stops it, one without `fetch`
      is passed over, and every other one is recorded. */
  method SortRemotesLoop(remotes: seq<(string, Config)>, ignored: seq<string>,
                         destinations: seq<string>, urlsplit: string -> UrlParts) returns (r: Result<RemoteSets>)
    ensures r == SortRemotes(NoRemotes, remotes, ignored, destinations, urlsplit)
  {
    var sets := NoRemotes;
    var k := 0;
    while k < |remotes|
      invariant k <= |remotes|
      invariant SortRemotes(NoRemotes, remotes, ignored, destinations, urlsplit)
             == SortRemotes(sets, remotes[k..], ignored, destinations, urlsplit)
    {
      ghost var rest := remotes[k..];
      assert rest[0] == remotes[k] && rest[1..] == remotes[k + 1..];
      SortRemotesHead(sets, rest, ignored, destinations, urlsplit);
      var (name, c) := remotes[k];
      var p := PlaceRemote(c, ignored, destinations, urlsplit);
      if p.Err? {
        return Err(p.error);
      }
      if p.value.Placed? {
        sets := Record(sets, name, p.value);
      }
      k := k + 1;
    }
    assert remotes[k..] == [];
    r := Ok(sets);
  }

  /** The first remote decides whether the fold stops, and otherwise what
      the rest of it starts from. */
  lemma SortRemotesHead(acc: RemoteSets, remotes: seq<(string, Config)>, ignored: seq<string>,
                        destinations: seq<string>, urlsplit: string -> UrlParts)
    requires remotes != []
    ensures var p := Place(remotes[0].1, ignored, destinations, urlsplit);
            SortRemotes(acc, remotes, ignored, destinations, urlsplit)
            == if p.Err? then Err(p.error)
               else SortRemotes(Record(acc, remotes[0].0, p.value), remotes[1..], ignored, destinations, urlsplit)
  {
  }

  /** The names of the enumerated remotes. */
  predicate DistinctNames(remotes: seq<(string, Config)>) {
    forall i, j :: 0 <= i < j < |remotes| ==> remotes[i].0 != remotes[j].0
  }

  /** A name the rest of the loop does not see keeps its entries. */
  lemma {:induction false} SortRemotesElsewhere(acc: RemoteSets, remotes: seq<(string, Config)>, ignored: seq<string>,
                                                destinations: seq<string>, urlsplit: string -> UrlParts, name: string)
    requires ValidSets(acc)
    requires forall i :: 0 <= i < |remotes| ==> remotes[i].0 != name
    ensures var r := SortRemotes(acc, remotes, ignored, destinations, urlsplit);
            r.Ok? ==> ValidSets(r.value)
                      && Get(r.value.dest, name) == Get(acc.dest, name)
                      && Get(r.value.other, name) == Get(acc.other, name)
                      && Get(r.value.unsupported, name) == Get(acc.unsupported, name)
    decreases |remotes|
  {
    if remotes != [] && SortRemotes(acc, remotes, ignored, destinations, urlsplit).Ok? {
      var p := Place(remotes[0].1, ignored, destinations, urlsplit).value;
      RecordGet(acc, remotes[0].0, p, name);
      assert forall i :: 0 <= i < |remotes| - 1 ==> remotes[1..][i] == remotes[i + 1];
      SortRemotesElsewhere(Record(acc, remotes[0].0, p), remotes[1..], ignored, destinations, urlsplit, name);
    }
  }

  /** What `Record` does to each of the three dictionaries. */
  lemma RecordGet(acc: RemoteSets, name: string, p: Placement, key: string)
    requires ValidSets(acc)
    ensures var r := Record(acc, name, p);
            Get(r.dest, key) == (if key == name && p.Placed? && p.toDest then Some(p.remote) else Get(acc.dest, key))
            && Get(r.other, key) == (if key == name && p.Placed? && !p.toDest then Some(p.remote) else Get(acc.other, key))
            && Get(r.unsupported, key)
               == (if key == name && p.Placed? && p.leftover != [] then Some(p.leftover) else Get(acc.unsupported, key))
  {
    if p.Placed? {
      GetPut(acc.unsupported, name, p.leftover, key);
      GetPut(acc.dest, name, p.remote, key);
      GetPut(acc.other, name, p.remote, key);
    }
  }

  /** Unfolding the remote loop by one remote. */
  lemma SortRemotesStep(acc: RemoteSets, remotes: seq<(string, Config)>, ignored: seq<string>,
                        destinations: seq<string>, urlsplit: string -> UrlParts)
    requires remotes != [] && SortRemotes(acc, remotes, ignored, destinations, urlsplit).Ok?
    ensures Place(remotes[0].1, ignored, destinations, urlsplit).Ok?
    ensures SortRemotes(acc, remotes, ignored, destinations, urlsplit)
         == SortRemotes(Record(acc, remotes[0].0, Place(remotes[0].1, ignored, destinations, urlsplit).value),
                        remotes[1..], ignored, destinations, urlsplit)
  {
  }

  /** Where each remote ends up: a remote without `fetch` nowhere; a kept
      remote in exactly one of the destination and other remotes, by its
      last URL; and among the unsupported ones, with its leftover keys,
      exactly when keys are left over. */
  lemma {:induction false} SortRemotesPlaces(acc: RemoteSets, remotes: seq<(string, Config)>, ignored: seq<string>,
                                             destinations: seq<string>, urlsplit: string -> UrlParts, i: nat)
    requires ValidSets(acc) && DistinctNames(remotes) && i < |remotes|
    requires SortRemotes(acc, remotes, ignored, destinations, urlsplit).Ok?
    ensures Place(remotes[i].1, ignored, destinations, urlsplit).Ok?
    ensures var r := SortRemotes(acc, remotes, ignored, destinations, urlsplit).value;
            var p := Place(remotes[i].1, ignored, destinations, urlsplit).value;
            var name := remotes[i].0;
            Get(r.dest, name) == (if p.Placed? && p.toDest then Some(p.remote) else Get(acc.dest, name))
            && Get(r.other, name) == (if p.Placed? && !p.toDest then Some(p.remote) else Get(acc.other, name))
            && Get(r.unsupported, name)
               == (if p.Placed? && p.leftover != [] then Some(p.leftover) else Get(acc.unsupported, name))
    decreases |remotes|
  {
    SortRemotesStep(acc, remotes, ignored, destinations, urlsplit);
    var p0 := Place(remotes[0].1, ignored, destinations, urlsplit).value;
    var acc' := Record(acc, remotes[0].0, p0);
    if i == 0 {
      SortRemotesFirst(acc, remotes, ignored, destinations, urlsplit);
    } else {
      assert remotes[1..][i - 1] == remotes[i];
      assert DistinctNames(remotes[1..]) by {
        assert forall j :: 0 <= j < |remotes| - 1 ==> remotes[1..][j] == remotes[j + 1];
      }
      RecordGet(acc, remotes[0].0, p0, remotes[i].0);
      SortRemotesPlaces(acc', remotes[1..], ignored, destinations, urlsplit, i - 1);
    }
  }

  /** The first remote of the loop: recorded, and untouched by the rest. */
  lemma SortRemotesFirst(acc: RemoteSets, remotes: seq<(string, Config)>, ignored: seq<string>,
                         destinations: seq<string>, urlsplit: string -> UrlParts)
    requires ValidSets(acc) && DistinctNames(remotes) && remotes != []
    requires SortRemotes(acc, remotes, ignored, destinations, urlsplit).Ok?
    ensures Place(remotes[0].1, ignored, destinations, urlsplit).Ok?
    ensures var r := SortRemotes(acc, remotes, ignored, destinations, urlsplit).value;
            var p := Place(remotes[0].1, ignored, destinations, urlsplit).value;
            var name := remotes[0].0;
            Get(r.dest, name) == (if p.Placed? && p.toDest then Some(p.remote) else Get(acc.dest, name))
            && Get(r.other, name) == (if p.Placed? && !p.toDest then Some(p.remote) else Get(acc.other, name))
            && Get(r.unsupported, name)
               == (if p.Placed? && p.leftover != [] then Some(p.leftover) else Get(acc.unsupported, name))
  {
    SortRemotesStep(acc, remotes, ignored, destinations, urlsplit);
    var p0 := Place(remotes[0].1, ignored, destinations, urlsplit).value;
    var acc' := Record(acc, remotes[0].0, p0);
    RecordGet(acc, remotes[0].0, p0, remotes[0].0);
    assert forall j :: 0 <= j < |remotes| - 1 ==> remotes[1..][j] == remotes[j + 1];
    SortRemotesElsewhere(acc', remotes[1..], ignored, destinations, urlsplit, remotes[0].0);
  }

  // ---------------------------------------------------------------------
  // Phase 3: the refspec table

  /** One fetch refspec: a leading `+` (forced update) is dropped, a
      negative refspec (`^`) is skipped (`None`), and what remains must be
      `source:destination`. Indexing an empty refspec is an `IndexError`. */
  function ParseRefspec(refspec: string): (r: Result<Option<(string, string)>>)
    ensures refspec == [] || refspec == "+" ==> r == Err(IndexError)
  {
    if refspec == [] then Err(IndexError)
    else
      var body := if refspec[0] == '+' then refspec[1..] else refspec;
      if body == [] then Err(IndexError)
      else if body[0] == '^' then Ok(None)
      else
        var (src, sep, dst) := Partition(body, ':');
        if !sep then Err(AssertionError) else Ok(Some((src, dst)))
  }

  /** A parsed refspec is the text it came from: an optional `+`, the
      source side (without a colon), a colon and the destination side. */
  lemma ParseRefspecShape(refspec: string)
    requires ParseRefspec(refspec).Ok? && ParseRefspec(refspec).value.Some?
    ensures var (src, dst) := ParseRefspec(refspec).value.value;
            ':' !in src && (refspec == src + ":" + dst || refspec == "+" + src + ":" + dst)
  {
    var body := if refspec[0] == '+' then refspec[1..] else refspec;
    if refspec[0] == '+' {
      assert refspec == "+" + body;
    }
    var p := Partition(body, ':');
    assert ParseRefspec(refspec).value.value == (p.0, p.2);
    PartitionSplits(body, ':');
    RefspecSides(refspec, body, p.0, p.2);
  }

  lemma RefspecSides(refspec: string, body: string, src: string, dst: string)
    requires body == src + [':'] + dst && (refspec == body || refspec == "+" + body)
    ensures refspec == src + ":" + dst || refspec == "+" + src + ":" + dst
  {
    assert "+" + (src + ":" + dst) == "+" + src + ":" + dst;
  }

  /** Writing a refspec and parsing it gives its two sides back, forced or
      not, unless its source side begins with one of the two markers. */
  lemma ParseRefspecRoundTrip(force: bool, src: string, dst: string)
    requires ':' !in src && (src == [] || (src[0] != '+' && src[0] != '^'))
    ensures ParseRefspec((if force then "+" else "") + src + ":" + dst) == Ok(Some((src, dst)))
  {
    RefspecText(force, src, dst);
    ParsePlain(src, dst);
    if force {
      ParseForced(src + ":" + dst);
    }
  }

  /** The written refspec is the plain one, with a `+` in front when forced. */
  lemma RefspecText(force: bool, src: string, dst: string)
    requires src == [] || src[0] != '+'
    ensures (src + ":" + dst)[0] != '+'
    ensures (if force then "+" else "") + src + ":" + dst
         == if force then "+" + (src + ":" + dst) else src + ":" + dst
  {
    if force {
      assert "+" + src + ":" + dst == "+" + (src + ":" + dst);
    } else {
      assert "" + src + ":" + dst == src + ":" + dst;
    }
  }

  lemma ParsePlain(src: string, dst: string)
    requires ':' !in src && (src == [] || (src[0] != '+' && src[0] != '^'))
    ensures ParseRefspec(src + ":" + dst) == Ok(Some((src, dst)))
  {
    var body := src + ":" + dst;
    assert body[0] != '+' && body[0] != '^';
    PartitionAt(src, ':', dst);
    assert src + [':'] + dst == body;
  }

  /** A leading `+` only marks the update as forced. */
  lemma ParseForced(body: string)
    requires body != [] && body[0] != '+'
    ensures ParseRefspec("+" + body) == ParseRefspec(body)
  {
    var refspec := "+" + body;
    assert refspec[0] == '+' && refspec[1..] == body;
  }

  /** A negative refspec is skipped, forced or not. */
  lemma NegativeRefspecSkipped(force: bool, rest: string)
    ensures ParseRefspec((if force then "+" else "") + "^" + rest) == Ok(None)
  {
    var refspec := (if force then "+" else "") + "^" + rest;
    if force {
      assert refspec[1..] == "^" + rest;
    }
  }

  /** One table entry: destination side, then source side and remote name. */
  type TableEntry = (string, (string, string))

  /** The table: destination side to (source side, remote name). */
  type RefspecTable = Dict<string, (string, string)>

  /** The entries one remote's fetch refspecs give, in order. */
  function RemoteEntries(name: string, fetch: seq<string>): Result<seq<TableEntry>>
    decreases |fetch|
  {
    if fetch == [] then Ok([])
    else
      var p :- ParseRefspec(fetch[0]);
      var rest :- RemoteEntries(name, fetch[1..]);
      Ok((if p.Some? then [(p.value.1, (p.value.0, name))] else []) + rest)
  }

  /** First the items of `first`, then those of `rest`; the first failure wins. */
  function Chain<T>(first: Result<seq<T>>, rest: Result<seq<T>>): Result<seq<T>>
  {
    if first.Err? then Err(first.error) else Prepend(first.value, rest)
  }

  /** The entries of all the remotes, remote by remote. */
  function TableEntries(remotes: Dict<string, Remote>): Result<seq<TableEntry>>
    decreases |remotes|
  {
    if remotes == [] then Ok([])
    else Chain(RemoteEntries(remotes[0].0, remotes[0].1.fetch), TableEntries(remotes[1..]))
  }

  /** `remote_refspecs`: the entries of the destination remotes, then those
      of the other remotes, assigned one after the other. */
  function RefspecTableOf(dest: Dict<string, Remote>, other: Dict<string, Remote>): Result<RefspecTable>
  {
    var entries :- TableEntries(dest + other);
    Ok(PutAll([], entries))
  }

  lemma PutAllAppend<K, V>(d: Dict<K, V>, a: seq<(K, V)>, b: seq<(K, V)>)
    ensures PutAll(d, a + b) == PutAll(PutAll(d, a), b)
    decreases |a|
  {
    if a == [] {
      assert a + b == b;
    } else {
      assert (a + b)[0] == a[0] && (a + b)[1..] == a[1..] + b;
      PutAllAppend(Put(d, a[0].0, a[0].1), a[1..], b);
    }
  }

  /** The entries of one parsed refspec. */
  function EntriesOf(name: string, p: Option<(string, string)>): seq<TableEntry>
  {
    if p.Some? then [(p.value.1, (p.value.0, name))] else []
  }

  /** One refspec of the inner loop. */
  lemma RemoteEntriesStep(name: string, fetch: seq<string>)
    requires fetch != []
    ensures ParseRefspec(fetch[0]).Err? ==> RemoteEntries(name, fetch) == Err(ParseRefspec(fetch[0]).error)
    ensures ParseRefspec(fetch[0]).Ok? ==>
              RemoteEntries(name, fetch) == Prepend(EntriesOf(name, ParseRefspec(fetch[0]).value), RemoteEntries(name, fetch[1..]))
  {
  }

  /** The inner loop of `remote_refspecs`: the refspecs of one remote,
      assigned one after the other into `table0`. */
  method AddRemoteRefspecs(table0: RefspecTable, name: string, fetch: seq<string>) returns (r: Result<RefspecTable>)
    ensures RemoteEntries(name, fetch).Err? ==> r == Err(RemoteEntries(name, fetch).error)
    ensures RemoteEntries(name, fetch).Ok? ==> r == Ok(PutAll(table0, RemoteEntries(name, fetch).value))
  {
    var table := table0;
    ghost var done: seq<TableEntry> := [];
    PrependNothing(RemoteEntries(name, fetch));
    var j := 0;
    while j < |fetch|
      invariant j <= |fetch|
      invariant table == PutAll(table0, done)
      invariant RemoteEntries(name, fetch) == Prepend(done, RemoteEntries(name, fetch[j..]))
    {
      ghost var rest := fetch[j..];
      assert rest[0] == fetch[j] && rest[1..] == fetch[j + 1..];
      RemoteEntriesStep(name, rest);
      var p := ParseRefspec(fetch[j]);
      if p.Err? {
        return Err(p.error);
      }
      ghost var x := EntriesOf(name, p.value);
      PrependConcat(done, x, RemoteEntries(name, fetch[j + 1..]));
      PutAllAppend(table0, done, x);
      if p.value.Some? {
        var (src, dst) := p.value.value;
        table := Put(table, dst, (src, name));
      } else {
        assert done + x == done;
      }
      done := done + x;
      j := j + 1;
    }
    assert fetch[j..] == [];
    PrependAll(done);
    r := Ok(table);
  }

  /** After `done`, one remote's entries either stop the table or join it. */
  lemma ChainStep<T>(done: seq<T>, first: Result<seq<T>>, rest: Result<seq<T>>)
    ensures first.Err? ==> Prepend(done, Chain(first, rest)) == Err(first.error)
    ensures first.Ok? ==> Prepend(done, Chain(first, rest)) == Prepend(done + first.value, rest)
  {
    if first.Ok? {
      PrependConcat(done, first.value, rest);
    }
  }

  lemma TableEntriesStep(remotes: Dict<string, Remote>)
    requires remotes != []
    ensures TableEntries(remotes) == Chain(RemoteEntries(remotes[0].0, remotes[0].1.fetch), TableEntries(remotes[1..]))
  {
  }

  /** The two nested loops that fill `remote_refspecs`, over the
      destination remotes and then the other remotes. */
  method BuildRefspecTable(dest: Dict<string, Remote>, other: Dict<string, Remote>) returns (r: Result<RefspecTable>)
    ensures r == RefspecTableOf(dest, other)
  {
    r := AddAllRefspecs(dest + other);
  }

  /** The outer loop, over one list of remotes. */
  method AddAllRefspecs(remotes: Dict<string, Remote>) returns (r: Result<RefspecTable>)
    ensures TableEntries(remotes).Err? ==> r == Err(TableEntries(remotes).error)
    ensures TableEntries(remotes).Ok? ==> r == Ok(PutAll([], TableEntries(remotes).value))
  {
    var table: RefspecTable := [];
    ghost var done: seq<TableEntry> := [];
    PrependNothing(TableEntries(remotes));
    var i := 0;
    while i < |remotes|
      invariant i <= |remotes|
      invariant table == PutAll([], done)
      invariant TableEntries(remotes) == Prepend(done, TableEntries(remotes[i..]))
    {
      var (name, remote) := remotes[i];
      ghost var rest := remotes[i..];
      assert rest[0] == remotes[i] && rest[1..] == remotes[i + 1..];
      ghost var tail := TableEntries(remotes[i + 1..]);
      TableEntriesStep(rest);
      ChainStep(done, RemoteEntries(name, remote.fetch), tail);
      var added := AddRemoteRefspecs(table, name, remote.fetch);
      if added.Err? {
        return Err(added.error);
      }
      ghost var es := RemoteEntries(name, remote.fetch).value;
      PutAllAppend([], done, es);
      table := added.value;
      done := done + es;
      i := i + 1;
    }
    assert remotes[i..] == [];
    PrependAll(done);
    r := Ok(table);
  }

  /** The destination remotes' entries come before the other remotes'. */
  lemma {:induction false} TableEntriesAppend(dest: Dict<string, Remote>, other: Dict<string, Remote>)
    ensures TableEntries(dest + other) == Chain(TableEntries(dest), TableEntries(other))
    decreases |dest|
  {
    if dest == [] {
      assert dest + other == other;
      PrependNothing(TableEntries(other));
    } else {
      assert (dest + other)[0] == dest[0] && (dest + other)[1..] == dest[1..] + other;
      TableEntriesAppend(dest[1..], other);
      var e := RemoteEntries(dest[0].0, dest[0].1.fetch);
      var rest := TableEntries(dest[1..]);
      if e.Ok? && rest.Ok? {
        PrependConcat(e.value, rest.value, TableEntries(other));
      }
    }
  }

  /** Last write wins: a destination side maps to the source side and remote
      of the last refspec, in table order, that names it, and a later entry
      keeps the position of the first. */
  lemma TableLastWins(dest: Dict<string, Remote>, other: Dict<string, Remote>, dst: string)
    requires RefspecTableOf(dest, other).Ok?
    ensures Valid(RefspecTableOf(dest, other).value)
    ensures Get(RefspecTableOf(dest, other).value, dst) == LastValue(TableEntries(dest + other).value, dst)
  {
    GetPutAll([], TableEntries(dest + other).value, dst);
  }

  // ---------------------------------------------------------------------
  // Phase 4: classifying the lines of `git show-ref`

  /** `ref_str.split(" ", maxsplit=1)` unpacked into object id and name:
      without a space there is only one piece to unpack. */
  function SplitRefLine(line: string): (r: Result<(string, string)>)
    ensures r.Ok? <==> ' ' in line
    ensures r.Err? ==> r.error.ValueError?
  {
    var (oid, found, name) := Partition(line, ' ');
    if found then Ok((oid, name)) else Err(ValueError("not enough values to unpack"))
  }

  /** What `git show-ref` prints for an object id without spaces is read
      back as that id and name, spaces in the name included. */
  lemma SplitRefLineRoundTrip(oid: string, name: string)
    requires ' ' !in oid
    ensures SplitRefLine(oid + " " + name) == Ok((oid, name))
  {
    PartitionAt(oid, ' ', name);
    assert oid + [' '] + name == oid + " " + name;
  }

  /** The `for ... else` search of the table: the first entry, in table
      order, whose destination side matches `ref`, with the remote and the
      name `ref` has there. A matcher failure propagates. */
  function FirstMatch(table: RefspecTable, ref: string): (r: Result<Option<(string, string)>>)
    ensures r.Ok? && r.value.None? ==>
              forall i :: 0 <= i < |table| ==> MatchRefspecStrict(ref, table[i].0, table[i].1.0) == Ok(None)
    ensures r.Ok? && r.value.Some? ==>
              exists i :: 0 <= i < |table| && table[i].1.1 == r.value.value.0
                          && MatchRefspecStrict(ref, table[i].0, table[i].1.0) == Ok(Some(r.value.value.1))
                          && forall j :: 0 <= j < i ==> MatchRefspecStrict(ref, table[j].0, table[j].1.0) == Ok(None)
    decreases |table|
  {
    if table == [] then Ok(None)
    else
      var m :- MatchRefspecStrict(ref, table[0].0, table[0].1.0);
      if m.Some? then Ok(Some((table[0].1.1, m.value)))
      else
        var r := FirstMatch(table[1..], ref);
        assert forall i :: 1 <= i < |table| ==> table[i] == table[1..][i - 1];
        r
  }

  /** The matcher's answer for the table's `i`th entry. */
  function MatchAt(table: RefspecTable, ref: string, i: nat): Result<Option<string>>
    requires i < |table|
  {
    MatchRefspecStrict(ref, table[i].0, table[i].1.0)
  }

  /** The search fails exactly when, before any entry maps `ref`, one
      entry's matcher fails, and then with that entry's error. */
  lemma {:induction false} FirstMatchErr(table: RefspecTable, ref: string)
    ensures FirstMatch(table, ref).Err? <==>
              exists i :: 0 <= i < |table| && MatchAt(table, ref, i).Err?
                          && forall j :: 0 <= j < i ==> MatchAt(table, ref, j) == Ok(None)
    ensures FirstMatch(table, ref).Err? ==>
              exists i :: 0 <= i < |table| && MatchAt(table, ref, i) == Err(FirstMatch(table, ref).error)
                          && forall j :: 0 <= j < i ==> MatchAt(table, ref, j) == Ok(None)
    decreases |table|
  {
    if table != [] {
      var m := MatchAt(table, ref, 0);
      if m.Err? {
        assert MatchAt(table, ref, 0) == Err(FirstMatch(table, ref).error);
      } else if m.value.Some? {
        forall i | 0 <= i < |table| && MatchAt(table, ref, i).Err?
          ensures !(forall j :: 0 <= j < i ==> MatchAt(table, ref, j) == Ok(None))
        {
          assert i > 0 && MatchAt(table, ref, 0) != Ok(None);
        }
      } else {
        var tail := table[1..];
        FirstMatchErr(tail, ref);
        assert FirstMatch(table, ref) == FirstMatch(tail, ref);
        assert forall i :: 0 <= i < |tail| ==> MatchAt(tail, ref, i) == MatchAt(table, ref, i + 1);
        if FirstMatch(tail, ref).Err? {
          var i :| 0 <= i < |tail| && MatchAt(tail, ref, i) == Err(FirstMatch(tail, ref).error)
                   && forall j :: 0 <= j < i ==> MatchAt(tail, ref, j) == Ok(None);
          assert forall j :: 0 <= j < i + 1 ==> MatchAt(table, ref, j) == Ok(None) by {
            forall j | 0 <= j < i + 1
              ensures MatchAt(table, ref, j) == Ok(None)
            {
              if j > 0 {
                assert MatchAt(tail, ref, j - 1) == Ok(None);
              }
            }
          }
          assert MatchAt(table, ref, i + 1) == Err(FirstMatch(table, ref).error);
        } else {
          forall i | 0 <= i < |table| && MatchAt(table, ref, i).Err?
            ensures !(forall j :: 0 <= j < i ==> MatchAt(table, ref, j) == Ok(None))
          {
            assert i > 0 && MatchAt(tail, ref, i - 1).Err?;
            var j :| 0 <= j < i - 1 && MatchAt(tail, ref, j) != Ok(None);
            assert MatchAt(table, ref, j + 1) != Ok(None);
          }
        }
      }
    }
  }

  /** The inner loop over `remote_refspecs.items()`, leaving at the first
      match. */
  method FindRemoteRef(table: RefspecTable, ref: string) returns (r: Result<Option<(string, string)>>)
    ensures r == FirstMatch(table, ref)
  {
    var k := 0;
    while k < |table|
      invariant k <= |table|
      invariant FirstMatch(table, ref) == FirstMatch(table[k..], ref)
    {
      assert table[k..][0] == table[k] && table[k..][1..] == table[k + 1..];
      var (dst, (src, remote)) := table[k];
      var m := MatchRefspecStrict(ref, dst, src);
      if m.Err? {
        return Err(m.error);
      }
      if m.value.Some? {
        return Ok(Some((remote, m.value.value)));
      }
      k := k + 1;
    }
    assert table[k..] == [];
    r := Ok(None);
  }

  /** The branch configuration keys the source accepts. */
  predicate BranchKey(key: string) {
    key == "remote" || key == "merge" || key == "push" || key == "pushremote"
  }

  /** One key of a branch's configuration: `remote` and `merge` replace
      what was read before, `push` and `pushremote` are disregarded, and
      any other key is an error. */
  function UpstreamStep(key: string, value: string, remote: Option<string>, merge: Option<string>)
    : (r: Result<(Option<string>, Option<string>)>)
    ensures r.Ok? <==> BranchKey(key)
    ensures r.Ok? ==> r.value.0 == (if key == "remote" then Some(value) else remote)
                      && r.value.1 == (if key == "merge" then Some(value) else merge)
  {
    if key == "remote" then Ok((Some(value), merge))
    else if key == "merge" then Ok((remote, Some(value)))
    else if key == "push" || key == "pushremote" then Ok((remote, merge))
    else Err(ValueError("unrecognized branch config"))
  }

  /** The key loop over parsed entries: each entry's key in turn. */
  function BranchUpstream(entries: seq<(string, string)>, remote: Option<string>, merge: Option<string>)
    : Result<(Option<string>, Option<string>)>
    decreases |entries|
  {
    if entries == [] then Ok((remote, merge))
    else
      var next :- UpstreamStep(entries[0].0, entries[0].1, remote, merge);
      BranchUpstream(entries[1..], next.0, next.1)
  }

  /** The `async for` over `get_config_branch`: the generator parses one
      line of the configuration and the loop checks its key before the
      next line is parsed, so a bad key stops the walk before a later
      malformed line is reached. */
  function BranchConfig(lines: seq<string>, prefix: string, remote: Option<string>, merge: Option<string>)
    : Result<(Option<string>, Option<string>)>
    decreases |lines|
  {
    if lines == [] then Ok((remote, merge))
    else
      var e :- ConfigLine(lines[0], prefix);
      var next :- UpstreamStep(e.0, e.1, remote, merge);
      BranchConfig(lines[1..], prefix, next.0, next.1)
  }

  /** The branch configuration loop: the generator's parse of each line,
      then the key dispatch. */
  method ReadBranchConfig(text: string, prefix: string) returns (r: Result<(Option<string>, Option<string>)>)
    ensures r == BranchConfig(SplitLines(text), prefix, None, None)
  {
    var lines := SplitLines(text);
    var remote: Option<string> := None;
    var merge: Option<string> := None;
    var k := 0;
    while k < |lines|
      invariant k <= |lines|
      invariant BranchConfig(lines, prefix, None, None) == BranchConfig(lines[k..], prefix, remote, merge)
    {
      assert lines[k..][0] == lines[k] && lines[k..][1..] == lines[k + 1..];
      var e := ConfigLine(lines[k], prefix);
      if e.Err? {
        return Err(e.error);
      }
      var (key, value) := e.value;
      if key == "remote" {
        remote := Some(value);
      } else if key == "merge" {
        merge := Some(value);
      } else if key == "push" || key == "pushremote" {
      } else {
        return Err(ValueError("unrecognized branch config"));
      }
      k := k + 1;
    }
    assert lines[k..] == [];
    r := Ok((remote, merge));
  }

  /** Walking the lines one at a time succeeds exactly when every line
      parses and the parsed keys are accepted, and then reads what the key
      loop reads from the parsed entries; only the error reported can
      differ. */
  lemma {:induction false} BranchConfigEntries(lines: seq<string>, prefix: string, remote: Option<string>, merge: Option<string>)
    ensures BranchConfig(lines, prefix, remote, merge).Ok? <==>
              ConfigEntries(lines, prefix).Ok? && BranchUpstream(ConfigEntries(lines, prefix).value, remote, merge).Ok?
    ensures BranchConfig(lines, prefix, remote, merge).Ok? ==>
              BranchConfig(lines, prefix, remote, merge) == BranchUpstream(ConfigEntries(lines, prefix).value, remote, merge)
    decreases |lines|
  {
    if lines != [] {
      var e := ConfigLine(lines[0], prefix);
      if e.Err? {
        ConfigEntriesFails(lines, prefix);
      } else {
        ConfigEntriesStep(lines, prefix);
        var rest := ConfigEntries(lines[1..], prefix);
        var step := UpstreamStep(e.value.0, e.value.1, remote, merge);
        if rest.Ok? {
          var entries := [e.value] + rest.value;
          assert ConfigEntries(lines, prefix) == Ok(entries);
          assert entries[0] == e.value && entries[1..] == rest.value;
        }
        if step.Ok? {
          BranchConfigEntries(lines[1..], prefix, step.value.0, step.value.1);
        }
      }
    }
  }

  /** A key the loop does not know, on a line before a malformed one, is
      the error reported. */
  lemma BadKeyFirst(prefix: string, key: string, value: string, later: seq<string>)
    requires ' ' !in prefix + key && Stripped(key) && Stripped(value) && !BranchKey(key)
    ensures BranchConfig([prefix + key + " " + value] + later, prefix, None, None)
         == Err(ValueError("unrecognized branch config"))
  {
    ConfigLineOf(prefix + key + " " + value, prefix, key, value);
    assert ([prefix + key + " " + value] + later)[0] == prefix + key + " " + value;
  }

  /** The last of `values`, or `default` when there is none. */
  function LastOr(values: seq<string>, default: Option<string>): (r: Option<string>)
    ensures values != [] ==> r == Some(values[|values| - 1])
    ensures values == [] ==> r == default
  {
    if values == [] then default else Some(values[|values| - 1])
  }

  /** A branch's configuration is accepted exactly when every key is one of
      the four, and then names the branch's last `remote` and last `merge`
      values. */
  lemma {:induction false} BranchUpstreamLast(entries: seq<(string, string)>, remote: Option<string>, merge: Option<string>)
    ensures BranchUpstream(entries, remote, merge).Ok? <==> forall i :: 0 <= i < |entries| ==> BranchKey(entries[i].0)
    ensures BranchUpstream(entries, remote, merge).Ok? ==>
              BranchUpstream(entries, remote, merge).value
              == (LastOr(ValuesOf(entries, "remote"), remote), LastOr(ValuesOf(entries, "merge"), merge))
    decreases |entries|
  {
    if entries != [] {
      var (key, value) := entries[0];
      var rest := entries[1..];
      assert forall i :: 1 <= i < |entries| ==> entries[i] == rest[i - 1];
      var remote' := if key == "remote" then Some(value) else remote;
      var merge' := if key == "merge" then Some(value) else merge;
      BranchUpstreamLast(rest, remote', merge');
      LastOrCons(key, value, rest, "remote", remote);
      LastOrCons(key, value, rest, "merge", merge);
    }
  }

  lemma LastOrCons(key: string, value: string, rest: seq<(string, string)>, wanted: string, default: Option<string>)
    ensures LastOr(ValuesOf([(key, value)] + rest, wanted), default)
         == LastOr(ValuesOf(rest, wanted), if key == wanted then Some(value) else default)
  {
    var entries := [(key, value)] + rest;
    assert entries[0] == (key, value) && entries[1..] == rest;
    var tail := ValuesOf(rest, wanted);
    if key == wanted {
      assert ValuesOf(entries, wanted) == [value] + tail;
    } else {
      assert ValuesOf(entries, wanted) == tail;
    }
  }

  /** A local reference: its object and the upstream its branch configures. */
  datatype LocalRef = LocalRef(oid: string, remote: Option<string>, merge: Option<string>)

  /** `local_refs` (name to local reference) and `remote_refs` ((remote,
      name there) to (local name, object id)). */
  datatype Refs = Refs(local: Dict<string, LocalRef>, tracked: Dict<(string, string), (string, string)>)

  /** What a reference that no refspec maps is: a branch (with its name
      below `refs/heads`), or a tag or note, which is skipped. */
  datatype Kind = Branch(branch: string) | Skip

  /** The check of a reference's components: it must lie below `refs`
      (`ref[0]` on no components and `ref[1]` on one are index errors),
      and only heads, tags and notes are recognised. */
  function RefKind(name: string): (r: Result<Kind>)
    ensures r.Ok? ==> |PosixParts(name)| >= 2 && PosixParts(name)[0] == "refs"
    ensures r == Ok(Skip) <==> (|PosixParts(name)| >= 2 && PosixParts(name)[0] == "refs"
                                && (PosixParts(name)[1] == "tags" || PosixParts(name)[1] == "notes"))
    ensures r.Ok? && r.value.Branch? <==> (|PosixParts(name)| >= 2 && PosixParts(name)[0] == "refs"
                                          && PosixParts(name)[1] == "heads")
  {
    var parts := PosixParts(name);
    if |parts| == 0 then Err(IndexError)
    else if parts[0] != "refs" then Err(AssertionError)
    else if |parts| < 2 then Err(IndexError)
    else if parts[1] == "heads" then Ok(Branch(Join(parts[2..], '/')))
    else if parts[1] == "tags" || parts[1] == "notes" then Ok(Skip)
    else Err(ValueError("Unrecognized Reference"))
  }

  /** One line of `git show-ref`. `branchConfig(branch)` is what
      `git config --get-regex` prints for the branch's keys. */
  function ClassifyRef(acc: Refs, line: string, table: RefspecTable, branchConfig: string -> string): Result<Refs>
  {
    var (oid, name) :- SplitRefLine(line);
    var m :- FirstMatch(table, name);
    if m.Some? then Ok(acc.(tracked := Put(acc.tracked, m.value, (name, oid))))
    else
      var kind :- RefKind(name);
      if kind.Skip? then Ok(acc)
      else
        var upstream :- BranchConfig(SplitLines(branchConfig(kind.branch)), ConfigPrefix("branch." + kind.branch), None, None);
        Ok(acc.(local := Put(acc.local, name, LocalRef(oid, upstream.0, upstream.1))))
  }

  /** The loop over the lines, as a fold. */
  function ClassifyRefs(acc: Refs, lines: seq<string>, table: RefspecTable, branchConfig: string -> string): Result<Refs>
    decreases |lines|
  {
    if lines == [] then Ok(acc)
    else
      var next :- ClassifyRef(acc, lines[0], table, branchConfig);
      ClassifyRefs(next, lines[1..], table, branchConfig)
  }

  const NoRefs: Refs := Refs([], [])

  /** The show-ref loop of the source. */
  method ClassifyShowRef(table: RefspecTable, showRef: string, branchConfig: string -> string) returns (r: Result<Refs>)
    ensures r == ClassifyRefs(NoRefs, SplitLines(showRef), table, branchConfig)
  {
    var lines := SplitLines(showRef);
    var refs := NoRefs;
    var k := 0;
    while k < |lines|
      invariant k <= |lines|
      invariant ClassifyRefs(NoRefs, lines, table, branchConfig) == ClassifyRefs(refs, lines[k..], table, branchConfig)
    {
      ghost var rest := lines[k..];
      assert rest[0] == lines[k] && rest[1..] == lines[k + 1..];
      ClassifyRefsHead(refs, rest, table, branchConfig);
      var next := ClassifyLine(refs, lines[k], table, branchConfig);
      if next.Err? {
        return Err(next.error);
      }
      refs := next.value;
      k := k + 1;
    }
    assert lines[k..] == [];
    r := Ok(refs);
  }

  /** The first line decides whether the fold stops, and otherwise what
      the rest of it starts from. */
  lemma ClassifyRefsHead(acc: Refs, lines: seq<string>, table: RefspecTable, branchConfig: string -> string)
    requires lines != []
    ensures var next := ClassifyRef(acc, lines[0], table, branchConfig);
            ClassifyRefs(acc, lines, table, branchConfig)
            == if next.Err? then Err(next.error) else ClassifyRefs(next.value, lines[1..], table, branchConfig)
  {
  }

  /** The body of the show-ref loop for one line, with its inner search
      and the walk of the branch's configuration. */
  method ClassifyLine(refs: Refs, line: string, table: RefspecTable, branchConfig: string -> string) returns (r: Result<Refs>)
    ensures r == ClassifyRef(refs, line, table, branchConfig)
  {
    var split := SplitRefLine(line);
    if split.Err? {
      return Err(split.error);
    }
    var (oid, name) := split.value;
    var m := FindRemoteRef(table, name);
    if m.Err? {
      return Err(m.error);
    }
    if m.value.Some? {
      return Ok(refs.(tracked := Put(refs.tracked, m.value.value, (name, oid))));
    }
    var kind := RefKind(name);
    if kind.Err? {
      return Err(kind.error);
    }
    if kind.value.Skip? {
      return Ok(refs);
    }
    var branch := kind.value.branch;
    var upstream := ReadBranchConfig(branchConfig(branch), ConfigPrefix("branch." + branch));
    if upstream.Err? {
      return Err(upstream.error);
    }
    r := Ok(refs.(local := Put(refs.local, name, LocalRef(oid, upstream.value.0, upstream.value.1))));
  }

  /** A remote-tracking entry is reconciled: some table entry of its remote
      maps the name it has there back to the local name. */
  ghost predicate MapsBack(table: RefspecTable, e: ((string, string), (string, string))) {
    exists i :: 0 <= i < |table| && table[i].1.1 == e.0.0
                && MatchRefspecStrict(e.0.1, table[i].1.0, table[i].0) == Ok(Some(e.1.0))
  }

  /** Every local branch is one no refspec maps, and lies below
      `refs/heads`. */
  ghost predicate Unmapped(table: RefspecTable, name: string) {
    FirstMatch(table, name) == Ok(None) && RefKind(name).Ok? && RefKind(name).value.Branch?
  }

  ghost predicate SoundRefs(table: RefspecTable, refs: Refs) {
    Valid(refs.local) && Valid(refs.tracked)
    && (forall k :: 0 <= k < |refs.tracked| ==> MapsBack(table, refs.tracked[k]))
    && (forall k :: 0 <= k < |refs.local| ==> Unmapped(table, refs.local[k].0))
  }

  /** A name the search finds maps back through the entry it was found by. */
  lemma FoundMapsBack(table: RefspecTable, name: string, oid: string)
    requires FirstMatch(table, name).Ok? && FirstMatch(table, name).value.Some?
    ensures MapsBack(table, (FirstMatch(table, name).value.value, (name, oid)))
  {
    var (remote, remoteRef) := FirstMatch(table, name).value.value;
    var i :| 0 <= i < |table| && table[i].1.1 == remote
             && MatchRefspecStrict(name, table[i].0, table[i].1.0) == Ok(Some(remoteRef))
             && forall j :: 0 <= j < i ==> MatchRefspecStrict(name, table[j].0, table[j].1.0) == Ok(None);
    StrictMatchBack(name, table[i].0, table[i].1.0);
  }

  lemma PutKeeps<K, V>(d: Dict<K, V>, k: K, v: V, p: ((K, V)) -> bool)
    requires (forall j :: 0 <= j < |d| ==> p(d[j])) && p((k, v))
    ensures forall j :: 0 <= j < |Put(d, k, v)| ==> p(Put(d, k, v)[j])
  {
  }

  /** How one line changes the collected references: a found name is
      recorded as remote-tracking, a branch as local, anything else not at
      all. */
  lemma ClassifyRefCases(acc: Refs, line: string, table: RefspecTable, branchConfig: string -> string)
    requires ClassifyRef(acc, line, table, branchConfig).Ok?
    ensures var r := ClassifyRef(acc, line, table, branchConfig).value;
            var (oid, name) := SplitRefLine(line).value;
            var m := FirstMatch(table, name).value;
            if m.Some? then r == acc.(tracked := Put(acc.tracked, m.value, (name, oid)))
            else if RefKind(name).value.Skip? then r == acc
            else r.tracked == acc.tracked && exists l :: r.local == Put(acc.local, name, l)
  {
    var (oid, name) := SplitRefLine(line).value;
    var m := FirstMatch(table, name).value;
    if m.None? && RefKind(name).value.Branch? {
      var branch := RefKind(name).value.branch;
      var upstream := BranchConfig(SplitLines(branchConfig(branch)), ConfigPrefix("branch." + branch), None, None).value;
      var r := ClassifyRef(acc, line, table, branchConfig).value;
      assert r.local == Put(acc.local, name, LocalRef(oid, upstream.0, upstream.1));
    }
  }

  lemma ClassifyRefSound(acc: Refs, line: string, table: RefspecTable, branchConfig: string -> string)
    requires SoundRefs(table, acc)
    requires ClassifyRef(acc, line, table, branchConfig).Ok?
    ensures SoundRefs(table, ClassifyRef(acc, line, table, branchConfig).value)
  {
    var r := ClassifyRef(acc, line, table, branchConfig).value;
    var (oid, name) := SplitRefLine(line).value;
    var m := FirstMatch(table, name).value;
    ClassifyRefCases(acc, line, table, branchConfig);
    if m.Some? {
      FoundMapsBack(table, name, oid);
      PutKeeps(acc.tracked, m.value, (name, oid), (e: ((string, string), (string, string))) => MapsBack(table, e));
    } else if RefKind(name).value.Branch? {
      var l :| r.local == Put(acc.local, name, l);
      PutKeeps(acc.local, name, l, (e: (string, LocalRef)) => Unmapped(table, e.0));
    }
  }

  /** What the show-ref loop collects is reconciled: every remote-tracking
      entry maps back to its local name through a refspec of its remote,
      and every local reference is a branch no refspec maps. */
  lemma {:induction false} ClassifyRefsSound(acc: Refs, lines: seq<string>, table: RefspecTable, branchConfig: string -> string)
    requires SoundRefs(table, acc)
    requires ClassifyRefs(acc, lines, table, branchConfig).Ok?
    ensures SoundRefs(table, ClassifyRefs(acc, lines, table, branchConfig).value)
    decreases |lines|
  {
    if lines != [] {
      ClassifyRefSound(acc, lines[0], table, branchConfig);
      ClassifyRefsSound(ClassifyRef(acc, lines[0], table, branchConfig).value, lines[1..], table, branchConfig);
    }
  }

  // ---------------------------------------------------------------------
  // Phase 5: dangling and tracking branches

  /** A local branch with no upstream, an empty one, or one on a remote
      that is not a destination remote. */
  predicate Dangling(l: LocalRef, dest: Dict<string, Remote>) {
    l.remote.None? || l.remote.value == "" || !Contains(dest, l.remote.value)
  }

  /** A tracking branch and the remote-tracking reference it follows. */
  datatype Tracking = Tracking(ref: string, oid: string, remoteRef: string, remoteOid: string)

  /** `remote_refs[(branch_remote, branch_merge)]`: a missing entry (an
      unset `merge` included) is a `KeyError`. */
  function Upstream(ref: string, l: LocalRef, tracked: Dict<(string, string), (string, string)>): (r: Result<Tracking>)
    ensures r.Err? ==> r.error == KeyError
    ensures r.Ok? <==> l.remote.Some? && l.merge.Some? && Contains(tracked, (l.remote.value, l.merge.value))
    ensures r.Ok? ==> r.value.ref == ref && r.value.oid == l.oid
                      && Get(tracked, (l.remote.value, l.merge.value)) == Some((r.value.remoteRef, r.value.remoteOid))
  {
    if l.remote.None? || l.merge.None? then Err(KeyError)
    else
      var entry := Get(tracked, (l.remote.value, l.merge.value));
      if entry.None? then Err(KeyError)
      else Ok(Tracking(ref, l.oid, entry.value.0, entry.value.1))
  }

  /** The loop over `local_refs`, as a fold with its two lists. */
  function Resolve(dangling: seq<string>, tracking: seq<Tracking>, local: Dict<string, LocalRef>,
                   dest: Dict<string, Remote>, tracked: Dict<(string, string), (string, string)>)
    : Result<(seq<string>, seq<Tracking>)>
    decreases |local|
  {
    if local == [] then Ok((dangling, tracking))
    else if Dangling(local[0].1, dest) then Resolve(dangling + [local[0].0], tracking, local[1..], dest, tracked)
    else
      var t :- Upstream(local[0].0, local[0].1, tracked);
      Resolve(dangling, tracking + [t], local[1..], dest, tracked)
  }

  method ResolveUpstreams(local: Dict<string, LocalRef>, dest: Dict<string, Remote>,
                          tracked: Dict<(string, string), (string, string)>)
    returns (r: Result<(seq<string>, seq<Tracking>)>)
    ensures r == Resolve([], [], local, dest, tracked)
  {
    var dangling: seq<string> := [];
    var tracking: seq<Tracking> := [];
    var k := 0;
    while k < |local|
      invariant k <= |local|
      invariant Resolve([], [], local, dest, tracked) == Resolve(dangling, tracking, local[k..], dest, tracked)
    {
      assert local[k..][0] == local[k] && local[k..][1..] == local[k + 1..];
      var (ref, l) := local[k];
      if l.remote.None? || l.remote.value == "" || !Contains(dest, l.remote.value) {
        dangling := dangling + [ref];
      } else {
        var t := Upstream(ref, l, tracked);
        if t.Err? {
          return Err(t.error);
        }
        tracking := tracking + [t.value];
      }
      k := k + 1;
    }
    assert local[k..] == [];
    r := Ok((dangling, tracking));
  }

  /** The names of the dangling branches, in order. */
  function DanglingRefs(local: Dict<string, LocalRef>, dest: Dict<string, Remote>): seq<string>
  {
    if local == [] then []
    else (if Dangling(local[0].1, dest) then [local[0].0] else []) + DanglingRefs(local[1..], dest)
  }

  /** The resolution succeeds exactly when every branch that is not
      dangling finds its upstream among the remote-tracking references;
      then the dangling list holds exactly the dangling branches, in
      order, and every other branch is tracking. */
  lemma ResolvePartition(dangling: seq<string>, tracking: seq<Tracking>, local: Dict<string, LocalRef>,
                         dest: Dict<string, Remote>, tracked: Dict<(string, string), (string, string)>)
    ensures Resolve(dangling, tracking, local, dest, tracked).Ok?
        <==> forall i :: 0 <= i < |local| ==> Dangling(local[i].1, dest) || Upstream(local[i].0, local[i].1, tracked).Ok?
    ensures Resolve(dangling, tracking, local, dest, tracked).Ok? ==>
              var (d, t) := Resolve(dangling, tracking, local, dest, tracked).value;
              d == dangling + DanglingRefs(local, dest)
              && |d| + |t| == |dangling| + |tracking| + |local|
  {
    ResolveSucceeds(dangling, tracking, local, dest, tracked);
    ResolveLists(dangling, tracking, local, dest, tracked);
  }

  /** When the resolution succeeds. */
  lemma {:induction false} ResolveSucceeds(dangling: seq<string>, tracking: seq<Tracking>, local: Dict<string, LocalRef>,
                                           dest: Dict<string, Remote>, tracked: Dict<(string, string), (string, string)>)
    ensures Resolve(dangling, tracking, local, dest, tracked).Ok?
        <==> forall i :: 0 <= i < |local| ==> Dangling(local[i].1, dest) || Upstream(local[i].0, local[i].1, tracked).Ok?
    decreases |local|
  {
    if local != [] {
      var rest := local[1..];
      assert forall i :: 1 <= i < |local| ==> local[i] == rest[i - 1];
      var (ref, l) := local[0];
      if Dangling(l, dest) {
        ResolveSucceeds(dangling + [ref], tracking, rest, dest, tracked);
      } else if Upstream(ref, l, tracked).Ok? {
        ResolveSucceeds(dangling, tracking + [Upstream(ref, l, tracked).value], rest, dest, tracked);
      }
    }
  }

  /** What the two lists hold when it does. */
  lemma {:induction false} ResolveLists(dangling: seq<string>, tracking: seq<Tracking>, local: Dict<string, LocalRef>,
                                        dest: Dict<string, Remote>, tracked: Dict<(string, string), (string, string)>)
    ensures Resolve(dangling, tracking, local, dest, tracked).Ok? ==>
              var (d, t) := Resolve(dangling, tracking, local, dest, tracked).value;
              d == dangling + DanglingRefs(local, dest)
              && |d| + |t| == |dangling| + |tracking| + |local|
    decreases |local|
  {
    if local != [] {
      var (ref, l) := local[0];
      var rest := DanglingRefs(local[1..], dest);
      if Dangling(l, dest) {
        ResolveLists(dangling + [ref], tracking, local[1..], dest, tracked);
        assert dangling + [ref] + rest == dangling + ([ref] + rest);
      } else if Upstream(ref, l, tracked).Ok? {
        ResolveLists(dangling, tracking + [Upstream(ref, l, tracked).value], local[1..], dest, tracked);
        assert DanglingRefs(local, dest) == [] + rest;
      }
    } else {
      assert dangling + [] == dangling;
    }
  }

  // ---------------------------------------------------------------------
  // Phase 6: outgoing commits

  /** The lines `git rev-list <oid> ^<remote oid>` prints for each tracking
      branch, one after the other. `revList` stands for the command. */
  function Revs(tracking: seq<Tracking>, revList: (string, string) -> string): seq<string>
  {
    if tracking == [] then []
    else SplitLines(revList(tracking[0].oid, tracking[0].remoteOid)) + Revs(tracking[1..], revList)
  }

  method CollectRevs(tracking: seq<Tracking>, revList: (string, string) -> string) returns (revs: seq<string>)
    ensures revs == Revs(tracking, revList)
  {
    revs := [];
    var k := 0;
    while k < |tracking|
      invariant k <= |tracking|
      invariant Revs(tracking, revList) == revs + Revs(tracking[k..], revList)
    {
      ghost var rest := tracking[k..];
      assert rest[0] == tracking[k] && rest[1..] == tracking[k + 1..];
      var lines := SplitLines(revList(tracking[k].oid, tracking[k].remoteOid));
      RevsStep(revs, rest, revList);
      revs := revs + lines;
      k := k + 1;
    }
    assert tracking[k..] == [];
    assert revs + [] == revs;
  }

  /** One tracking branch of the loop: its lines, then the rest. */
  lemma RevsStep(done: seq<string>, tracking: seq<Tracking>, revList: (string, string) -> string)
    requires tracking != []
    ensures done + Revs(tracking, revList)
         == (done + SplitLines(revList(tracking[0].oid, tracking[0].remoteOid))) + Revs(tracking[1..], revList)
  {
  }

  /** The commit count is the sum of the per-branch counts, and is zero
      exactly when no tracking branch has outgoing commits. */
  lemma RevsCount(tracking: seq<Tracking>, revList: (string, string) -> string)
    ensures |Revs(tracking, revList)| == SumLines(tracking, revList)
    ensures Revs(tracking, revList) == [] <==>
              forall i :: 0 <= i < |tracking| ==> SplitLines(revList(tracking[i].oid, tracking[i].remoteOid)) == []
  {
    RevsLength(tracking, revList);
    RevsEmpty(tracking, revList);
  }

  lemma {:induction false} RevsLength(tracking: seq<Tracking>, revList: (string, string) -> string)
    ensures |Revs(tracking, revList)| == SumLines(tracking, revList)
  {
    if tracking != [] {
      RevsLength(tracking[1..], revList);
    }
  }

  lemma {:induction false} RevsEmpty(tracking: seq<Tracking>, revList: (string, string) -> string)
    ensures Revs(tracking, revList) == [] <==>
              forall i :: 0 <= i < |tracking| ==> SplitLines(revList(tracking[i].oid, tracking[i].remoteOid)) == []
  {
    if tracking != [] {
      var rest := tracking[1..];
      assert forall i :: 1 <= i < |tracking| ==> tracking[i] == rest[i - 1];
      RevsEmpty(rest, revList);
    }
  }

  function SumLines(tracking: seq<Tracking>, revList: (string, string) -> string): nat
  {
    if tracking == [] then 0
    else |SplitLines(revList(tracking[0].oid, tracking[0].remoteOid))| + SumLines(tracking[1..], revList)
  }

  // ---------------------------------------------------------------------
  // The whole computation

  /** What git prints for one repository, as far as this computation reads
      it: the `rgit.ignore-remote-config` values, the enumerated remotes,
      `git show-ref`, each branch's configuration and each `rev-list`. */
  datatype GitOutput = GitOutput(
    ignoreConfig: string,
    remotes: seq<(string, Config)>,
    showRef: string,
    branchConfig: string -> string,
    revList: (string, string) -> string)

  /** "Refs" and "Commits", each set only when non-zero. */
  function Counted(s: Statistics, dangling: nat, commits: nat): Statistics
  {
    var s1 := if dangling > 0 then Put(s, "Refs", Count(dangling)) else s;
    if commits > 0 then Put(s1, "Commits", Count(commits)) else s1
  }

  /** `get_repo_commit_statistics` on `s`: configured destination URL
      prefixes in `destinations`, `urlsplit` for the URL parser. */
  function CommitStatisticsOf(s: Statistics, out: GitOutput, destinations: seq<string>, urlsplit: string -> UrlParts)
    : Result<Statistics>
  {
    var ignored :- IgnoredKeys(out.ignoreConfig);
    var sets :- SortRemotes(NoRemotes, out.remotes, ignored, destinations, urlsplit);
    if sets.unsupported != [] then Ok(Put(s, "Unsupported Remote Config", Configs(sets.unsupported)))
    else if sets.dest == [] then Ok(s)
    else
      var table :- RefspecTableOf(sets.dest, sets.other);
      var refs :- ClassifyRefs(NoRefs, SplitLines(out.showRef), table, out.branchConfig);
      var resolved :- Resolve([], [], refs.local, sets.dest, refs.tracked);
      Ok(Counted(s, |resolved.0|, |Revs(resolved.1, out.revList)|))
  }

  method GetRepoCommitStatistics(s: Statistics, out: GitOutput, destinations: seq<string>, urlsplit: string -> UrlParts)
    returns (r: Result<Statistics>)
    ensures r == CommitStatisticsOf(s, out, destinations, urlsplit)
  {
    var ignored := GatherIgnoredKeys(out.ignoreConfig);
    if ignored.Err? {
      return Err(ignored.error);
    }
    var sets := SortRemotesLoop(out.remotes, ignored.value, destinations, urlsplit);
    if sets.Err? {
      return Err(sets.error);
    }
    if sets.value.unsupported != [] {
      return Ok(Put(s, "Unsupported Remote Config", Configs(sets.value.unsupported)));
    }
    if sets.value.dest == [] {
      return Ok(s);
    }
    var table := BuildRefspecTable(sets.value.dest, sets.value.other);
    if table.Err? {
      return Err(table.error);
    }
    var refs := ClassifyShowRef(table.value, out.showRef, out.branchConfig);
    if refs.Err? {
      return Err(refs.error);
    }
    var resolved := ResolveUpstreams(refs.value.local, sets.value.dest, refs.value.tracked);
    if resolved.Err? {
      return Err(resolved.error);
    }
    var (dangling, tracking) := resolved.value;
    var statistics := s;
    if dangling != [] {
      statistics := Put(statistics, "Refs", Count(|dangling|));
    }
    var revs := CollectRevs(tracking, out.revList);
    if revs != [] {
      statistics := Put(statistics, "Commits", Count(|revs|));
    }
    r := Ok(statistics);
  }

  /** The computation touches no column but its own three. */
  lemma CommitStatisticsColumns(s: Statistics, out: GitOutput, destinations: seq<string>, urlsplit: string -> UrlParts,
                                key: string)
    requires Valid(s)
    requires key != "Unsupported Remote Config" && key != "Refs" && key != "Commits"
    ensures var r := CommitStatisticsOf(s, out, destinations, urlsplit);
            r.Ok? ==> Valid(r.value) && Get(r.value, key) == Get(s, key)
  {
    var ignored := IgnoredKeys(out.ignoreConfig);
    if ignored.Err? {
      return;
    }
    var sets := SortRemotes(NoRemotes, out.remotes, ignored.value, destinations, urlsplit);
    if sets.Err? {
      return;
    }
    if sets.value.unsupported != [] {
      GetPut(s, "Unsupported Remote Config", Configs(sets.value.unsupported), key);
      return;
    }
    if sets.value.dest == [] {
      return;
    }
    var table := RefspecTableOf(sets.value.dest, sets.value.other);
    if table.Err? {
      return;
    }
    var refs := ClassifyRefs(NoRefs, SplitLines(out.showRef), table.value, out.branchConfig);
    if refs.Err? {
      return;
    }
    var resolved := Resolve([], [], refs.value.local, sets.value.dest, refs.value.tracked);
    if resolved.Err? {
      return;
    }
    CountedColumns(s, |resolved.value.0|, |Revs(resolved.value.1, out.revList)|, key);
  }

  /** "Refs" holds the dangling count and "Commits" the commit count, each
      only when non-zero; no other column changes. */
  lemma CountedColumns(s: Statistics, dangling: nat, commits: nat, key: string)
    requires Valid(s)
    ensures Valid(Counted(s, dangling, commits))
    ensures Get(Counted(s, dangling, commits), key)
         == if key == "Refs" && dangling > 0 then Some(Count(dangling))
            else if key == "Commits" && commits > 0 then Some(Count(commits))
            else Get(s, key)
  {
    var s1 := if dangling > 0 then Put(s, "Refs", Count(dangling)) else s;
    GetPut(s, "Refs", Count(dangling), key);
    GetPut(s1, "Commits", Count(commits), key);
  }

  /** When some remote has unsupported keys, the computation stops after
      recording them: nothing else is read, so neither "Refs" nor
      "Commits" is set. */
  lemma UnsupportedStops(s: Statistics, out: GitOutput, destinations: seq<string>, urlsplit: string -> UrlParts)
    requires Valid(s)
    requires IgnoredKeys(out.ignoreConfig).Ok?
    requires var sets := SortRemotes(NoRemotes, out.remotes, IgnoredKeys(out.ignoreConfig).value, destinations, urlsplit);
             sets.Ok? && sets.value.unsupported != []
    ensures var r := CommitStatisticsOf(s, out, destinations, urlsplit);
            var sets := SortRemotes(NoRemotes, out.remotes, IgnoredKeys(out.ignoreConfig).value, destinations, urlsplit);
            r.Ok? && Get(r.value, "Unsupported Remote Config") == Some(Configs(sets.value.unsupported))
            && Get(r.value, "Refs") == Get(s, "Refs") && Get(r.value, "Commits") == Get(s, "Commits")
  {
    var sets := SortRemotes(NoRemotes, out.remotes, IgnoredKeys(out.ignoreConfig).value, destinations, urlsplit);
    var u := Configs(sets.value.unsupported);
    GetPut(s, "Unsupported Remote Config", u, "Unsupported Remote Config");
    GetPut(s, "Unsupported Remote Config", u, "Commits");
    GetPut(s, "Unsupported Remote Config", u, "Refs");
  }

  /** Without a destination remote (and without unsupported keys) the
      computation records nothing. */
  lemma NoDestinationNoChange(s: Statistics, out: GitOutput, destinations: seq<string>, urlsplit: string -> UrlParts)
    requires IgnoredKeys(out.ignoreConfig).Ok?
    requires var sets := SortRemotes(NoRemotes, out.remotes, IgnoredKeys(out.ignoreConfig).value, destinations, urlsplit);
             sets.Ok? && sets.value.unsupported == [] && sets.value.dest == []
    ensures CommitStatisticsOf(s, out, destinations, urlsplit) == Ok(s)
  {
  }
}
