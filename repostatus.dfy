/** The per-repository pieces of `rgit status` (rgit/cli/status.py): what a
    statistics row holds, which repositories are inspected at all, the
    counting of `git status --porcelain` lines, and the first-match searches
    over the configured destination folders and remote URL prefixes. */
module RepoStatus {
  import opened Wrappers
  import opened PyStr
  import opened OrderedDict
  import opened GitConfig
  import opened Paths

  /** A cell of a statistics row: a count, a text, or the leftover
      configuration of each remote with unsupported keys. */
  datatype Value = Count(n: int) | Text(s: string) | Configs(remotes: Dict<string, Config>)

  /** The `statistics` dict of one repository, keyed by column name. */
  type Statistics = Dict<string, Value>

  // ---------------------------------------------------------------------
  // Which repositories are inspected

  /** What `execute` does with a repository, given what `git.exists`
      reports: inspect it, or record a note. */
  datatype Inspection = Inspect | Note(text: string)

  /** The dispatch on `(gitdir_exists, worktree_exists)`: a repository is
      inspected when its git directory exists and its worktree is not known
      to be missing (`None` stands for a bare layout without `core.worktree`). */
  function Dispatch(gitdirExists: bool, worktreeExists: Option<bool>): (r: Inspection)
    ensures r == Inspect <==> gitdirExists && worktreeExists != Some(false)
    ensures r == Note("missing worktree") <==> gitdirExists && worktreeExists == Some(false)
    ensures r == Note("missing repo") <==> !gitdirExists
  {
    if !gitdirExists then Note("missing repo")
    else if worktreeExists == Some(false) then Note("missing worktree")
    else Inspect
  }

  /** The statistics a repository that is not inspected contributes. */
  function NoteStatistics(text: string): (r: Statistics)
    ensures Valid(r) && Get(r, "Notes") == Some(Text(text)) && Keys(r) == ["Notes"]
  {
    [("Notes", Text(text))]
  }

  // ---------------------------------------------------------------------
  // `get_repo_status_stats`

  /** One of the status letters the line pattern accepts in the two code
      columns. */
  predicate IsStatusCode(c: char) {
    c in " MADRCUT?!"
  }

  /** A blank code column is shown as a bullet. */
  function Shown(c: char): (r: char)
    ensures r != ' '
    ensures c != ' ' ==> r == c
  {
    if c == ' ' then '•' else c
  }

  /** The pattern `^([ MADRCUT?!])([ MADRCUT?!]) (.*?)(?: -> (.*?))?$`
      applied to one line of `splitlines()` output: the two code columns
      and a space must lead the line (the rest always matches, since no
      line holds a newline); a line that does not match has no groups,
      which is an `AttributeError`. The key is the two codes as shown. */
  function StatusKey(line: string): (r: Result<string>)
    ensures r.Ok? <==> |line| >= 3 && IsStatusCode(line[0]) && IsStatusCode(line[1]) && line[2] == ' '
    ensures r.Ok? ==> |r.value| == 2 && r.value[0] == Shown(line[0]) && r.value[1] == Shown(line[1])
    ensures r.Err? ==> r.error == AttributeError
  {
    if |line| >= 3 && IsStatusCode(line[0]) && IsStatusCode(line[1]) && line[2] == ' ' then
      Ok([Shown(line[0]), Shown(line[1])])
    else
      Err(AttributeError)
  }

  /** The count a cell holds, zero for a missing cell. */
  function CountOf(v: Option<Value>): int
  {
    if v.Some? && v.value.Count? then v.value.n else 0
  }

  /** `statistics.setdefault(key, 0)` then `statistics[key] += 1`; adding
      one to a cell that holds no number is a `TypeError`. */
  function Bump(s: Statistics, key: string): (r: Result<Statistics>)
    ensures Valid(s) && r.Ok? ==> Valid(r.value)
  {
    var cell := Get(s, key);
    if cell.None? then Ok(Put(s, key, Count(1)))
    else if cell.value.Count? then Ok(Put(s, key, Count(cell.value.n + 1)))
    else Err(TypeError)
  }

  /** The counting loop over the lines, as a fold. */
  function StatusCounts(s: Statistics, lines: seq<string>): Result<Statistics>
    decreases |lines|
  {
    if lines == [] then Ok(s)
    else
      var key :- StatusKey(lines[0]);
      var next :- Bump(s, key);
      StatusCounts(next, lines[1..])
  }

  /** `get_repo_status_stats`: nothing for a bare repository or a clean
      worktree, else one count per status key. `bareText` is what
      `git rev-parse --is-bare-repository` prints and `stdout` what
      `git status --porcelain` prints. */
  function RepoStatusStats(s: Statistics, bareText: string, stdout: string): Result<Statistics>
  {
    var bare :- IsBare(bareText);
    if bare || stdout == "" then Ok(s) else StatusCounts(s, SplitLines(stdout))
  }

  method GetRepoStatusStats(s: Statistics, bareText: string, stdout: string) returns (r: Result<Statistics>)
    ensures r == RepoStatusStats(s, bareText, stdout)
  {
    var bare := IsBare(bareText);
    if bare.Err? {
      return Err(bare.error);
    }
    if bare.value || stdout == "" {
      return Ok(s);
    }
    var lines := SplitLines(stdout);
    var statistics := s;
    var k := 0;
    while k < |lines|
      invariant k <= |lines|
      invariant StatusCounts(s, lines) == StatusCounts(statistics, lines[k..])
    {
      assert lines[k..][0] == lines[k] && lines[k..][1..] == lines[k + 1..];
      var key := StatusKey(lines[k]);
      if key.Err? {
        return Err(key.error);
      }
      var next := Bump(statistics, key.value);
      if next.Err? {
        return Err(next.error);
      }
      statistics := next.value;
      k := k + 1;
    }
    assert lines[k..] == [];
    r := Ok(statistics);
  }

  /** The number of lines whose status key is `key`. */
  function Tally(lines: seq<string>, key: string): nat
  {
    if lines == [] then 0
    else (if StatusKey(lines[0]) == Ok(key) then 1 else 0) + Tally(lines[1..], key)
  }

  /** One count: the key's cell goes up by one and every other cell stays. */
  lemma BumpGet(s: Statistics, k: string, key: string)
    requires Valid(s) && Bump(s, k).Ok?
    ensures Get(Bump(s, k).value, key) == Tallied(Get(s, key), if k == key then 1 else 0)
  {
    var v := if Get(s, k).None? then Count(1) else Count(Get(s, k).value.n + 1);
    assert Bump(s, k).value == Put(s, k, v);
    GetPut(s, k, v, key);
  }

  /** After counting, each key's cell holds what it held plus the number of
      lines with that key; a key no line has keeps its cell. */
  lemma StatusCountsTally(s: Statistics, lines: seq<string>, key: string)
    requires Valid(s)
    ensures StatusCounts(s, lines).Ok? ==>
              Valid(StatusCounts(s, lines).value)
              && Get(StatusCounts(s, lines).value, key)
                 == if Tally(lines, key) == 0 then Get(s, key) else Some(Count(CountOf(Get(s, key)) + Tally(lines, key)))
  {
    StatusCountsValid(s, lines);
    StatusCountsGet(s, lines, key);
  }

  /** Counting keeps the statistics free of duplicate keys. */
  lemma {:induction false} StatusCountsValid(s: Statistics, lines: seq<string>)
    requires Valid(s)
    ensures StatusCounts(s, lines).Ok? ==> Valid(StatusCounts(s, lines).value)
    decreases |lines|
  {
    if lines != [] && StatusCounts(s, lines).Ok? {
      StatusCountsStep(s, lines);
      StatusCountsValid(Bump(s, StatusKey(lines[0]).value).value, lines[1..]);
    }
  }

  /** A cell after `t` more lines naming it. */
  function Tallied(g: Option<Value>, t: nat): Option<Value>
  {
    if t == 0 then g else Some(Count(CountOf(g) + t))
  }

  /** The cell under `key` grows by the number of lines that name it. */
  lemma {:induction false} StatusCountsGet(s: Statistics, lines: seq<string>, key: string)
    requires Valid(s)
    ensures StatusCounts(s, lines).Ok? ==>
              Get(StatusCounts(s, lines).value, key) == Tallied(Get(s, key), Tally(lines, key))
    decreases |lines|
  {
    if lines != [] && StatusCounts(s, lines).Ok? {
      StatusCountsStep(s, lines);
      var k := StatusKey(lines[0]).value;
      var next := Bump(s, k).value;
      var rest := lines[1..];
      TallyStep(lines, key);
      BumpGet(s, k, key);
      StatusCountsGet(next, rest, key);
      TallyCombine(Get(s, key), if k == key then 1 else 0, Tally(rest, key));
    }
  }

  /** The tally of a non-empty list counts its first line, then the rest. */
  lemma TallyStep(lines: seq<string>, key: string)
    requires lines != []
    ensures Tally(lines, key)
         == (if StatusKey(lines[0]).Ok? && StatusKey(lines[0]).value == key then 1 else 0) + Tally(lines[1..], key)
  {
  }

  /** Counting a non-empty list is bumping its first key, then counting the rest. */
  lemma StatusCountsStep(s: Statistics, lines: seq<string>)
    requires lines != [] && StatusCounts(s, lines).Ok?
    ensures StatusKey(lines[0]).Ok? && Bump(s, StatusKey(lines[0]).value).Ok?
    ensures StatusCounts(s, lines) == StatusCounts(Bump(s, StatusKey(lines[0]).value).value, lines[1..])
  {
  }

  /** One bump of `b` (zero or one) followed by `t` more makes `b + t`. */
  lemma TallyCombine(g: Option<Value>, b: nat, t: nat)
    requires b <= 1
    ensures Tallied(Tallied(g, b), t) == Tallied(g, b + t)
  {
  }

  /** A line the pattern rejects makes the whole count fail. */
  lemma {:induction false} StatusCountsRejects(s: Statistics, lines: seq<string>, i: nat)
    requires i < |lines| && StatusKey(lines[i]).Err?
    ensures StatusCounts(s, lines).Err?
    decreases |lines|
  {
    if i > 0 && StatusKey(lines[0]).Ok? && Bump(s, StatusKey(lines[0]).value).Ok? {
      assert lines[1..][i - 1] == lines[i];
      StatusCountsRejects(Bump(s, StatusKey(lines[0]).value).value, lines[1..], i - 1);
    }
  }

  /** Every cell under a two-character name holds a count. */
  predicate CountsAtCodes(s: Statistics) {
    forall i :: 0 <= i < |s| ==> |s[i].0| != 2 || s[i].1.Count?
  }

  /** Conversely, when every line matches the pattern and no two-character
      column holds anything but a count, counting succeeds. */
  lemma {:induction false} StatusCountsAccepts(s: Statistics, lines: seq<string>)
    requires Valid(s) && CountsAtCodes(s)
    requires forall i :: 0 <= i < |lines| ==> StatusKey(lines[i]).Ok?
    ensures StatusCounts(s, lines).Ok?
    decreases |lines|
  {
    if lines != [] {
      var k := StatusKey(lines[0]).value;
      var cell := Get(s, k);
      if cell.Some? {
        var i := Find(s, k).value;
        assert s[i].1 == cell.value;
      }
      var next := Bump(s, k).value;
      var v := if cell.None? then Count(1) else Count(cell.value.n + 1);
      assert next == Put(s, k, v);
      assert CountsAtCodes(next);
      assert forall i :: 0 <= i < |lines| - 1 ==> lines[1..][i] == lines[i + 1];
      StatusCountsAccepts(next, lines[1..]);
    }
  }

  // ---------------------------------------------------------------------
  // First-match searches over the configuration

  /** The first of `folders` whose components lead those of `path`. */
  function FirstFolder(folders: seq<string>, path: string): (r: Option<string>)
    ensures r.None? <==> forall i :: 0 <= i < |folders| ==> !IsPathIn(folders[i], path)
    ensures r.Some? ==> exists i :: 0 <= i < |folders| && folders[i] == r.value
                                    && IsPathIn(folders[i], path)
                                    && forall j :: 0 <= j < i ==> !IsPathIn(folders[j], path)
  {
    if folders == [] then None
    else if IsPathIn(folders[0], path) then Some(folders[0])
    else
      var r := FirstFolder(folders[1..], path);
      assert forall i :: 1 <= i < |folders| ==> folders[i] == folders[1..][i - 1];
      if r.Some? then FirstFolderShift(folders, path, r.value); r else r
  }

  /** The first match in the tail, after a head that does not match, is the
      first match in the whole list. */
  lemma FirstFolderShift(folders: seq<string>, path: string, v: string)
    requires folders != [] && !IsPathIn(folders[0], path)
    requires exists i :: 0 <= i < |folders[1..]| && folders[1..][i] == v && IsPathIn(folders[1..][i], path)
                         && forall j :: 0 <= j < i ==> !IsPathIn(folders[1..][j], path)
    ensures exists i :: 0 <= i < |folders| && folders[i] == v && IsPathIn(folders[i], path)
                        && forall j :: 0 <= j < i ==> !IsPathIn(folders[j], path)
  {
    var rest := folders[1..];
    var i :| 0 <= i < |rest| && rest[i] == v && IsPathIn(rest[i], path)
             && forall j :: 0 <= j < i ==> !IsPathIn(rest[j], path);
    assert folders[i + 1] == rest[i];
    forall j | 0 <= j < i + 1
      ensures !IsPathIn(folders[j], path)
    {
      if j > 0 {
        assert folders[j] == rest[j - 1];
      }
    }
    assert 0 <= i + 1 < |folders| && folders[i + 1] == v && IsPathIn(folders[i + 1], path)
           && forall j :: 0 <= j < i + 1 ==> !IsPathIn(folders[j], path);
  }

  /** `matching_destination_folder` and `matching_ignore_folder`: the same
      search, over `destination_folders` and `destination_folders_ignore`. */
  method MatchingFolder(folders: seq<string>, path: string) returns (r: Option<string>)
    ensures r == FirstFolder(folders, path)
  {
    var k := 0;
    while k < |folders|
      invariant k <= |folders|
      invariant FirstFolder(folders, path) == FirstFolder(folders[k..], path)
    {
      assert folders[k..][0] == folders[k] && folders[k..][1..] == folders[k + 1..];
      if IsPathIn(folders[k], path) {
        return Some(folders[k]);
      }
      k := k + 1;
    }
    assert folders[k..] == [];
    r := None;
  }

  /** `url_starts_with(url, prefix)`, with `urlsplit` given. */
  predicate UrlIn(urlsplit: string -> UrlParts, url: string, prefix: string) {
    UrlStartsWith(urlsplit(url), urlsplit(prefix))
  }

  /** The first of `prefixes` that `url` starts with. */
  function FirstRemotePrefix(prefixes: seq<string>, url: string, urlsplit: string -> UrlParts): (r: Option<string>)
    ensures r.None? <==> forall i :: 0 <= i < |prefixes| ==> !UrlIn(urlsplit, url, prefixes[i])
    ensures r.Some? ==> exists i :: 0 <= i < |prefixes| && prefixes[i] == r.value
                                    && UrlIn(urlsplit, url, prefixes[i])
                                    && forall j :: 0 <= j < i ==> !UrlIn(urlsplit, url, prefixes[j])
  {
    if prefixes == [] then None
    else if UrlIn(urlsplit, url, prefixes[0]) then Some(prefixes[0])
    else
      var r := FirstRemotePrefix(prefixes[1..], url, urlsplit);
      assert forall i :: 1 <= i < |prefixes| ==> prefixes[i] == prefixes[1..][i - 1];
      r
  }

  /** `matching_destination_remote` and `matching_ignore_remote`: the same
      search, over `destination_remotes` and `destination_remotes_ignore`. */
  method MatchingRemote(prefixes: seq<string>, url: string, urlsplit: string -> UrlParts) returns (r: Option<string>)
    ensures r == FirstRemotePrefix(prefixes, url, urlsplit)
  {
    var k := 0;
    while k < |prefixes|
      invariant k <= |prefixes|
      invariant FirstRemotePrefix(prefixes, url, urlsplit) == FirstRemotePrefix(prefixes[k..], url, urlsplit)
    {
      assert prefixes[k..][0] == prefixes[k] && prefixes[k..][1..] == prefixes[k + 1..];
      if UrlIn(urlsplit, url, prefixes[k]) {
        return Some(prefixes[k]);
      }
      k := k + 1;
    }
    assert prefixes[k..] == [];
    r := None;
  }

  /** A folder that is configured leads itself, so a repository at a
      configured folder always matches some folder. */
  lemma ConfiguredFolderMatches(folders: seq<string>, i: nat)
    requires i < |folders|
    ensures FirstFolder(folders, folders[i]).Some?
  {
    IsPathInOrder(folders[i], folders[i], folders[i]);
  }
}
