# rgit, modelled in Dafny

rgit is a command-line tool that walks a configured list of git
repositories and reports what in each still needs attention. It runs `git`
and turns the text git prints into per-repository findings:

- uncommitted changes, counted by porcelain status code;
- local branches with no upstream in a destination remote ("Refs");
- commits that are not pushed yet ("Commits");
- remote configuration rgit does not understand;
- which `.gitignore` group ignores each ignored file.

This project models the logic between git's output and those findings.
Everything git prints comes in as a plain string, or as a function from a
name to a string where the source asks git once per name.

- **Wrappers, PyStr, OrderedDict** are shared groundwork:
  - Python exceptions become the `Error` values of a `Result`;
  - the `str` methods the source relies on (`partition`, `split`,
    `splitlines`, `strip`, `PurePosixPath.parts`) are written out once;
  - an insertion-ordered `dict` is a sequence of pairs with distinct keys.
- **Porcelain** and **LegacyGit** model the `git status --porcelain=v2 -z`
  parser in `rgit/git.py` and its older copy in `repos/git.py`.
- **GitConfig** models the config-output splitters: `get_config`,
  `walk_config_regex_output`, `enumerate_remotes` and `is_bare`.
- **Tools, Paths, SortIndex** model the pure helpers of `rgit/tools.py`.
- **Refspec** models `match_refspec`.
- **RepoStatus** models the status-line counting, the folder and remote
  matching, and the existence dispatch of `rgit status`.
- **CommitStatistics** models `get_repo_commit_statistics` phase by phase,
  in five steps:
  1. remote configuration filtering;
  2. the refspec table;
  3. classification of `show-ref` lines;
  4. upstream resolution;
  5. counting.
- **StatusTable** models the table the status command builds (the class
  `StatisticsTable`) and the final column reordering.
- **Ignored** models the ignore-group reader: a class with its cache, and
  the `check-ignore` output handling.
- **Registry** models the command registry.

Loops in the source are methods with loop invariants, each proved equal to
a specification function. The properties the source promises are proved
about those functions as lemmas. The source's state is modelled as classes:

- the command table;
- the ignore-file cache;
- the statistics table.

## Model

| member | source | states |
|---|---|---|
| Porcelain.TakeFields | rgit/git.py:82-91 | cutting `count` space-terminated fields off the front, when it succeeds, gives exactly `count` fields |
| Porcelain.TakeFieldsRejoin | rgit/git.py:82-91 | the fields that were cut off, rejoined with single spaces in front of the remainder, give back the input line |
| Porcelain.TakeFieldsTerminated | rgit/git.py:82-91 | space-free fields written out with a trailing space each are cut back into exactly those fields and the remainder |
| Porcelain.OrdinarySplitRejoin | rgit/git.py:75-93 | a line that splits as an ordinary record is xy, a space, sub, a space, five space-terminated fields and the path, which may hold spaces |
| Porcelain.OrdinaryEncodeSplit | rgit/git.py:75-93 | an ordinary record written out splits back into the same change and path |
| Porcelain.UnmergedSplitRejoin | rgit/git.py:52-73 | an unmerged line that parses gives fields of the right widths, without spaces, that rejoin into the line |
| Porcelain.UnmergedEncodeSplit | rgit/git.py:52-73 | an unmerged entry written out parses back to the same entry |
| Porcelain.ProcessRecords | rgit/git.py:10-29 | the `pop(0)` loop gives exactly the fold over the records: it dispatches on the tag, requires a space after it, and a `2` record takes the next record as its second path |
| Porcelain.ProcessStatusOutput | rgit/git.py:5-29 | the whole parse: empty output gives no entries, otherwise the text must end in NUL and is split at NUL before the records are parsed |
| Porcelain.EntryCount | rgit/git.py:23-24 | the number of entries is the number of records minus the number of rename records |
| Porcelain.EmptyOutput | rgit/git.py:7-10 | empty output parses to the empty list |
| Porcelain.MalformedOutput | rgit/git.py:8-28 | output not ending in NUL is an assertion error, and an unknown tag is a ValueError |
| Porcelain.EncodeRecordsNoNul | rgit/git.py:9 | well-formed entries written as records contain no NUL, so splitting at NUL keeps them whole |
| Porcelain.EntryRoundTrip | rgit/git.py:11-26 | one well-formed entry written as its records (two for a rename) parses back to itself, whatever follows |
| Porcelain.RecordsRoundTrip | rgit/git.py:10-29 | a list of well-formed entries written as records parses back to the same list |
| Porcelain.StreamRoundTrip | rgit/git.py:5-29 | a list of well-formed entries written as NUL-terminated output parses back to the same list |
| LegacyGit.LegacyRecords | repos/git.py:7-8 | empty output is an error (the last character is read unconditionally); otherwise the records are those of the newer parser |
| LegacyGit.LegacyProcessStatusOutput | repos/git.py:5-28 | the older parse loop gives the fold over the records, with the unconditional NUL check |
| LegacyGit.LegacyAgrees | repos/git.py:7-8 | the two parsers agree on all non-empty output and differ on empty output: the newer one gives `[]`, the older one an error |
| LegacyGit.LegacyRoundTrip | repos/git.py:5-28 | a non-empty list of well-formed entries written out parses back, and its record count is the entry count plus the rename count |
| LegacyGit.LegacyEnumerateRemotes | repos/git.py:117-124 | the older `enumerate_remotes` loop groups each remote's config under the prefix `remote.<name>.` |
| LegacyGit.RemotePrefixesAgree | repos/git.py:103-106 | both copies use the same key prefix unless the remote name ends in a dot, which only the newer copy strips |
| GitConfig.ConfigLine | rgit/git.py:218-222 | a line without a space cannot be unpacked into a key and a value |
| GitConfig.ConfigLineAccepted | rgit/git.py:218-222 | an accepted line has a space and starts with the prefix, and its key and value come out stripped |
| GitConfig.ConfigLineRoundTrip | rgit/git.py:218-222 | a stripped key and value printed after the prefix and a space come back unchanged |
| GitConfig.WalkConfigRegexOutput | rgit/git.py:216-222 | the generator's loop gives one (key, value) pair per line, in line order, or the first line's error |
| GitConfig.ConfigRoundTrip | rgit/git.py:216-222 | entries printed as `git config --get-regex` prints them are read back as the same entries |
| GitConfig.ForeignKey | rgit/git.py:219 | a key outside the prefix is an assertion error |
| GitConfig.GetConfig | rgit/git.py:104-109 | non-empty text that does not end in NUL is an assertion error, and only that; accepted text yields at least one value |
| GitConfig.GetConfigEmpty | rgit/git.py:106-109 | empty text yields exactly one empty value |
| GitConfig.GetConfigValues | rgit/git.py:106-109 | accepted non-empty text is exactly its NUL-free values, each followed by a NUL |
| GitConfig.GetConfigRoundTrip | rgit/git.py:104-109 | NUL-free values written NUL-terminated are yielded back in order |
| GitConfig.Group | rgit/git.py:135-137 | the `setdefault(key, []).append(value)` loop gives the grouping fold |
| GitConfig.GroupValues | rgit/git.py:135-137 | each key maps to the list of its values in order of appearance, and a key that never appears is absent |
| GitConfig.ConfigPrefix | rgit/git.py:113-117 | the prefix handed to the splitter always ends in a dot, after trailing dots were stripped |
| GitConfig.EnumerateRemotes | rgit/git.py:131-138 | one (stripped name, grouped config) pair per line of `git remote`, each read under `remote.<name>.` |
| GitConfig.IsBare | rgit/git.py:141-143 | stripped `true` and `false` map to booleans; any other output is a KeyError |
| GitConfig.IsBareRoundTrip | rgit/git.py:141-143 | what git prints for a bare or non-bare repository maps back to that answer |
| Tools.StrictInt | rgit/tools.py:243-245 | accepted exactly when the text is one or more decimal digits, with at most one trailing newline as Python's `$` admits; otherwise an assertion error |
| Tools.StrictIntShowNat | rgit/tools.py:243-245 | every natural number written in decimal, with or without a trailing newline, is read back as itself |
| Tools.StrictIntRejects | rgit/tools.py:243-245 | the empty string, signs, leading or trailing spaces and two newlines are rejected |
| Tools.CombineBoxSymbols | rgit/tools.py:48-82 | None gives the second glyph, a space or an equal glyph gives the first, and an unlisted pair is NotImplementedError |
| Tools.CombineByJunctions | rgit/tools.py:55-82 | any other pair combines as the junction table says, and fails when the table has no entry |
| Tools.CombineStaysInBox | rgit/tools.py:48-82 | a successful combination is one of the two glyphs given or a glyph of the box |
| Tools.TitleJoins | rgit/tools.py:22-82 | the combinations the table drawing needs, worked out on the box in use |
| Paths.IsPathInOrder | rgit/tools.py:248-249 | containment holds exactly when the parent's parts are a prefix of the child's; it is reflexive and transitive |
| Paths.PathRelativeToOrUnchanged | rgit/tools.py:252-256 | a relative result appended to the root's parts gives the target's parts; the target comes back unchanged exactly when it is not under the root, or the root is empty and the target absolute |
| Paths.RelativeRoundTrip | rgit/tools.py:252-256 | a name joined under a relative root comes back as that name alone |
| Paths.UrlStartsWith | rgit/tools.py:200-224 | different schemes never match; different hosts match only a scheme-only prefix; with the same scheme and host, a URL starts with the prefix exactly when (if either path is non-empty) both paths are absolute or both relative and the prefix's path parts lead the URL's, and a non-empty query or fragment of the prefix equals the URL's |
| Paths.UrlStartsWithReflexive | rgit/tools.py:200-224 | every URL starts with itself |
| Paths.ChildUrl | rgit/tools.py:209-224 | a URL one path component below a prefix starts with that prefix |
| Paths.HostOnlyPrefix | rgit/tools.py:207-219 | a prefix with the same host and an empty path does not take a URL with a path, but the prefix `/` does |
| SortIndex.GenSortIndex | rgit/tools.py:227-240 | the result is a permutation of the column positions |
| SortIndex.GenSortIndexPermutation | rgit/tools.py:234-239 | every column position appears in the result exactly once |
| SortIndex.BeforePlaced | rgit/tools.py:236-239 | a column of smaller rank is placed first, with the ranks as written and with the corrected ranks |
| SortIndex.FirstThenUnlisted | rgit/tools.py:232-238 | `sort_first` columns come in their listed order and before every unlisted column |
| SortIndex.UnlistedByName | rgit/tools.py:235-238 | unlisted columns are ordered by name |
| SortIndex.LastAfterOthers | rgit/tools.py:233 | the ranks as written put a `sort_last` column after every other column when the table has more columns than the two lists hold together |
| SortIndex.ShortHeaderMisplacesLast | rgit/tools.py:233 | on a four-column header the column meant to be last is shown before an unlisted one |
| SortIndex.GenSortIndexCorrected | rgit/tools.py:227-240 | the corrected ranking is also a permutation of the column positions |
| SortIndex.CorrectedLastAfterOthers | rgit/tools.py:233 | with the corrected ranks a `sort_last` column follows every other column, and the `sort_last` columns keep their listed order |
| Refspec.LiteralMatch | rgit/cli/status.py:364-366 | a spec without `*` maps exactly the equal ref to the other spec, whatever the ref's shape |
| Refspec.MixedSidesFail | rgit/cli/status.py:364-369 | a spec and an other spec that disagree on having a `*` are an assertion error |
| Refspec.WildcardMatch | rgit/cli/status.py:371-388 | with `*` on both sides and slash-bounded fixed parts, a ref is mapped exactly when it starts with the prefix and ends with the suffix, to the other prefix, the slice between (empty when the two overlap) and the other suffix |
| Refspec.LongMatchRoundTrip | rgit/cli/status.py:380-388 | when the ref is at least as long as the prefix and suffix together, it is prefix + infix + suffix, and matching the result with the sides swapped gives the ref back |
| Refspec.OverlapFalseMatch | rgit/cli/status.py:380-388 | `refs/x` is not of the form `refs/*/x`, yet it is mapped to `refs//y`, which maps back to `refs//x`; the corrected matcher rejects it |
| Refspec.StrictMatchIff | rgit/cli/status.py:359-388 | the corrected matcher maps a ref exactly when it is prefix + infix + suffix, and then to the other prefix + infix + suffix |
| Refspec.StrictRoundTrip | rgit/cli/status.py:359-388 | a corrected match, matched again with the sides swapped, gives the ref back |
| Refspec.StrictMatchBack | rgit/cli/status.py:359-388 | the same for every pair of specs, literal or wildcard |
| Refspec.StrictAgreesOnLongRefs | rgit/cli/status.py:380-388 | the corrected matcher differs from the one as written only on refs shorter than the prefix and suffix together |
| RepoStatus.Dispatch | rgit/cli/status.py:70-78 | both exist, or a gitdir with no worktree answer: inspect; gitdir without worktree: "missing worktree"; no gitdir: "missing repo" |
| RepoStatus.NoteStatistics | rgit/cli/status.py:75-78 | the note is the one statistic recorded |
| RepoStatus.StatusKey | rgit/cli/status.py:153-157 | a line yields a key exactly when it starts with two status codes and a space; a blank code shows as a bullet; any other line fails on `m.groups()` |
| RepoStatus.GetRepoStatusStats | rgit/cli/status.py:144-159 | the counting loop gives the fold over the lines; a bare repository or empty output changes nothing |
| RepoStatus.StatusCountsTally | rgit/cli/status.py:151-159 | after counting, each key has grown by the number of lines with that key, and keys no line has keep their value |
| RepoStatus.StatusCountsRejects | rgit/cli/status.py:153-154 | one line that does not match the pattern fails the whole count |
| RepoStatus.StatusCountsAccepts | rgit/cli/status.py:151-159 | when every line matches and every two-character column holds a count, counting succeeds |
| RepoStatus.FirstFolder | rgit/cli/status.py:190-206 | none when no configured folder contains the path, otherwise the first that does |
| RepoStatus.MatchingFolder | rgit/cli/status.py:190-206 | the search loop returns exactly that first folder |
| RepoStatus.FirstRemotePrefix | rgit/cli/status.py:184-200 | none when the URL starts with no configured prefix, otherwise the first prefix it starts with |
| RepoStatus.MatchingRemote | rgit/cli/status.py:184-200 | the search loop returns exactly that first prefix |
| RepoStatus.ConfiguredFolderMatches | rgit/cli/status.py:190-206 | every configured folder is matched by itself |
| CommitStatistics.GatherIgnoredKeys | rgit/cli/status.py:212-214 | the loop gives the whitespace-split words of every configured value, in order |
| CommitStatistics.SplitEach | rgit/cli/status.py:213-214 | the loop over the configured values gives each value's whitespace-split words, in order |
| CommitStatistics.IgnoredKeysRoundTrip | rgit/cli/status.py:212-214 | keys configured one per value are read back as those keys |
| CommitStatistics.DiscardGet | rgit/cli/status.py:228-238 | after the pops, a popped key is absent and every other key keeps its values |
| CommitStatistics.DiscardAppend | rgit/cli/status.py:228-238 | popping two lists of keys one after the other is popping their concatenation |
| CommitStatistics.Place | rgit/cli/status.py:219-224 | a remote without `url` is a KeyError; a remote without `fetch` is skipped |
| CommitStatistics.PlaceKept | rgit/cli/status.py:219-246 | a placed remote keeps its url and fetch lists, goes to the destinations exactly when its last URL matches a destination prefix, and leftover keys are those not dropped |
| CommitStatistics.PopAll | rgit/cli/status.py:231-234 | popping keys one after the other in a loop is the pop fold over those keys, so the keys it popped are absent afterwards (by `DiscardGet`) |
| CommitStatistics.PlaceRemote | rgit/cli/status.py:219-246 | the body of the remote loop, with its pops in the source's order, places a remote exactly as the placement function does |
| CommitStatistics.SortRemotesLoop | rgit/cli/status.py:218-246 | the remote loop with its inner pop loops gives the sorting fold |
| CommitStatistics.SortRemotesPlaces | rgit/cli/status.py:218-246 | each remote lands in the destination or other set by its own placement, and its unsupported keys are recorded when any are left |
| CommitStatistics.SortRemotesElsewhere | rgit/cli/status.py:218-246 | a remote name the loop does not see keeps its entries in all three sets |
| CommitStatistics.ParseRefspec | rgit/cli/status.py:260-263 | an empty refspec, or a bare `+`, is an IndexError |
| CommitStatistics.ParseRefspecShape | rgit/cli/status.py:260-268 | a parsed refspec is `src:dst`, optionally forced with `+`, with no colon in `src` |
| CommitStatistics.ParseRefspecRoundTrip | rgit/cli/status.py:260-268 | `src:dst` and `+src:dst` both parse back to (src, dst) |
| CommitStatistics.NegativeRefspecSkipped | rgit/cli/status.py:264-266 | a negative refspec, forced or not, is skipped |
| CommitStatistics.BuildRefspecTable | rgit/cli/status.py:254-269 | the nested loops give the table built from every refspec, destination remotes first |
| CommitStatistics.AddAllRefspecs | rgit/cli/status.py:256-269 | the outer loop over one list of remotes stops at the first refspec that does not parse; otherwise it assigns every entry of every remote, in order, into an empty table |
| CommitStatistics.AddRemoteRefspecs | rgit/cli/status.py:258-269 | the inner loop over one remote's refspecs stops at the first that does not parse; otherwise it assigns that remote's entries, in order, into the table it is given |
| CommitStatistics.TableEntriesAppend | rgit/cli/status.py:256 | the entries of the destination remotes come before those of the other remotes |
| CommitStatistics.TableLastWins | rgit/cli/status.py:269 | the table maps each destination pattern to the value of its last entry, counting the destination remotes' entries first |
| CommitStatistics.SplitRefLine | rgit/cli/status.py:275 | a `show-ref` line splits at its first space, and a line without one is a ValueError |
| CommitStatistics.SplitRefLineRoundTrip | rgit/cli/status.py:275 | an object id and a name joined by a space split back into the two |
| CommitStatistics.FirstMatch | rgit/cli/status.py:278-283 | a ref is remote-tracking under the first table entry, in insertion order, whose pattern maps it; otherwise no entry maps it |
| CommitStatistics.FindRemoteRef | rgit/cli/status.py:278-283 | the loop with `break` and `for-else` returns exactly that first entry |
| CommitStatistics.FirstMatchErr | rgit/cli/status.py:278-283 | the search fails exactly when, before any entry maps the ref, one entry's matcher fails, and it fails with that entry's error |
| CommitStatistics.UpstreamStep | rgit/cli/status.py:293-301 | one configuration key is accepted exactly when it is remote, merge, push or pushremote; remote and merge replace what was read, the other two change nothing |
| CommitStatistics.ReadBranchConfig | rgit/cli/status.py:290-302 | the loop parses one configuration line at a time, as the generator of rgit/git.py:216-222 does, and checks its key before the next line; it gives the line-by-line fold |
| CommitStatistics.BranchConfigEntries | rgit/cli/status.py:290-302 | the line-by-line walk succeeds exactly when every line parses and every parsed key is accepted, and then reads the same upstream as the key loop over the parsed entries |
| CommitStatistics.BadKeyFirst | rgit/cli/status.py:300-301 | a line with an unknown key is the "unrecognized branch config" error whatever the later lines hold, malformed ones included |
| CommitStatistics.BranchUpstreamLast | rgit/cli/status.py:292-301 | reading succeeds exactly when every key is remote, merge, push or pushremote; the last remote and the last merge win |
| CommitStatistics.RefKind | rgit/cli/status.py:284-308 | a name must start with `refs`; `refs/heads/...` is a branch; tags and notes are skipped; anything else is an error |
| CommitStatistics.ClassifyShowRef | rgit/cli/status.py:274-308 | the `show-ref` loop gives the classification fold over the output's lines |
| CommitStatistics.ClassifyLine | rgit/cli/status.py:275-308 | the body of the `show-ref` loop for one line, with the search of the table and the walk of the branch configuration, classifies the line exactly as the one-line step does |
| CommitStatistics.ClassifyRefCases | rgit/cli/status.py:278-308 | one line updates the remote-tracking refs, is skipped, or adds a local branch, and nothing else |
| CommitStatistics.ClassifyRefsSound | rgit/cli/status.py:274-308 | every remote-tracking ref recorded maps back through the entry that found it, and every local branch is one no entry maps |
| CommitStatistics.Upstream | rgit/cli/status.py:316-318 | a tracked branch's upstream is the remote ref recorded for its (remote, merge); a missing one is a KeyError |
| CommitStatistics.ResolveUpstreams | rgit/cli/status.py:310-318 | the loop over local branches gives the resolution fold |
| CommitStatistics.ResolvePartition | rgit/cli/status.py:310-318 | resolution succeeds exactly when every non-dangling branch has an upstream; the dangling list is the dangling branches in order, and the dangling and tracking lists together count every branch |
| CommitStatistics.CollectRevs | rgit/cli/status.py:323-325 | the loop collects every rev-list line of every tracking branch |
| CommitStatistics.RevsCount | rgit/cli/status.py:323-327 | the commit count is the sum of the line counts, and it is zero exactly when every rev-list is empty |
| CommitStatistics.CountedColumns | rgit/cli/status.py:320-327 | "Refs" holds the dangling count and "Commits" the commit count, each set only when non-zero |
| CommitStatistics.GetRepoCommitStatistics | rgit/cli/status.py:208-327 | the whole computation equals the composition of its phases |
| CommitStatistics.CommitStatisticsColumns | rgit/cli/status.py:208-327 | no column other than "Unsupported Remote Config", "Refs" and "Commits" changes |
| CommitStatistics.UnsupportedStops | rgit/cli/status.py:247-249 | when a remote has unsupported keys, those are recorded and "Refs" and "Commits" keep their values |
| CommitStatistics.NoDestinationNoChange | rgit/cli/status.py:251-252 | with no destination remote, nothing is recorded |
| StatusTable.IndexIn | rgit/cli/status.py:133-134 | `list.index`: the first position holding the name |
| StatusTable.Pad | rgit/cli/status.py:138-139 | the row keeps its cells and is grown with blanks to the wanted length |
| StatusTable.PlaceColumn | rgit/cli/status.py:132-140 | one column: its index is found in the header or appended, the row is padded to reach it, and the value is set there |
| StatusTable.FillHeader | rgit/cli/status.py:127-140 | the header only grows, by appending names it did not hold; existing columns keep their index; every statistic's name ends up in it |
| StatusTable.FillValues | rgit/cli/status.py:131-140 | the new row holds each statistic's value at its column's index |
| StatusTable.FillColumns | rgit/cli/status.py:131-140 | the column loop places one column per statistic, in the statistics' order, exactly as the filling fold does |
| StatusTable.StampedNumber | rgit/cli/status.py:129-130 | the "#" statistic holds the new row's position |
| StatusTable.StatisticsTable.RenderStatisticsRow | rgit/cli/status.py:124-142 | empty statistics add nothing; otherwise the grown header replaces the first row, the rows already there are left as they are (no back-fill), and the new row is appended; the table keeps its invariant (distinct header names, no row wider than the header, "#" equal to the row's position) |
| StatusTable.RenderKeepsValid | rgit/cli/status.py:124-142 | appending a rendered row keeps the table's invariant |
| StatusTable.StatusSortIndex | rgit/cli/status.py:82-85 | the status command's column order is a permutation of the header's positions |
| StatusTable.SortStatisticsTable | rgit/cli/status.py:96-104 | the nested loops give every row's cells in sort order, with a blank for a cell the row does not have |
| StatusTable.ReorderRows | rgit/cli/status.py:99-103 | the outer loop gives one reordered row per row of the table, in order |
| StatusTable.SortRow | rgit/cli/status.py:100-102 | the inner loop puts, at each position of the sort order, the row's cell of that column, or a blank past the row's end |
| StatusTable.ColumnsMoveTogether | rgit/cli/status.py:96-104 | each column lands at exactly one position, and every row holds its own cell of that column there, blank for a row rendered before the column existed |
| StatusTable.PermutedColumn | rgit/cli/status.py:98-102 | the same for any permutation of the column positions |
| Ignored.Nested | rgit/cli/ignored.py:235-236 | more than one open group is "nested groups are not supported yet" |
| Ignored.ReadIgnoreFileLines | rgit/cli/ignored.py:219-238 | the line loop with its group stack gives the group fold |
| Ignored.ReadIgnoreFileShape | rgit/cli/ignored.py:226-237 | one group list per line, in line order, each with at most one group: an opening line belongs to its group, a closing line does not |
| Ignored.ReadIgnoreFileErrors | rgit/cli/ignored.py:227-236 | an invalid group name, an opening line inside an open group, or a closing line with none open fails the read |
| Ignored.UnopenedClose | rgit/cli/ignored.py:233-234 | a closing marker with no open group pops an empty list |
| Ignored.GroupsAt | rgit/cli/ignored.py:215-216 | the group list of a line from 1 to the line count; the assertion admits one past the end, which the indexing then refuses |
| Ignored.IgnoreGroupReader.constructor | rgit/cli/ignored.py:206-207 | the cache starts empty |
| Ignored.IgnoreGroupReader.GetGroups | rgit/cli/ignored.py:209-216 | the answer does not depend on the cache; a file is read only on its first request, and only a file that reads without error is cached |
| Ignored.AskTwice | rgit/cli/ignored.py:212-214 | two requests for one file read it once when it reads without error |
| Ignored.SplitQuads | rgit/cli/ignored.py:99-102 | the output is cut into exactly as many (source, line, pattern, path) quads as files were asked about |
| Ignored.SplitQuadsRoundTrip | rgit/cli/ignored.py:99-104 | NUL-free quads written as `check-ignore -z` output split back into the same quads |
| Ignored.SplitQuadsMiscount | rgit/cli/ignored.py:100 | output for a different number of files is an assertion error |
| Ignored.QuadSource | rgit/cli/ignored.py:105-107 | the ignore file and the line number are both empty or both present, and the line number must be strictly decimal |
| Ignored.GroupLabel | rgit/cli/ignored.py:109-115 | None is "<failed to identify matching ignore pattern>", no group is "-", one group is its name, more is an assertion error |
| Ignored.Classify | rgit/cli/ignored.py:104-123 | every kept entry passes the `--group` whitelist and is not in `--not-in-group` |
| Ignored.ClassifyKeepsAll | rgit/cli/ignored.py:116-119 | with no group filters every entry is kept |
| Ignored.ClassifyIgnored | rgit/cli/ignored.py:99-123 | the loop over the quads, with the reader, gives the classification of the split output |
| Registry.Register | rgit/cli/registry.py:4-10 | no names is an IndexError; a primary name already registered is a ValueError |
| Registry.Lookup | rgit/cli/registry.py:19-22 | None exactly for names not registered |
| Registry.RegisterThenLookup | rgit/cli/registry.py:4-22 | after a registration the new name gives its handler, every other name keeps its answer, and the registration is enumerated last with the other names as its aliases |
| Registry.AliasesNotNames | rgit/cli/registry.py:6-9 | aliases are stored but not looked up, and a later command may take an earlier alias as its name |
| Registry.RegisterAllOrder | rgit/cli/registry.py:4-16 | registering commands in turn appends one entry per command, in order, under its primary name, and the names stay distinct |
| Registry.RegisterAllKeeps | rgit/cli/registry.py:4-10 | a registration never changes what is already in the table |
| Registry.CommandRegistry.Command | rgit/cli/registry.py:4-11 | the decorator gives the handler back and registers it, or fails and leaves the table unchanged |
| Registry.CommandRegistry.GetCommandHandler | rgit/cli/registry.py:19-22 | None for names not registered, the registered handler otherwise |
| Registry.CommandRegistry.EnumerateCommandHandlers | rgit/cli/registry.py:14-16 | one registration per table entry, each for a registered name |

## Left out

- Running git, the asyncio event loop, the terminal status messages and the
  table drawing or JSON printing are not modelled. What git prints is a
  parameter, one string per call or a function from a name to a string.
- `urllib.parse.urlsplit` is a parameter: URLs come in already split into
  their five parts.
- The regex engine is not modelled. The status-line pattern is checked
  directly on the first three characters. `\s+` splitting uses
  the whole `str.isspace` set, Unicode white space included
  (`PyStr.IsSpace`). Group names are lower-cased for the ASCII capitals
  and for the Kelvin sign U+212A, which `str.lower` maps to `k`; no other
  character lowers to a valid group-name character, so Python's full
  case-mapping table is not modelled.
- Tools.StrictInt accepts the ASCII digits `0`-`9` only. Python's `\d`
  also matches every other Unicode decimal digit (category Nd), and
  `int()` reads those digits too; such text is rejected by the model.
- Path decoration for output (`_decorate_path_for_output`,
  `abbreviate_path_for_shell`) depends on the current and home
  directories. The displayed path is a parameter of
  `StatisticsTable.RenderStatisticsRow`.
- `get_repo_remotes` (rgit/cli/status.py:161-182) is not part of this
  model: it records sorted remote names and reads no more than the folder
  and remote matching modelled in RepoStatus.
- The repository filter of `execute` (`opts.folders`) and the bare and
  `toplevel` checks of the ignore command are left to the caller. So is
  the `git status --ignored` call that lists the ignored files.
- CommitStatistics.SortRemotesLoop takes the remotes already enumerated.
  In the source the enumeration is lazy: a remote's configuration is read
  only when the loop reaches it. When every remote's configuration reads
  without error the result is the same. When more than one remote is
  malformed, the error raised can differ. Say remote 1 has no `url` and
  remote 2 has a configuration line with no value. The source raises the
  KeyError of rgit/cli/status.py:219 before it reads remote 2. The model
  enumerates first and reports the ValueError of rgit/git.py:218.
- Ignored.Classify returns the kept entries as a flat list of
  (group, worktree, path, source) records, not the nested
  `results[group][worktree][path]` dictionary. The later printing only
  reads that dictionary.
- CommitStatistics.FirstMatch searches the refspec table with
  `Refspec.MatchRefspecStrict`, the corrected matcher from the first
  finding below, not with `match_refspec` as rgit/cli/status.py:279 calls
  it. The two differ only on refs shorter than a wildcard pattern's fixed
  parts, such as `refs/x` against `refs/*/x`: as written that ref is
  mapped, corrected it is not (`Refspec.OverlapFalseMatch`). On every
  other ref they agree (`Refspec.StrictAgreesOnLongRefs`).
- CommitStatistics.FindRemoteRef is proved equal to FirstMatch, so it uses
  the corrected matcher too.
- CommitStatistics.ClassifyLine and CommitStatistics.ClassifyShowRef
  classify with FirstMatch, so a short ref that the code as written
  records as remote-tracking is, in the model, a local branch or an error.
- CommitStatistics.ClassifyRefsSound states that every recorded
  remote-tracking ref maps back through its entry. This holds for the
  corrected matcher only: with the code as written, `refs/x` is recorded
  through `refs/*/x` and maps back to `refs//x`.
- CommitStatistics.GetRepoCommitStatistics composes the phases above, so
  its ref classification uses the corrected matcher.
- StatusTable.StatusSortIndex orders the status table's columns with
  `SortIndex.GenSortIndexCorrected`, the corrected half of the second
  finding below, not with the `gen_sort_index` that
  rgit/cli/status.py:82-85 and 98 call. The two orders differ on the
  header `Unsupported Remote Config`, `•M`, `#`, `Path`. As written,
  `Unsupported Remote Config` is shown before `•M`; corrected, it is
  shown last (`SortIndex.ShortHeaderMisplacesLast`). When the header has
  more columns than the two lists hold together, the ranks as written
  also put `Unsupported Remote Config` after every other column
  (`SortIndex.LastAfterOthers`). The ranks as written are modelled and
  proved about in `SortIndex.GenSortIndex`.
- The refspec table is last-write-wins, with no `refs/remotes/<r>/HEAD`
  special case. Only tags and notes are skipped (no wip or stash
  handling), and earlier table rows are never back-filled, as in the
  code.
- Ignored.JoinPath joins the worktree and the ignore file with a plain
  `/` and does not normalise the result as `PurePosixPath` does. A
  worktree ending in `/` gives `//` in the reported ignore file.
- The stub commands Add, Remove, Cleanup and Foreach do nothing and are
  not modelled.

## Findings

| source | as written | input that shows it | evidently intended | confidence | as-written member | corrected member |
|---|---|---|---|---|---|---|
| rgit/cli/status.py:380-388 | prefix, infix and suffix are cut with slices that overlap when the ref is shorter than the pattern's prefix and suffix together, so the infix is empty and the ref still "matches" | ref `refs/x` with spec `refs/*/x` and other spec `refs/*/y` gives `refs//y`, and `refs//y` maps back to `refs//x`, not `refs/x` | a ref matches only when it is prefix + infix + suffix, so that matching back gives the ref | high, not executed | Refspec.OverlapFalseMatch | Refspec.MatchRefspecStrict |
| rgit/tools.py:233 | `sort_last` columns get rank `len(values) - len(sort_last) + i`, which on a short header falls below the rank of unlisted columns | header `Unsupported Remote Config`, `•M`, `#`, `Path`: `Unsupported Remote Config` gets rank 3 and the unlisted `•M` rank 6, so the column meant to be last is shown before `•M` | `sort_last` columns after every other column | high, not executed | SortIndex.ShortHeaderMisplacesLast | SortIndex.GenSortIndexCorrected |
