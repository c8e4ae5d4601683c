/** The older copy of the git output readers in repos/git.py. Its field
    splitters and record loop are the ones in rgit/git.py; it differs in
    reading the last character of the output unconditionally, so empty
    output fails, and in building a remote's key prefix without dropping
    trailing dots. */
module LegacyGit {
  import opened Wrappers
  import opened PyStr
  import opened Porcelain
  import opened GitConfig

  /** `stdout[-1]` on empty output raises before the NUL check. */
  function LegacyRecords(stdout: string): (r: Result<seq<string>>)
    ensures stdout == [] ==> r == Err(IndexError)
    ensures stdout != [] ==> r == Records(stdout)
  {
    if stdout == [] then Err(IndexError)
    else if stdout[|stdout| - 1] != NUL then Err(AssertionError)
    else Ok(Split(stdout[..|stdout| - 1], NUL))
  }

  function LegacyParseStatus(stdout: string): Result<seq<StatusEntry>>
  {
    var records :- LegacyRecords(stdout);
    ParseRecords(records)
  }

  /** `process_status_porcelain_v2_output` of repos/git.py. */
  method LegacyProcessStatusOutput(stdout: string) returns (r: Result<seq<StatusEntry>>)
    ensures r == LegacyParseStatus(stdout)
  {
    if stdout == [] {
      return Err(IndexError);
    }
    if stdout[|stdout| - 1] != NUL {
      return Err(AssertionError);
    }
    r := ProcessRecords(Split(stdout[..|stdout| - 1], NUL));
  }

  /** The two parsers agree on every non-empty output; the older one rejects
      the empty output git prints for a clean work tree, which the newer one
      reads as no entries. */
  lemma LegacyAgrees(stdout: string)
    ensures stdout != [] ==> LegacyParseStatus(stdout) == ParseStatus(stdout)
    ensures LegacyParseStatus("") == Err(IndexError) && ParseStatus("") == Ok([])
  {
  }

  /** Round trip through the older parser: every non-empty list of
      well-formed entries is read back from what git writes for it, and a
      rename still takes two records. */
  lemma LegacyRoundTrip(entries: seq<StatusEntry>)
    requires entries != []
    requires forall i :: 0 <= i < |entries| ==> WellFormedEntry(entries[i])
    ensures LegacyParseStatus(Encode(entries)) == Ok(entries)
    ensures |LegacyRecords(Encode(entries)).value| == |entries| + RenameCount(entries)
  {
    StreamRoundTrip(entries);
    assert Encode(entries) != [];
    EntryCount(LegacyRecords(Encode(entries)).value);
  }

  /** The key prefix repos/git.py walks a remote's keys with. */
  function LegacyRemotePrefix(name: string): string
  {
    "remote." + name + "."
  }

  /** `enumerate_remotes` of repos/git.py. */
  method LegacyEnumerateRemotes(remoteOutput: string, configText: string -> string)
    returns (r: Result<seq<(string, Config)>>)
    ensures r == Remotes(SplitLines(remoteOutput), configText, LegacyRemotePrefix)
  {
    var names := SplitLines(remoteOutput);
    var result: seq<(string, Config)> := [];
    var k := 0;
    PrependNothing(Remotes(names, configText, LegacyRemotePrefix));
    while k < |names|
      invariant k <= |names|
      invariant Remotes(names, configText, LegacyRemotePrefix)
             == Prepend(result, Remotes(names[k..], configText, LegacyRemotePrefix))
    {
      var entries := WalkConfigRegexOutput(configText(names[k]), LegacyRemotePrefix(names[k]));
      if entries.Err? {
        return Err(entries.error);
      }
      var config := Group(entries.value);
      assert names[k..][1..] == names[k + 1..];
      RemotesStep(names[k..], configText, LegacyRemotePrefix);
      PrependOne(result, (Strip(names[k]), config), Remotes(names[k + 1..], configText, LegacyRemotePrefix));
      result := result + [(Strip(names[k]), config)];
      k := k + 1;
    }
    assert names[k..] == [];
    PrependAll(result);
    r := Ok(result);
  }

  /** Both copies walk the same keys for a remote whose name is not empty
      and does not end in a dot; for a name ending in a dot they differ. */
  lemma RemotePrefixesAgree(name: string)
    ensures name != [] && name[|name| - 1] != '.' ==> RemotePrefix(name) == LegacyRemotePrefix(name)
    ensures RemotePrefix("o.") != LegacyRemotePrefix("o.")
  {
    if name != [] && name[|name| - 1] != '.' {
      var s := "remote." + name;
      assert s[|s| - 1] == name[|name| - 1];
      assert RStripDots(s) == s;
    }
    assert "remote." + "o." == "remote.o.";
    assert RStripDots("remote.o.") == "remote.o" by {
      assert "remote.o."[..8] == "remote.o";
    }
    assert "remote.o" + "." == "remote.o.";
    assert RemotePrefix("o.") == "remote.o.";
    assert LegacyRemotePrefix("o.") == "remote.o..";
  }
}
