/** Parsing the output of the `git` commands the program runs (GitInfo.swift).
    Running the process is not modelled: its exit code and standard output are
    parameters, and so is the file-system test used to locate the binary. */
module GitInfo {
  import opened Optional
  import opened Text

  /** The places searched for the `git` binary, in order. */
  const GitLocations: seq<string> := ["/usr/local/bin/git", "/usr/bin/git"]

  /** The first of `paths` for which `exists` holds. */
  function FirstExisting(paths: seq<string>, isFile: string -> bool): (r: Option<string>)
    ensures r.None? <==> forall i :: 0 <= i < |paths| ==> !isFile(paths[i])
    ensures r.Some? ==> exists i :: (0 <= i < |paths| && paths[i] == r.value && isFile(paths[i])
      && forall j :: 0 <= j < i ==> !isFile(paths[j]))
    decreases |paths|
  {
    if |paths| == 0 then None
    else if isFile(paths[0]) then Some(paths[0])
    else
      var r := FirstExisting(paths[1..], isFile);
      assert forall i :: 1 <= i < |paths| ==> paths[i] == paths[1..][i - 1];
      r
  }

  /** Where `git` is installed: Homebrew's location wins over the system one. */
  function InstalledGitPath(isFile: string -> bool): (r: Option<string>)
    ensures isFile("/usr/local/bin/git") ==> r == Some("/usr/local/bin/git")
    ensures !isFile("/usr/local/bin/git") && isFile("/usr/bin/git") ==> r == Some("/usr/bin/git")
    ensures r.None? <==> !isFile("/usr/local/bin/git") && !isFile("/usr/bin/git")
  {
    var r := FirstExisting(GitLocations, isFile);
    assert GitLocations[0] == "/usr/local/bin/git" && GitLocations[1] == "/usr/bin/git";
    r
  }

  /** One key/value pair of a git config section. */
  datatype Entry = Entry(key: string, value: string)

  /** A NUL-separated record of `git config -z` output contributes its first
      line as key and its second as value; a record of fewer lines contributes
      nothing, and lines after the second are ignored. */
  function RecordEntry(record: string): (r: Option<Entry>)
    ensures r.None? <==> |Split(record, Newline)| < 2
    ensures r.Some? ==> r.value.key == Split(record, Newline)[0] && r.value.value == Split(record, Newline)[1]
  {
    var lines := Split(record, Newline);
    if |lines| >= 2 then Some(Entry(lines[0], lines[1])) else None
  }

  /** The records folded into a dictionary from first to last. */
  function RecordsToMap(records: seq<string>): (m: map<string, string>)
    decreases |records|
  {
    if |records| == 0 then map[]
    else
      var m := RecordsToMap(records[..|records| - 1]);
      match RecordEntry(records[|records| - 1])
      case Some(e) => m[e.key := e.value]
      case None => m
  }

  /** The key/value table of a `git config -z --get-regexp` output. */
  function ConfigInfo(stdout: string): map<string, string> {
    RecordsToMap(Split(stdout, Nul))
  }

  /** Record `record` sets `key`. */
  predicate Defines(record: string, key: string) {
    RecordEntry(record).Some? && RecordEntry(record).value.key == key
  }

  /** `i` is the last record that sets `key`. */
  predicate LastDefines(records: seq<string>, key: string, i: int) {
    && 0 <= i < |records|
    && Defines(records[i], key)
    && forall j :: i < j < |records| ==> !Defines(records[j], key)
  }

  /** Every key of the table is the first line of some record, and every such
      first line is a key: nothing else is added. */
  lemma {:induction false} RecordsToMapKeys(records: seq<string>, key: string)
    ensures key in RecordsToMap(records) <==> exists i :: 0 <= i < |records| && Defines(records[i], key)
    decreases |records|
  {
    if |records| > 0 {
      var n := |records| - 1;
      var init := records[..n];
      RecordsToMapKeys(init, key);
      if exists i :: 0 <= i < |records| && Defines(records[i], key) {
        var i :| 0 <= i < |records| && Defines(records[i], key);
        if i < n {
          assert Defines(init[i], key);
        }
      }
      if exists i :: 0 <= i < n && Defines(init[i], key) {
        var i :| 0 <= i < n && Defines(init[i], key);
        assert Defines(records[i], key);
      }
    }
  }

  /** The value of a key is the second line of the last record setting it: a
      later record with the same key overwrites an earlier one. */
  lemma {:induction false} RecordsToMapLastWins(records: seq<string>, key: string, i: int)
    requires LastDefines(records, key, i)
    ensures key in RecordsToMap(records)
    ensures RecordsToMap(records)[key] == RecordEntry(records[i]).value.value
    decreases |records|
  {
    var n := |records| - 1;
    if i < n {
      var init := records[..n];
      assert LastDefines(init, key, i) by {
        assert forall j :: 0 <= j < n ==> init[j] == records[j];
      }
      RecordsToMapLastWins(init, key, i);
      assert !Defines(records[n], key);
    }
  }

  /** A record without a second line, such as the empty piece after the final
      NUL, leaves the table unchanged. */
  lemma ShortRecordAddsNothing(records: seq<string>, record: string)
    requires |Split(record, Newline)| < 2
    ensures RecordsToMap(records + [record]) == RecordsToMap(records)
  {
    assert (records + [record])[..|records|] == records;
  }

  /** The record `git config -z` prints for one entry. */
  function EntryRecord(e: Entry): string {
    e.key + [Newline] + e.value
  }

  function EntryRecords(entries: seq<Entry>): (r: seq<string>)
    ensures |r| == |entries|
    ensures forall i :: 0 <= i < |entries| ==> r[i] == EntryRecord(entries[i])
  {
    seq(|entries|, i requires 0 <= i < |entries| => EntryRecord(entries[i]))
  }

  /** The output `git config -z` prints for `entries`: each record followed by
      a NUL. */
  function ConfigOutput(entries: seq<Entry>): string {
    Join([Nul], EntryRecords(entries) + [""])
  }

  /** Entries as a dictionary in which later entries win. */
  function EntriesToMap(entries: seq<Entry>): map<string, string>
    decreases |entries|
  {
    if |entries| == 0 then map[]
    else EntriesToMap(entries[..|entries| - 1])[entries[|entries| - 1].key := entries[|entries| - 1].value]
  }

  /** Keys and values that can appear in `git config -z` output without
      breaking its framing. */
  predicate WellFramed(entries: seq<Entry>) {
    forall k :: 0 <= k < |entries| ==> WellFramedEntry(entries[k])
  }

  predicate WellFramedEntry(e: Entry) {
    Nul !in e.key && Nul !in e.value && Newline !in e.key && Newline !in e.value
  }

  /** A record built from a key and value splits back into them. */
  lemma EntryRecordRoundTrip(e: Entry)
    requires WellFramedEntry(e)
    ensures Nul !in EntryRecord(e)
    ensures RecordEntry(EntryRecord(e)) == Some(e)
  {
    JoinCons([Newline], e.key, [e.value]);
    SplitJoin([e.key, e.value], Newline);
  }

  /** Parsing the output `git config -z` prints for well-framed entries gives
      back those entries, later ones winning. */
  lemma ConfigInfoRoundTrip(entries: seq<Entry>)
    requires WellFramed(entries)
    ensures ConfigInfo(ConfigOutput(entries)) == EntriesToMap(entries)
  {
    var recs := EntryRecords(entries);
    forall k | 0 <= k < |recs|
      ensures Nul !in recs[k]
    {
      EntryRecordRoundTrip(entries[k]);
    }
    SplitJoin(recs + [""], Nul);
    assert Split("", Newline) == [""];
    ShortRecordAddsNothing(recs, "");
    RecordsOfEntries(entries);
  }

  lemma {:induction false} RecordsOfEntries(entries: seq<Entry>)
    requires WellFramed(entries)
    ensures RecordsToMap(EntryRecords(entries)) == EntriesToMap(entries)
    decreases |entries|
  {
    if |entries| > 0 {
      var n := |entries| - 1;
      var init := entries[..n];
      assert WellFramed(init) by {
        assert forall k :: 0 <= k < n ==> init[k] == entries[k];
      }
      RecordsOfEntries(init);
      EntryRecordRoundTrip(entries[n]);
      assert EntryRecords(entries)[..n] == EntryRecords(init);
    }
  }

  /** The abbreviated hash and subject of the most recent commit. */
  datatype CommitInfo = CommitInfo(sha: string, msg: string)

  /** The commit info from `git show --format=%h%n%s`: none on a nonzero exit
      code, otherwise the first two lines of the output. The Swift code indexes
      the second line unchecked, so a successful run must print at least two. */
  function LastCommitInfo(exitCode: int, stdout: string): (r: Option<CommitInfo>)
    requires exitCode != 0 || |Split(stdout, Newline)| >= 2
    ensures r.None? <==> exitCode != 0
    ensures r.Some? ==> (stdout == r.value.sha + [Newline] + r.value.msg
      || (|stdout| > |r.value.sha| + 1 + |r.value.msg|
          && stdout[..|r.value.sha| + 1 + |r.value.msg| + 1] == r.value.sha + [Newline] + r.value.msg + [Newline]))
    ensures r.Some? ==> Newline !in r.value.sha && Newline !in r.value.msg
  {
    if exitCode != 0 then None
    else
      var lines := Split(stdout, Newline);
      JoinSplit(stdout, Newline);
      if |lines| == 2 then
        JoinCons([Newline], lines[0], [lines[1]]);
        Some(CommitInfo(lines[0], lines[1]))
      else
        JoinCons([Newline], lines[0], lines[1..]);
        JoinCons([Newline], lines[1], lines[2..]);
        assert stdout == lines[0] + [Newline] + lines[1] + [Newline] + Join([Newline], lines[2..]);
        Some(CommitInfo(lines[0], lines[1]))
  }

  /** What `git show --format=%h%n%s` prints for a commit parses back into it. */
  lemma LastCommitInfoRoundTrip(info: CommitInfo)
    requires Newline !in info.sha && Newline !in info.msg
    ensures Split(info.sha + [Newline] + info.msg + [Newline], Newline) == [info.sha, info.msg, ""]
    ensures LastCommitInfo(0, info.sha + [Newline] + info.msg + [Newline]) == Some(info)
  {
    var parts := [info.sha, info.msg, ""];
    JoinCons([Newline], info.msg, [""]);
    assert [info.msg, ""] == [info.msg] + [""];
    JoinCons([Newline], info.sha, [info.msg, ""]);
    assert parts == [info.sha] + [info.msg, ""];
    assert Join([Newline], parts) == info.sha + [Newline] + info.msg + [Newline];
    SplitJoin(parts, Newline);
  }
}
