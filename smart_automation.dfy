/**
 * scripts/smart_automation.js: run the smart downloader for every configured customer,
 * classify each run as `new_file`, `no_new_file` or `error`, stop when nothing is new, and
 * otherwise run the processor and log one history entry per new file, unless the central
 * history already holds an entry for the same customer and downloaded file.
 */
module SmartAutomation {
  import opened Wrappers
  import opened Cells
  import Seqs
  import Sorting
  import Store

  // ---------------------------------------------------------------------------
  // Step 1: classification of the downloader runs
  // ---------------------------------------------------------------------------

  /**
   * What one `execSync` of the downloader gave: it threw (a non-zero exit, or a `Result:`
   * line that `JSON.parse` rejects), it printed no `Result:` line, or it printed a result.
   */
  datatype ChildOutput = Threw | NoResultLine | Reported(downloaded: bool, fileName: string)

  const NewFile := "new_file"
  const NoNewFile := "no_new_file"
  const ErrorStatus := "error"

  /** One `downloadResults` entry. */
  datatype Summary = Summary(customer: string, status: string)

  /** A configured customer id with what its downloader run gave. */
  type Run = (string, ChildOutput)

  /** The status pushed for a run, None when nothing is pushed. */
  function StatusOf(o: ChildOutput): Option<string>
  {
    match o
    case Threw => Some(ErrorStatus)
    case NoResultLine => None
    case Reported(downloaded, _) => Some(if downloaded then NewFile else NoNewFile)
  }

  /** `downloadResults` after the loop. */
  function Summaries(runs: seq<Run>): seq<Summary>
    decreases |runs|
  {
    if runs == [] then []
    else
      var last := runs[|runs| - 1];
      var status := StatusOf(last.1);
      Summaries(runs[..|runs| - 1]) + (if status.Some? then [Summary(last.0, status.value)] else [])
  }

  /** The run reported a new file. */
  predicate IsNew(r: Run)
  {
    r.1.Reported? && r.1.downloaded
  }

  /** `hasNewFiles` after the loop. */
  predicate HasNew(runs: seq<Run>)
  {
    Seqs.Some(runs, IsNew)
  }

  /** A run that adds a summary entry. */
  predicate Summarised(r: Run)
  {
    StatusOf(r.1).Some?
  }

  function SummaryOf(r: Run): Summary
  {
    Summary(r.0, StatusOf(r.1).GetOr(""))
  }

  /**
   * One summary entry per run that threw or printed a result, in configuration order: a
   * result with `downloaded` is `new_file`, any other result `no_new_file`, a throw `error`;
   * a run without a `Result:` line adds none.
   */
  lemma {:induction false} SummariesOfRuns(runs: seq<Run>)
    ensures Summaries(runs) == Seqs.Map(Seqs.Filter(runs, Summarised), SummaryOf)
    decreases |runs|
  {
    if runs != [] {
      var init := runs[..|runs| - 1];
      var last := runs[|runs| - 1];
      SummariesOfRuns(init);
      Seqs.FilterAppend(init, [last], Summarised);
      assert init + [last] == runs;
      assert Seqs.Filter([last], Summarised) == if Summarised(last) then [last] else [] by {
        assert [last][1..] == [];
      }
    }
  }

  /** The statuses: a thrown run is an error, and only a reported download is a new file. */
  lemma StatusCases(o: ChildOutput)
    ensures StatusOf(o) == Some(ErrorStatus) <==> o.Threw?
    ensures StatusOf(o) == Some(NewFile) <==> o.Reported? && o.downloaded
    ensures StatusOf(o) == Some(NoNewFile) <==> o.Reported? && !o.downloaded
    ensures StatusOf(o).None? <==> o.NoResultLine?
  {
  }

  /** The `processedFiles` object: its (customer, file name) entries in insertion order. */
  type Entries = seq<(string, string)>

  /** `obj[k]`. */
  function Lookup(entries: Entries, k: string): Option<string>
  {
    var i := Seqs.FindIndex(entries, (e: (string, string)) => e.0 == k);
    if i == -1 then None else Some(entries[i].1)
  }

  /** `obj[k] = v`: an existing key keeps its place, a new key goes last. */
  function Assign(entries: Entries, k: string, v: string): Entries
  {
    var i := Seqs.FindIndex(entries, (e: (string, string)) => e.0 == k);
    if i == -1 then entries + [(k, v)] else entries[i := (k, v)]
  }

  /** No key occurs twice. */
  ghost predicate DistinctKeys(entries: Entries)
  {
    forall i, j | 0 <= i < j < |entries| :: entries[i].0 != entries[j].0
  }

  /** An assignment sets its key, leaves every other key as it was and keeps keys distinct. */
  lemma {:induction false} AssignLookup(entries: Entries, k: string, v: string)
    requires DistinctKeys(entries)
    ensures DistinctKeys(Assign(entries, k, v))
    ensures Lookup(Assign(entries, k, v), k) == Some(v)
    ensures forall c | c != k :: Lookup(Assign(entries, k, v), c) == Lookup(entries, c)
    ensures |Assign(entries, k, v)| == |entries| + (if Lookup(entries, k).None? then 1 else 0)
  {
    var r := Assign(entries, k, v);
    var i := Seqs.FindIndex(entries, (e: (string, string)) => e.0 == k);
    forall c | c != k ensures Lookup(r, c) == Lookup(entries, c) {
      var a := Seqs.FindIndex(entries, (e: (string, string)) => e.0 == c);
      var b := Seqs.FindIndex(r, (e: (string, string)) => e.0 == c);
      if a != -1 {
        assert r[a].0 == c;
      }
      if b != -1 {
        assert b < |entries| && entries[b].0 == c;
      }
    }
    if i == -1 {
      assert r[|entries|] == (k, v);
    } else {
      assert r[i] == (k, v);
    }
  }

  /** `processedFiles` after the loop. */
  function ProcessedFiles(runs: seq<Run>): Entries
    decreases |runs|
  {
    if runs == [] then []
    else
      var last := runs[|runs| - 1];
      var before := ProcessedFiles(runs[..|runs| - 1]);
      if IsNew(last) then Assign(before, last.0, last.1.fileName) else before
  }

  /** The file name of a customer's last run that reported a new file. */
  function LastNewFile(runs: seq<Run>, customer: string): Option<string>
    decreases |runs|
  {
    if runs == [] then None
    else
      var last := runs[|runs| - 1];
      if IsNew(last) && last.0 == customer then Some(last.1.fileName)
      else LastNewFile(runs[..|runs| - 1], customer)
  }

  /**
   * `processedFiles` maps each customer with a new file, once, to the name its last such run
   * reported; it is empty exactly when no run reported a new file.
   */
  lemma {:induction false} ProcessedFilesLookup(runs: seq<Run>)
    ensures DistinctKeys(ProcessedFiles(runs))
    ensures forall c :: Lookup(ProcessedFiles(runs), c) == LastNewFile(runs, c)
    ensures ProcessedFiles(runs) == [] <==> !HasNew(runs)
    decreases |runs|
  {
    if runs != [] {
      var init := runs[..|runs| - 1];
      var last := runs[|runs| - 1];
      ProcessedFilesLookup(init);
      assert forall i | 0 <= i < |init| :: init[i] == runs[i];
      if IsNew(last) {
        AssignLookup(ProcessedFiles(init), last.0, last.1.fileName);
        assert Lookup(ProcessedFiles(runs), last.0).Some?;
      }
    }
  }

  /** The `for (const config of configs)` loop: the flag, the summary and the file map. */
  method Classify(runs: seq<Run>) returns (hasNewFiles: bool, downloadResults: seq<Summary>, processedFiles: Entries)
    ensures hasNewFiles == HasNew(runs)
    ensures downloadResults == Summaries(runs)
    ensures processedFiles == ProcessedFiles(runs)
  {
    hasNewFiles, downloadResults, processedFiles := false, [], [];
    var i := 0;
    while i < |runs|
      invariant 0 <= i <= |runs|
      invariant hasNewFiles == HasNew(runs[..i])
      invariant downloadResults == Summaries(runs[..i])
      invariant processedFiles == ProcessedFiles(runs[..i])
    {
      Seqs.TakeSnoc(runs, i);
      assert runs[..i + 1][..i] == runs[..i];
      var (customer, output) := runs[i];
      match output {
        case Threw =>
          downloadResults := downloadResults + [Summary(customer, ErrorStatus)];
        case NoResultLine =>
        case Reported(downloaded, fileName) =>
          if downloaded {
            hasNewFiles := true;
            downloadResults := downloadResults + [Summary(customer, NewFile)];
            processedFiles := Assign(processedFiles, customer, fileName);
          } else {
            downloadResults := downloadResults + [Summary(customer, NoNewFile)];
          }
      }
      assert HasNew(runs[..i + 1]) == (HasNew(runs[..i]) || IsNew(runs[i])) by {
        var p := runs[..i + 1];
        if HasNew(runs[..i]) {
          var k :| 0 <= k < i && IsNew(runs[..i][k]);
          assert p[k] == runs[..i][k];
        }
        if HasNew(p) {
          var k :| 0 <= k < i + 1 && IsNew(p[k]);
          if k < i {
            assert runs[..i][k] == p[k];
          }
        }
      }
      i := i + 1;
    }
    Seqs.TakeAll(runs);
  }

  // ---------------------------------------------------------------------------
  // Step 4: history logging
  // ---------------------------------------------------------------------------

  /** `processed_<customer>.xlsx`. */
  function ProcessedName(customer: string): string
  {
    "processed_" + customer + ".xlsx"
  }

  /** `sheet.rowCount - 1` when the processed file could be read (None otherwise), else 0. */
  function RecordCount(rowCount: Option<int>): int
  {
    if rowCount.Some? then rowCount.value - 1 else 0
  }

  /** The body posted to the history. */
  function HistoryBody(customer: string, file: string, count: int): Store.Record
  {
    map["customer" := SText(customer), "downloadedFile" := SText(file),
        "processedFile" := SText(ProcessedName(customer)), "recordCount" := SNumber(count),
        "status" := SText("success")]
  }

  /** `h.customer === customer && h.downloadedFile === downloadedFile`. */
  predicate Matches(h: Store.Record, customer: string, file: string)
  {
    "customer" in h && h["customer"] == SText(customer) &&
    "downloadedFile" in h && h["downloadedFile"] == SText(file)
  }

  /** `historyRes.data.some(...)`. */
  predicate IsDuplicate(history: seq<Store.Record>, customer: string, file: string)
  {
    exists i | 0 <= i < |history| :: Matches(history[i], customer, file)
  }

  /**
   * What the environment answers while one customer is logged: the processed file's row count
   * (None when it is missing or unreadable), whether the history request and the post reach
   * the server, and the id and timestamp the server gives a new entry.
   */
  datatype LogEnv = LogEnv(rowCount: Option<int>, reachable: bool, posted: bool, id: string, timestamp: string)

  /**
   * The server's history after `logProcessingHistory`: the unfiltered `GET` sorts the stored
   * history in place (newest first), and the entry is posted only when no entry matches.
   */
  function Logged(history: seq<Store.Record>, customer: string, file: string, env: LogEnv, time: Store.Record -> int): seq<Store.Record>
  {
    if !env.reachable then history
    else
      var sorted := Sorting.SortDesc(history, time);
      if IsDuplicate(sorted, customer, file) || !env.posted then sorted
      else sorted + [Store.NewEntry(env.id, env.timestamp, HistoryBody(customer, file, RecordCount(env.rowCount)))]
  }

  /** A match survives reordering. */
  lemma {:induction false} DuplicatePermuted(a: seq<Store.Record>, b: seq<Store.Record>, customer: string, file: string)
    requires multiset(a) == multiset(b) && IsDuplicate(a, customer, file)
    ensures IsDuplicate(b, customer, file)
  {
    var i :| 0 <= i < |a| && Matches(a[i], customer, file);
    assert a[i] in multiset(b);
    var j :| 0 <= j < |b| && b[j] == a[i];
  }

  /** The posted entry matches its own customer and file. */
  lemma NewEntryMatches(env: LogEnv, customer: string, file: string)
    ensures Matches(Store.NewEntry(env.id, env.timestamp, HistoryBody(customer, file, RecordCount(env.rowCount))), customer, file)
  {
    var body := HistoryBody(customer, file, RecordCount(env.rowCount));
    assert "customer" in body && "downloadedFile" in body;
  }

  /**
   * Nothing is posted when the history already holds the pair; otherwise a reachable server
   * that accepts the post gains exactly one entry, the posted body with the server's id and
   * timestamp. Either way the stored entries are only reordered, never lost.
   */
  lemma {:induction false} LoggedCases(history: seq<Store.Record>, customer: string, file: string, env: LogEnv, time: Store.Record -> int)
    ensures var after := Logged(history, customer, file, env, time);
      (!env.reachable ==> after == history) &&
      (env.reachable && IsDuplicate(history, customer, file) ==> multiset(after) == multiset(history)) &&
      (env.reachable && env.posted && !IsDuplicate(history, customer, file) ==>
        multiset(after) == multiset(history) +
          multiset{Store.NewEntry(env.id, env.timestamp, HistoryBody(customer, file, RecordCount(env.rowCount)))}) &&
      (env.reachable && env.posted ==> IsDuplicate(after, customer, file))
  {
    if env.reachable {
      var sorted := Sorting.SortDesc(history, time);
      var entry := Store.NewEntry(env.id, env.timestamp, HistoryBody(customer, file, RecordCount(env.rowCount)));
      if IsDuplicate(history, customer, file) {
        DuplicatePermuted(history, sorted, customer, file);
      } else if IsDuplicate(sorted, customer, file) {
        DuplicatePermuted(sorted, history, customer, file);
      }
      if env.posted {
        if IsDuplicate(history, customer, file) {
          DuplicatePermuted(history, sorted, customer, file);
        } else {
          NewEntryMatches(env, customer, file);
          var after := Logged(history, customer, file, env, time);
          assert after[|sorted|] == entry;
        }
      }
    }
  }

  /** Logging the same pair again posts nothing: only the order of the entries can change. */
  lemma {:induction false} LoggingIsIdempotent(history: seq<Store.Record>, customer: string, file: string, env: LogEnv, again: LogEnv,
                            time: Store.Record -> int)
    requires env.reachable && env.posted
    ensures var once := Logged(history, customer, file, env, time);
      multiset(Logged(once, customer, file, again, time)) == multiset(once)
  {
    var once := Logged(history, customer, file, env, time);
    LoggedCases(history, customer, file, env, time);
    LoggedCases(once, customer, file, again, time);
  }

  /** `logProcessingHistory` against the central server's history. */
  method LogProcessingHistory(log: Store.HistoryLog, customer: string, file: string, env: LogEnv, time: Store.Record -> int)
    modifies log
    ensures log.entries == Logged(old(log.entries), customer, file, env, time)
  {
    if !env.reachable {
      return;
    }
    var listed := log.List(None, time);
    var history := listed.value;
    var isDuplicate := exists i | 0 <= i < |history| :: Matches(history[i], customer, file);
    if isDuplicate || !env.posted {
      return;
    }
    var status, entry := log.Add(env.id, env.timestamp, HistoryBody(customer, file, RecordCount(env.rowCount)));
  }

  /** The server's history after step 4, one `logProcessingHistory` per `processedFiles` entry. */
  function LoggedAll(history: seq<Store.Record>, processed: Entries, env: string -> LogEnv, time: Store.Record -> int): seq<Store.Record>
    decreases |processed|
  {
    if processed == [] then history
    else
      var last := processed[|processed| - 1];
      Logged(LoggedAll(history, processed[..|processed| - 1], env, time), last.0, last.1, env(last.0), time)
  }

  /**
   * After step 4 the history holds an entry for every processed pair whose customer reached
   * the server and posted, and it still holds every pair it held before.
   */
  lemma {:induction false} LoggedAllKeepsPairs(history: seq<Store.Record>, processed: Entries, env: string -> LogEnv,
                                               time: Store.Record -> int, customer: string, file: string)
    requires IsDuplicate(history, customer, file) ||
      exists i | 0 <= i < |processed| :: processed[i] == (customer, file) && env(customer).reachable && env(customer).posted
    ensures IsDuplicate(LoggedAll(history, processed, env, time), customer, file)
    decreases |processed|
  {
    if processed != [] {
      var init := processed[..|processed| - 1];
      var last := processed[|processed| - 1];
      var before := LoggedAll(history, init, env, time);
      if last == (customer, file) && env(customer).reachable && env(customer).posted {
        LoggedCases(before, customer, file, env(customer), time);
      } else {
        if !IsDuplicate(history, customer, file) {
          var i :| 0 <= i < |processed| && processed[i] == (customer, file) && env(customer).reachable && env(customer).posted;
          assert i < |init| && init[i] == processed[i];
        }
        LoggedAllKeepsPairs(history, init, env, time, customer, file);
        KeepsDuplicate(before, last.0, last.1, env(last.0), time, customer, file);
      }
    }
  }

  /** Logging one pair keeps every match of another pair. */
  lemma {:induction false} KeepsDuplicate(history: seq<Store.Record>, c: string, f: string, env: LogEnv, time: Store.Record -> int,
                       customer: string, file: string)
    requires IsDuplicate(history, customer, file)
    ensures IsDuplicate(Logged(history, c, f, env, time), customer, file)
  {
    if env.reachable {
      var sorted := Sorting.SortDesc(history, time);
      DuplicatePermuted(history, sorted, customer, file);
      var i :| 0 <= i < |sorted| && Matches(sorted[i], customer, file);
      assert Logged(history, c, f, env, time)[i] == sorted[i];
    }
  }

  // ---------------------------------------------------------------------------
  // The whole run
  // ---------------------------------------------------------------------------

  /** How `runSmartAutomation` ends. */
  datatype RunEnd = NothingNew | ProcessingFailed | Completed

  /**
   * `runSmartAutomation`: classify the runs; with no new file stop before the processor;
   * when the processor throws the run fails; otherwise log every processed pair.
   */
  method RunSmartAutomation(log: Store.HistoryLog, runs: seq<Run>, processorOk: bool, env: string -> LogEnv,
                            time: Store.Record -> int)
    returns (end: RunEnd, summary: seq<Summary>)
    modifies log
    ensures summary == Summaries(runs)
    ensures !HasNew(runs) ==> end == NothingNew && log.entries == old(log.entries)
    ensures HasNew(runs) && !processorOk ==> end == ProcessingFailed && log.entries == old(log.entries)
    ensures HasNew(runs) && processorOk ==>
      end == Completed && log.entries == LoggedAll(old(log.entries), ProcessedFiles(runs), env, time)
  {
    var hasNewFiles, downloadResults, processedFiles := Classify(runs);
    summary := downloadResults;
    if !hasNewFiles {
      return NothingNew, summary;
    }
    if !processorOk {
      return ProcessingFailed, summary;
    }
    var i := 0;
    while i < |processedFiles|
      invariant 0 <= i <= |processedFiles|
      invariant log.entries == LoggedAll(old(log.entries), processedFiles[..i], env, time)
    {
      Seqs.TakeSnoc(processedFiles, i);
      assert processedFiles[..i + 1][..i] == processedFiles[..i];
      var (customer, downloadedFile) := processedFiles[i];
      LogProcessingHistory(log, customer, downloadedFile, env(customer), time);
      i := i + 1;
    }
    Seqs.TakeAll(processedFiles);
    end := Completed;
  }
}
