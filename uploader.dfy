/**
 * scripts/uploader.js: `logToHistory`, which records each customer's processed file in the
 * server's processing history unless the pair (customer, original file) is already there,
 * and answers one result line per customer whose processed file exists.
 */
module Uploader {
  import opened Wrappers
  import opened JsText
  import Seqs
  import Sorting
  import Store
  import SmartAutomation

  /** The customers `logToHistory` walks through, in order. */
  const Customers: seq<string> := ["customer1", "customer2", "customer3"]

  // ---------------------------------------------------------------------------
  // One customer
  // ---------------------------------------------------------------------------

  /**
   * What the environment answers while one customer is handled: whether
   * `processed/processed_<customer>.xlsx` exists, its worksheet's row count (None when it
   * cannot be read), the stat entries of `temp/<customer>` (None when the folder is missing),
   * whether the history `GET` reaches the server, the message of a failed `POST` (None when it
   * succeeds), and the id and timestamp the server gives a new entry.
   */
  datatype UploadEnv = UploadEnv(processedExists: bool, rowCount: Option<int>, tempDir: Option<seq<Sorting.FileStat>>,
                                 reachable: bool, postError: Option<string>, id: string, timestamp: string)

  const NotAvailable := "N/A"

  /** `originalFile`: the newest `.xlsx` of the customer's temp folder, or `N/A` when there is none. */
  function OriginalFile(tempDir: Option<seq<Sorting.FileStat>>): string
  {
    if tempDir.None? then NotAvailable
    else
      var xlsx := Sorting.WithExtension(tempDir.value, ".xlsx");
      if xlsx == [] then NotAvailable else Sorting.Newest(xlsx).value
  }

  /**
   * The original file is `N/A` exactly when the folder is missing or holds no `.xlsx` file;
   * otherwise it is the name of a `.xlsx` entry of the folder with the latest modification
   * time of them all.
   */
  lemma {:induction false} OriginalFileCases(tempDir: Option<seq<Sorting.FileStat>>)
    ensures var f := OriginalFile(tempDir);
      (f == NotAvailable <==> tempDir.None? || Sorting.WithExtension(tempDir.value, ".xlsx") == []) &&
      (f != NotAvailable ==>
        exists i | 0 <= i < |tempDir.value| :: NewestAt(tempDir.value, i) && tempDir.value[i].name == f)
  {
    assert |NotAvailable| < |".xlsx"|;
    if tempDir.Some? && Sorting.WithExtension(tempDir.value, ".xlsx") != [] {
      NewestXlsx(tempDir.value);
    }
  }

  /** Entry i of the folder is a `.xlsx` file no other `.xlsx` file of the folder is newer than. */
  ghost predicate NewestAt(files: seq<Sorting.FileStat>, i: int)
  {
    0 <= i < |files| && EndsWith(files[i].name, ".xlsx") &&
    forall j | 0 <= j < |files| && EndsWith(files[j].name, ".xlsx") :: files[j].time <= files[i].time
  }

  /** The newest `.xlsx` entry of a folder that holds one. */
  lemma {:induction false} NewestXlsx(files: seq<Sorting.FileStat>)
    requires Sorting.WithExtension(files, ".xlsx") != []
    ensures exists i | 0 <= i < |files| ::
      (NewestAt(files, i) && files[i].name == Sorting.Newest(Sorting.WithExtension(files, ".xlsx")).value)
  {
    var xlsx := Sorting.WithExtension(files, ".xlsx");
    var k := Sorting.FirstMax(xlsx, Sorting.TimeOf);
    NewestOfSelection(files, xlsx, k);
  }

  /** The latest entry of the folder's `.xlsx` selection is an entry of the folder no `.xlsx` entry is newer than. */
  lemma NewestOfSelection(files: seq<Sorting.FileStat>, xlsx: seq<Sorting.FileStat>, k: nat)
    requires k < |xlsx|
    requires forall f | f in xlsx :: f in files && EndsWith(f.name, ".xlsx")
    requires forall f | f in files && EndsWith(f.name, ".xlsx") :: f in xlsx
    requires forall j | 0 <= j < |xlsx| :: Sorting.TimeOf(xlsx[j]) <= Sorting.TimeOf(xlsx[k])
    ensures exists i | 0 <= i < |files| :: (NewestAt(files, i) && files[i] == xlsx[k])
  {
    var x := xlsx[k];
    assert x in xlsx;
    var i :| 0 <= i < |files| && files[i] == x;
    forall j | 0 <= j < |files| && EndsWith(files[j].name, ".xlsx") ensures files[j].time <= x.time {
      assert files[j] in xlsx;
      var m :| 0 <= m < |xlsx| && xlsx[m] == files[j];
      assert Sorting.TimeOf(xlsx[m]) <= Sorting.TimeOf(x);
    }
    assert NewestAt(files, i);
  }

  /** `○ Skipped <customer> (Already exists)`. */
  function SkippedLine(customer: string): string
  {
    "○ Skipped " + customer + " (Already exists)"
  }

  /** `✓ Successfully logged <customer>`. */
  function LoggedLine(customer: string): string
  {
    "✓ Successfully logged " + customer
  }

  /** `✗ Failed to log <customer>: <message>`. */
  function FailedLine(customer: string, message: string): string
  {
    "✗ Failed to log " + customer + ": " + message
  }

  /** The server's history after one customer, and the line pushed to `results` (None after `continue`). */
  datatype Step = Step(history: seq<Store.Record>, line: Option<string>)

  /** The entry the server stores for a successful post. */
  function PostedEntry(customer: string, env: UploadEnv): Store.Record
  {
    Store.NewEntry(env.id, env.timestamp,
      SmartAutomation.HistoryBody(customer, OriginalFile(env.tempDir), SmartAutomation.RecordCount(env.rowCount)))
  }

  /**
   * One turn of the `for (const customer of customers)` loop. The unfiltered `GET` sorts the
   * stored history in place; when it fails the duplicate flag stays false and the post goes ahead.
   */
  function UploadStep(history: seq<Store.Record>, customer: string, env: UploadEnv, time: Store.Record -> int): Step
  {
    if !env.processedExists then Step(history, None)
    else
      var seen := if env.reachable then Sorting.SortDesc(history, time) else history;
      if env.reachable && SmartAutomation.IsDuplicate(seen, customer, OriginalFile(env.tempDir)) then
        Step(seen, Some(SkippedLine(customer)))
      else if env.postError.None? then
        Step(seen + [PostedEntry(customer, env)], Some(LoggedLine(customer)))
      else
        Step(seen, Some(FailedLine(customer, env.postError.value)))
  }

  /**
   * A customer without a processed file is passed over silently. Otherwise it is skipped
   * exactly when the history was read and already holds its pair; an unreadable history never
   * causes a skip. A customer that is not skipped gains one entry, the posted body, when the
   * post succeeds and nothing when it fails; the stored entries are only ever reordered.
   */
  lemma {:induction false} UploadStepCases(history: seq<Store.Record>, customer: string, env: UploadEnv, time: Store.Record -> int)
    ensures var step := UploadStep(history, customer, env, time);
      var file := OriginalFile(env.tempDir);
      (!env.processedExists ==> step == Step(history, None)) &&
      (env.processedExists ==> step.line.Some?) &&
      (env.processedExists && !env.reachable ==> step.line != Some(SkippedLine(customer))) &&
      (env.processedExists && env.reachable && SmartAutomation.IsDuplicate(history, customer, file) ==>
        step.line == Some(SkippedLine(customer)) && multiset(step.history) == multiset(history)) &&
      (env.processedExists && !(env.reachable && SmartAutomation.IsDuplicate(history, customer, file)) ==>
        (env.postError.None? ==>
          step.line == Some(LoggedLine(customer)) &&
          multiset(step.history) == multiset(history) + multiset{PostedEntry(customer, env)}) &&
        (env.postError.Some? ==>
          step.line == Some(FailedLine(customer, env.postError.value)) && multiset(step.history) == multiset(history)))
  {
    if env.processedExists {
      var file := OriginalFile(env.tempDir);
      assert SkippedLine(customer)[0] != LoggedLine(customer)[0];
      assert SkippedLine(customer)[0] != FailedLine(customer, "")[0];
      if env.reachable {
        var sorted := Sorting.SortDesc(history, time);
        if SmartAutomation.IsDuplicate(history, customer, file) {
          SmartAutomation.DuplicatePermuted(history, sorted, customer, file);
        } else if SmartAutomation.IsDuplicate(sorted, customer, file) {
          SmartAutomation.DuplicatePermuted(sorted, history, customer, file);
        }
      }
    }
  }

  /** A turn pushes a line exactly when the processed file exists, and the line is single when its parts are. */
  lemma {:induction false} StepLine(history: seq<Store.Record>, customer: string, env: UploadEnv, time: Store.Record -> int)
    ensures var step := UploadStep(history, customer, env, time);
      (step.line.Some? <==> env.processedExists) &&
      ('\n' !in customer && SingleLineError(env) && step.line.Some? ==> '\n' !in step.line.value)
  {
    var step := UploadStep(history, customer, env, time);
    if '\n' !in customer && SingleLineError(env) && step.line.Some? {
      assert '\n' !in "○ Skipped " && '\n' !in " (Already exists)";
      assert '\n' !in "✓ Successfully logged " && '\n' !in "✗ Failed to log " && '\n' !in ": ";
    }
  }

  /** A turn keeps the history it read, in the order it read it, and at most appends the posted entry. */
  lemma StepExtends(history: seq<Store.Record>, c: string, env: UploadEnv, time: Store.Record -> int)
    ensures var seen := if env.processedExists && env.reachable then Sorting.SortDesc(history, time) else history;
      var after := UploadStep(history, c, env, time).history;
      after == seen || after == seen + [PostedEntry(c, env)]
  {
  }

  /** One customer's turn keeps every pair the history already matched. */
  lemma {:induction false} StepKeepsMatch(history: seq<Store.Record>, c: string, env: UploadEnv, time: Store.Record -> int,
                                          customer: string, file: string)
    requires SmartAutomation.IsDuplicate(history, customer, file)
    ensures SmartAutomation.IsDuplicate(UploadStep(history, c, env, time).history, customer, file)
  {
    var after := UploadStep(history, c, env, time).history;
    var seen := if env.processedExists && env.reachable then Sorting.SortDesc(history, time) else history;
    if env.processedExists && env.reachable {
      SmartAutomation.DuplicatePermuted(history, seen, customer, file);
    }
    StepExtends(history, c, env, time);
    var i :| 0 <= i < |seen| && SmartAutomation.Matches(seen[i], customer, file);
    assert after[i] == seen[i];
  }

  /** After a turn whose post succeeded, or that found its pair already logged, the history matches the pair. */
  lemma {:induction false} StepRecords(history: seq<Store.Record>, customer: string, env: UploadEnv, time: Store.Record -> int)
    requires env.processedExists
    requires env.postError.None? || (env.reachable && SmartAutomation.IsDuplicate(history, customer, OriginalFile(env.tempDir)))
    ensures SmartAutomation.IsDuplicate(UploadStep(history, customer, env, time).history, customer, OriginalFile(env.tempDir))
  {
    var file := OriginalFile(env.tempDir);
    var once := UploadStep(history, customer, env, time).history;
    if env.reachable && SmartAutomation.IsDuplicate(history, customer, file) {
      StepKeepsMatch(history, customer, env, time, customer, file);
    } else {
      UploadStepCases(history, customer, env, time);
      SmartAutomation.NewEntryMatches(SmartAutomation.LogEnv(env.rowCount, true, true, env.id, env.timestamp), customer, file);
      assert once[|once| - 1] == PostedEntry(customer, env);
    }
  }

  /**
   * A pair the history matches is skipped by the next turn with the same original file and a
   * readable history, which posts nothing.
   */
  lemma {:induction false} RepeatIsSkipped(history: seq<Store.Record>, customer: string, env: UploadEnv, time: Store.Record -> int)
    requires env.processedExists && env.reachable
    requires SmartAutomation.IsDuplicate(history, customer, OriginalFile(env.tempDir))
    ensures UploadStep(history, customer, env, time).line == Some(SkippedLine(customer)) &&
      multiset(UploadStep(history, customer, env, time).history) == multiset(history)
  {
    UploadStepCases(history, customer, env, time);
  }

  // ---------------------------------------------------------------------------
  // The whole loop
  // ---------------------------------------------------------------------------

  /** The server's history and the `results` array after the loop. */
  datatype Run = Run(history: seq<Store.Record>, lines: seq<string>)

  /** The loop over `customers`, one `UploadStep` per customer, in order. */
  function UploadRun(history: seq<Store.Record>, customers: seq<string>, env: string -> UploadEnv, time: Store.Record -> int): Run
    decreases |customers|
  {
    if customers == [] then Run(history, [])
    else
      var before := UploadRun(history, customers[..|customers| - 1], env, time);
      var c := customers[|customers| - 1];
      var step := UploadStep(before.history, c, env(c), time);
      Run(step.history, before.lines + (if step.line.Some? then [step.line.value] else []))
  }

  /** The test for a customer whose processed file exists. */
  function HasProcessed(env: string -> UploadEnv): string -> bool
  {
    c => env(c).processedExists
  }

  /** There is exactly one result line per customer whose processed file exists. */
  lemma {:induction false} OneLinePerProcessed(history: seq<Store.Record>, customers: seq<string>, env: string -> UploadEnv,
                                               time: Store.Record -> int)
    ensures |UploadRun(history, customers, env, time).lines| == |Seqs.Filter(customers, HasProcessed(env))|
    decreases |customers|
  {
    if customers != [] {
      var p := HasProcessed(env);
      var init := customers[..|customers| - 1];
      var c := customers[|customers| - 1];
      OneLinePerProcessed(history, init, env, time);
      StepLine(UploadRun(history, init, env, time).history, c, env(c), time);
      assert init + [c] == customers;
      Seqs.FilterAppend(init, [c], p);
      assert |Seqs.Filter([c], p)| == if p(c) then 1 else 0 by {
        assert [c][1..] == [];
      }
    }
  }

  /** The error message of a failed post holds no line break. */
  predicate SingleLineError(env: UploadEnv)
  {
    env.postError.Some? ==> '\n' !in env.postError.value
  }

  /** Result lines hold no line break when the customer names and the post errors hold none. */
  lemma {:induction false} LinesAreSingleLines(history: seq<Store.Record>, customers: seq<string>, env: string -> UploadEnv,
                                               time: Store.Record -> int)
    requires forall i | 0 <= i < |customers| :: '\n' !in customers[i] && SingleLineError(env(customers[i]))
    ensures forall k | 0 <= k < |UploadRun(history, customers, env, time).lines| ::
      '\n' !in UploadRun(history, customers, env, time).lines[k]
    decreases |customers|
  {
    if customers != [] {
      var init := customers[..|customers| - 1];
      var c := customers[|customers| - 1];
      var before := UploadRun(history, init, env, time);
      LinesAreSingleLines(history, init, env, time);
      assert '\n' !in c && SingleLineError(env(c));
      var step := UploadStep(before.history, c, env(c), time);
      StepLine(before.history, c, env(c), time);
      var lines := UploadRun(history, customers, env, time).lines;
      assert lines == before.lines + (if step.line.Some? then [step.line.value] else []);
      forall k | 0 <= k < |lines| ensures '\n' !in lines[k] {
        if k < |before.lines| {
          assert lines[k] == before.lines[k];
        } else {
          assert step.line.Some? && lines[k] == step.line.value;
          assert '\n' !in step.line.value;
        }
      }
    }
  }

  /**
   * After the loop the history matches the pair of every customer whose processed file
   * exists and whose post succeeded: a rerun with readable history skips them all.
   */
  lemma {:induction false} RunRecordsPosted(history: seq<Store.Record>, customers: seq<string>, env: string -> UploadEnv,
                                            time: Store.Record -> int, k: nat)
    requires k < |customers| && env(customers[k]).processedExists && env(customers[k]).postError.None?
    ensures SmartAutomation.IsDuplicate(UploadRun(history, customers, env, time).history,
                                        customers[k], OriginalFile(env(customers[k]).tempDir))
    decreases |customers|
  {
    var init := customers[..|customers| - 1];
    var c := customers[|customers| - 1];
    var before := UploadRun(history, init, env, time);
    if k == |customers| - 1 {
      StepRecords(before.history, c, env(c), time);
    } else {
      assert init[k] == customers[k];
      RunRecordsPosted(history, init, env, time, k);
      StepKeepsMatch(before.history, c, env(c), time, customers[k], OriginalFile(env(customers[k]).tempDir));
    }
  }

  /**
   * `logToHistory` over the three customers: the history the server holds afterwards and the
   * answer, the result lines joined by line breaks.
   */
  method LogToHistory(log: Store.HistoryLog, env: string -> UploadEnv, time: Store.Record -> int) returns (msg: string)
    modifies log
    ensures var run := UploadRun(old(log.entries), Customers, env, time);
      log.entries == run.history && msg == Join(run.lines, '\n')
  {
    var results: seq<string> := [];
    var i := 0;
    while i < |Customers|
      invariant 0 <= i <= |Customers|
      invariant var run := UploadRun(old(log.entries), Customers[..i], env, time);
        log.entries == run.history && results == run.lines
    {
      Seqs.TakeSnoc(Customers, i);
      assert Customers[..i + 1][..i] == Customers[..i];
      var customer := Customers[i];
      var e := env(customer);
      if !e.processedExists {
        i := i + 1;
        continue;
      }
      var recordCount := SmartAutomation.RecordCount(e.rowCount);
      var originalFile := OriginalFile(e.tempDir);
      var isDuplicate := false;
      if e.reachable {
        var listed := log.List(None, time);
        var history := listed.value;
        isDuplicate := exists j | 0 <= j < |history| :: SmartAutomation.Matches(history[j], customer, originalFile);
      }
      if isDuplicate {
        results := results + [SkippedLine(customer)];
        i := i + 1;
        continue;
      }
      if e.postError.None? {
        var status, entry := log.Add(e.id, e.timestamp, SmartAutomation.HistoryBody(customer, originalFile, recordCount));
        results := results + [LoggedLine(customer)];
      } else {
        results := results + [FailedLine(customer, e.postError.value)];
      }
      i := i + 1;
    }
    Seqs.TakeAll(Customers);
    msg := Join(results, '\n');
  }

  /** No customer name holds a line break. */
  lemma CustomersAreSingleLines()
    ensures forall i | 0 <= i < |Customers| :: '\n' !in Customers[i]
  {
    forall i | 0 <= i < |Customers| ensures '\n' !in Customers[i] {
      assert Customers[i] == "customer" + [Customers[i][8]];
      assert '\n' !in "customer";
    }
  }

  /**
   * The answer splits back into its result lines, one per customer whose processed file
   * exists, when no post error holds a line break; with no processed file it is empty.
   */
  lemma {:induction false} AnswerLines(history: seq<Store.Record>, env: string -> UploadEnv, time: Store.Record -> int)
    requires forall c | c in Customers :: SingleLineError(env(c))
    ensures var run := UploadRun(history, Customers, env, time);
      var msg := Join(run.lines, '\n');
      |run.lines| == |Seqs.Filter(Customers, HasProcessed(env))| &&
      (run.lines == [] ==> msg == "") &&
      (run.lines != [] ==> Split(msg, '\n') == run.lines)
  {
    var run := UploadRun(history, Customers, env, time);
    OneLinePerProcessed(history, Customers, env, time);
    CustomersAreSingleLines();
    forall i | 0 <= i < |Customers| ensures SingleLineError(env(Customers[i])) {
      assert Customers[i] in Customers;
    }
    LinesAreSingleLines(history, Customers, env, time);
    if run.lines != [] {
      SplitJoin(run.lines, '\n');
    }
  }
}
