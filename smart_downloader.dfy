/**
 * scripts/smart_downloader.js: download a customer's newest dashboard file and keep the
 * processed-files ledger (`processed_files_tracker.json`), a list of already seen file names
 * per customer. A file counts as new exactly when its name is not yet in the customer's list.
 */
module SmartDownloader {
  import opened Wrappers

  // ---------------------------------------------------------------------------
  // downloadLatestFile
  // ---------------------------------------------------------------------------

  const NoFiles := "no_files"
  const DownloadFailed := "download_failed"
  const Error := "error"
  const AlreadyProcessed := "already_processed"

  /**
   * What the browser session found on the dashboard: it threw before the file was read, or
   * it read the newest file's name (None for a missing `fileInfo` or name).
   */
  datatype DashboardView = Crashed | Listed(name: Option<string>)

  /** The object `downloadLatestFile` resolves to. */
  datatype DownloadResult =
    | Fetched(file: string)                                  // `{ success: true, fileName, downloadedAs }`
    | NotFetched(fileName: Option<string>, reason: string)   // `{ success: false, fileName, reason }`

  /** `downloadLatestFile`, given what the page showed and whether the axios download succeeded. */
  function LatestFile(view: DashboardView, fetched: bool): DownloadResult
  {
    match view
    case Crashed => NotFetched(None, Error)
    case Listed(name) =>
      if name.None? || name.value == "" then NotFetched(None, NoFiles)
      else if !fetched then NotFetched(name, DownloadFailed)
      else Fetched(name.value)
  }

  /**
   * The reasons: a page without a file name gives `no_files`, a failed download
   * `download_failed` with the name, anything thrown `error` without a name; a success
   * always carries a non-empty name.
   */
  lemma LatestFileReasons(view: DashboardView, fetched: bool)
    ensures var r := LatestFile(view, fetched);
      (r.Fetched? <==> view.Listed? && view.name.Some? && view.name.value != "" && fetched) &&
      (r.Fetched? ==> r.file == view.name.value && r.file != "") &&
      (r == NotFetched(None, Error) <==> view.Crashed?) &&
      (r == NotFetched(None, NoFiles) <==> view.Listed? && (view.name.None? || view.name.value == "")) &&
      (r.NotFetched? && r.reason == DownloadFailed <==> view.Listed? && view.name.Some? && view.name.value != "" && !fetched) &&
      (r.NotFetched? && r.reason == DownloadFailed ==> r.fileName == view.name)
  {
  }

  // ---------------------------------------------------------------------------
  // smartDownload
  // ---------------------------------------------------------------------------

  /** The ledger: for each customer id, the file names already processed, oldest first. */
  type Ledger = map<string, seq<string>>

  /** `processedTracker[customerId]` after initialisation: a missing entry reads as `[]`. */
  function Listed(ledger: Ledger, customer: string): seq<string>
  {
    if customer in ledger then ledger[customer] else []
  }

  /** The object `smartDownload` resolves to. */
  datatype SmartResult = SmartResult(downloaded: bool, fileName: Option<string>, reason: Option<string>)

  /** The answer of `smartDownload` for a ledger and a download result. */
  function Outcome(ledger: Ledger, customer: string, r: DownloadResult): SmartResult
  {
    match r
    case NotFetched(name, reason) => SmartResult(false, name, Some(reason))
    case Fetched(name) =>
      if name in Listed(ledger, customer) then SmartResult(false, Some(name), Some(AlreadyProcessed))
      else SmartResult(true, Some(name), None)
  }

  /** The ledger saved by `smartDownload`: a new name is appended to its customer's list. */
  function Recorded(ledger: Ledger, customer: string, r: DownloadResult): Ledger
  {
    if r.Fetched? && r.file !in Listed(ledger, customer) then
      ledger[customer := Listed(ledger, customer) + [r.file]]
    else ledger
  }

  /**
   * A failed download is passed on with its reason and saves nothing; a known name gives
   * `already_processed` and saves nothing; a new name is reported as downloaded and appended
   * once to its customer's list, and every other customer's list is untouched.
   */
  lemma OutcomeCases(ledger: Ledger, customer: string, r: DownloadResult)
    ensures r.NotFetched? ==>
      Outcome(ledger, customer, r) == SmartResult(false, r.fileName, Some(r.reason)) &&
      Recorded(ledger, customer, r) == ledger
    ensures r.Fetched? && r.file in Listed(ledger, customer) ==>
      Outcome(ledger, customer, r) == SmartResult(false, Some(r.file), Some(AlreadyProcessed)) &&
      Recorded(ledger, customer, r) == ledger
    ensures r.Fetched? && r.file !in Listed(ledger, customer) ==>
      Outcome(ledger, customer, r).downloaded &&
      Listed(Recorded(ledger, customer, r), customer) == Listed(ledger, customer) + [r.file] &&
      Recorded(ledger, customer, r).Keys == ledger.Keys + {customer}
    ensures forall c | c != customer :: Listed(Recorded(ledger, customer, r), c) == Listed(ledger, c)
  {
  }

  /** A result is reported as a new download exactly when the ledger grows. */
  lemma DownloadedIffRecorded(ledger: Ledger, customer: string, r: DownloadResult)
    ensures Outcome(ledger, customer, r).downloaded <==> Recorded(ledger, customer, r) != ledger
  {
    if Outcome(ledger, customer, r).downloaded {
      var l := Listed(Recorded(ledger, customer, r), customer);
      assert |l| == |Listed(ledger, customer)| + 1;
    }
  }

  /** Seeing the same download again reports it as already processed and changes nothing. */
  lemma RecordIdempotent(ledger: Ledger, customer: string, r: DownloadResult)
    ensures var after := Recorded(ledger, customer, r);
      Recorded(after, customer, r) == after &&
      (r.Fetched? ==> Outcome(after, customer, r) == SmartResult(false, Some(r.file), Some(AlreadyProcessed)))
  {
    if r.Fetched? {
      var after := Recorded(ledger, customer, r);
      if r.file !in Listed(ledger, customer) {
        assert Listed(after, customer)[|Listed(ledger, customer)|] == r.file;
      }
    }
  }

  /** No customer's list holds a name twice. */
  ghost predicate Distinct(ledger: Ledger)
  {
    forall c, i, j | c in ledger && 0 <= i < j < |ledger[c]| :: ledger[c][i] != ledger[c][j]
  }

  /** Recording keeps every list free of repeats: a name is appended only when absent. */
  lemma RecordKeepsDistinct(ledger: Ledger, customer: string, r: DownloadResult)
    requires Distinct(ledger)
    ensures Distinct(Recorded(ledger, customer, r))
  {
    var after := Recorded(ledger, customer, r);
    if after != ledger {
      var before := Listed(ledger, customer);
      forall c, i, j | c in after && 0 <= i < j < |after[c]| ensures after[c][i] != after[c][j] {
        if c == customer && j == |before| {
          assert after[c][i] == before[i];
        } else if c == customer {
          assert after[c][i] == before[i] && after[c][j] == before[j];
        }
      }
    }
  }

  /** The ledger file, as the downloader loads it at the start of a run and saves it after a new file. */
  class Tracker {
    var ledger: Ledger

    constructor(saved: Ledger)
      ensures ledger == saved
    {
      ledger := saved;
    }

    /**
     * `smartDownload` after `downloadLatestFile` has answered r: the answer, and the ledger
     * saved with the new name, marked before any processing runs.
     */
    method SmartDownload(customer: string, r: DownloadResult) returns (result: SmartResult)
      modifies this
      ensures result == Outcome(old(ledger), customer, r)
      ensures ledger == Recorded(old(ledger), customer, r)
    {
      var processed := ledger;
      if customer !in processed {
        processed := processed[customer := []];
      }
      if r.NotFetched? {
        return SmartResult(false, r.fileName, Some(r.reason));
      }
      var fileName := r.file;
      if fileName in processed[customer] {
        return SmartResult(false, Some(fileName), Some(AlreadyProcessed));
      }
      processed := processed[customer := processed[customer] + [fileName]];
      ledger := processed;
      result := SmartResult(true, Some(fileName), None);
    }
  }
}
