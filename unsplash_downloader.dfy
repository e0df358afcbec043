/**
 * scripts/unsplash_downloader.js: after the download button is clicked, the folder
 * `temp/unsplash` is watched for at most 120 ticks, and a warning is logged when no
 * download was seen and the folder did not grow.
 */
module UnsplashDownloader {
  import opened Monitor

  /**
   * The monitor loop and the final check: `downloadStarted`, the number of listings read,
   * and whether `Warning: No new download detected.` is logged, given `existingFiles`
   * listed before the click and `finalFiles` listed after the loop.
   */
  method MonitorDownload(listing: nat -> seq<string>, existing: seq<string>, finalFiles: seq<string>)
    returns (started: bool, ticks: nat, warning: bool)
    ensures var w := WatchAll(Observed(listing), |existing|);
      started == w.started && ticks == w.ticks
    ensures warning <==> !started && |finalFiles| <= |existing|
  {
    ghost var obs := Observed(listing);
    started := false;
    var i: nat := 0;
    while i < Ticks
      invariant i <= Ticks
      invariant WatchFrom(obs, |existing|, i, started) == WatchAll(obs, |existing|)
    {
      // the lengths of `crFiles` and `finishedFiles` (ObserveCounts)
      var seen := Observe(listing(i));
      WatchStep(obs, |existing|, i, started, seen);
      if seen.partials > 0 {
        started := true;
      } else if started {
        i := i + 1;
        break;
      } else if i > FastAfter && seen.finished > |existing| {
        i := i + 1;
        break;
      }
      i := i + 1;
    }
    ticks := i;
    warning := !started && |finalFiles| <= |existing|;
  }

  /** The warning the run ends with. */
  predicate Warns(listing: nat -> seq<string>, existing: seq<string>, finalFiles: seq<string>)
  {
    !WatchAll(Observed(listing), |existing|).started && |finalFiles| <= |existing|
  }

  /**
   * The warning is logged exactly when none of the listings read held a partial entry and
   * the final folder is no larger than before the click.
   */
  lemma {:induction false} WarningCases(listing: nat -> seq<string>, existing: seq<string>, finalFiles: seq<string>)
    ensures var w := WatchAll(Observed(listing), |existing|);
      Warns(listing, existing, finalFiles) <==>
        (forall j: nat | j < w.ticks :: !HasPartial(Observed(listing), j)) && |finalFiles| <= |existing|
  {
    WatchOutcome(Observed(listing), |existing|);
  }

  /** A watch that stopped gives no warning when the folder is unchanged since its last listing. */
  lemma {:induction false} StoppedWithoutWarning(listing: nat -> seq<string>, existing: seq<string>)
    requires WatchAll(Observed(listing), |existing|).stopped
    ensures var w := WatchAll(Observed(listing), |existing|);
      w.ticks >= 1 && !Warns(listing, existing, listing(w.ticks - 1))
  {
    var obs := Observed(listing);
    var w := WatchAll(obs, |existing|);
    StoppedWatch(obs, |existing|);
    ObserveSplitsListing(listing(w.ticks - 1));
  }
}
