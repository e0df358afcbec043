/**
 * scripts/universal_bot.js: `runBot(siteId)` looks the site up in the configuration, picks
 * the download folder by the site's type, and, after the browser has clicked the download
 * button, watches that folder until the download completes or 120 ticks have passed.
 */
module UniversalBot {
  import opened Wrappers
  import Seqs
  import opened Monitor

  /** A `config.json` entry, reduced to what the lookup and the folder choice read. */
  datatype Site = Site(id: string, kind: string)

  /** `configData.find(s => s.id === siteId)`. */
  function FindSite(config: seq<Site>, siteId: string): (r: Option<Site>)
    ensures r.None? <==> forall i | 0 <= i < |config| :: config[i].id != siteId
    ensures r.Some? ==> (r.value.id == siteId &&
      exists i | 0 <= i < |config| :: config[i] == r.value && forall j | 0 <= j < i :: config[j].id != siteId)
  {
    var k := Seqs.FindIndex(config, (s: Site) => s.id == siteId);
    if k < 0 then None else Some(config[k])
  }

  /** `path.resolve(__dirname, '../websites')`, the folder of the Excel sites. */
  const WebsitesDir := "../websites"

  /** `path.resolve(__dirname, '../temp/unsplash')`, the folder of every other site. */
  const UnsplashDir := "../temp/unsplash"

  /** `downloadPath`. */
  function DownloadPath(site: Site): string
  {
    if site.kind == "excel" then WebsitesDir else UnsplashDir
  }

  /** How `runBot` ends: `process.exit(1)` for an unknown site, otherwise after the folder watch. */
  datatype BotRun = UnknownSite | Watched(downloadPath: string, started: bool, success: bool, ticks: nat)

  /**
   * The monitor loop: `downloadStarted`, `success`, and the number of listings read, against
   * `existingFiles` listed before the click.
   */
  method WatchFolder(listing: nat -> seq<string>, existing: seq<string>) returns (started: bool, success: bool, ticks: nat)
    ensures Watch(started, success, ticks) == WatchAll(Observed(listing), |existing|)
  {
    ghost var obs := Observed(listing);
    started := false;
    success := false;
    var i: nat := 0;
    while i < Ticks
      invariant i <= Ticks
      invariant WatchFrom(obs, |existing|, i, started) == WatchAll(obs, |existing|)
    {
      // the lengths of `crFiles` and `finishedFiles` (ObserveCounts)
      var seen := Observe(listing(i));
      WatchStep(obs, |existing|, i, started, seen);
      if seen.partials > 0 {
        started := true;
      } else if started || (i > FastAfter && seen.finished > |existing|) {
        success := true;
        ticks := i + 1;
        return;
      }
      i := i + 1;
    }
    ticks := i;
  }

  /**
   * `runBot`: an unknown site id aborts before any browser work; a known one is watched in
   * `../websites` when its type is `excel` and in `../temp/unsplash` otherwise.
   */
  method RunBot(config: seq<Site>, siteId: string, existing: seq<string>, listing: nat -> seq<string>) returns (r: BotRun)
    ensures FindSite(config, siteId).None? ==> r == UnknownSite
    ensures FindSite(config, siteId).Some? ==>
      var w := WatchAll(Observed(listing), |existing|);
      r == Watched(DownloadPath(FindSite(config, siteId).value), w.started, w.stopped, w.ticks)
  {
    var site := FindSite(config, siteId);
    if site.None? {
      return UnknownSite;
    }
    var downloadPath := if site.value.kind == "excel" then WebsitesDir else UnsplashDir;
    var started, success, ticks := WatchFolder(listing, existing);
    r := Watched(downloadPath, started, success, ticks);
  }

  /**
   * The folder is `../websites` exactly for Excel sites, and `success` stays false only when
   * no tick before the limit met the stopping test, in which case all 120 listings were read.
   */
  lemma RunBotOutcome(site: Site, existing: seq<string>, listing: nat -> seq<string>)
    ensures DownloadPath(site) == WebsitesDir <==> site.kind == "excel"
    ensures var w := WatchAll(Observed(listing), |existing|);
      (!w.stopped <==> forall i: nat | i < Ticks :: !StopsAt(Observed(listing), |existing|, i)) &&
      (!w.stopped ==> w.ticks == Ticks)
  {
    assert WebsitesDir != UnsplashDir by {
      assert |WebsitesDir| != |UnsplashDir|;
    }
    WatchOutcome(Observed(listing), |existing|);
  }
}
