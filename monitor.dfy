/**
 * The folder monitor shared by scripts/universal_bot.js and scripts/unsplash_downloader.js:
 * after the download click, the download folder is listed once a second for at most 120
 * ticks. A listing with a partial entry (`.crdownload` or `.tmp`) marks the download as
 * started; a listing without one ends the watch when the download had started, or, past
 * tick 15, when the finished entries outnumber the listing taken before the click.
 * The sleeps are left out: tick i is what the i-th listing shows, `obs(i)`.
 */
module Monitor {
  import opened JsText
  import Seqs

  /** `for (let i = 0; i < 120; i++)`. */
  const Ticks: nat := 120

  /** The ticks up to and including 15 never count a fast download. */
  const FastAfter: nat := 15

  /** `f.endsWith('.crdownload') || f.endsWith('.tmp')`. */
  predicate IsPartial(f: string)
  {
    EndsWith(f, ".crdownload") || EndsWith(f, ".tmp")
  }

  /** `crFiles`. */
  function Partials(files: seq<string>): seq<string>
  {
    Seqs.Filter(files, IsPartial)
  }

  /** `finishedFiles`: `!f.endsWith('.crdownload') && !f.endsWith('.tmp')`. */
  function Finished(files: seq<string>): seq<string>
  {
    Seqs.Filter(files, (f: string) => !EndsWith(f, ".crdownload") && !EndsWith(f, ".tmp"))
  }

  /**
   * The two filters split a listing: every entry is in exactly one of them, as often as it
   * is listed, and the finished entries are exactly those that are not partial.
   */
  lemma PartialsAndFinished(files: seq<string>)
    ensures |Partials(files)| + |Finished(files)| == |files|
    ensures multiset(Partials(files)) + multiset(Finished(files)) == multiset(files)
    ensures forall f | f in Partials(files) :: IsPartial(f)
    ensures forall f | f in Finished(files) :: !IsPartial(f)
    ensures forall f | f in files :: (f in Partials(files) <==> IsPartial(f)) && (f in Finished(files) <==> !IsPartial(f))
  {
    var p := (f: string) => !EndsWith(f, ".crdownload") && !EndsWith(f, ".tmp");
    assert forall f :: p(f) == !IsPartial(f);
    Seqs.FilterPartition(files, IsPartial, p);
  }

  /** What one listing shows the monitor: how many entries are partial and how many finished. */
  datatype Tick = Tick(partials: nat, finished: nat)

  /** The counts of one listing, entry by entry. */
  function Observe(files: seq<string>): Tick
    decreases |files|
  {
    if files == [] then Tick(0, 0)
    else
      var rest := Observe(files[1..]);
      if IsPartial(files[0]) then Tick(rest.partials + 1, rest.finished) else Tick(rest.partials, rest.finished + 1)
  }

  /** The counts are the lengths of `crFiles` and `finishedFiles`. */
  lemma {:induction false} ObserveCounts(files: seq<string>)
    ensures Observe(files) == Tick(|Partials(files)|, |Finished(files)|)
    decreases |files|
  {
    if files != [] {
      ObserveCounts(files[1..]);
      assert Partials(files) == (if IsPartial(files[0]) then [files[0]] else []) + Partials(files[1..]);
      assert Finished(files) == (if !IsPartial(files[0]) then [files[0]] else []) + Finished(files[1..]);
    }
  }

  /** The counts add up to the listing, and no entry is partial exactly when the first is zero. */
  lemma {:induction false} ObserveSplitsListing(files: seq<string>)
    ensures Observe(files).partials + Observe(files).finished == |files|
    ensures Observe(files).partials == 0 <==> forall f | f in files :: !IsPartial(f)
  {
    ObserveCounts(files);
    PartialsAndFinished(files);
    assert |Partials(files)| > 0 ==> Partials(files)[0] in Partials(files);
  }

  /** The counts of every listing. */
  function Observed(listing: nat -> seq<string>): nat -> Tick
  {
    (i: nat) => Observe(listing(i))
  }

  /** Tick i's listing has a partial entry. */
  predicate HasPartial(obs: nat -> Tick, i: nat)
  {
    obs(i).partials > 0
  }

  /** `downloadStarted` at the start of tick i: some listing before tick i had a partial entry. */
  predicate StartedBefore(obs: nat -> Tick, i: nat)
    decreases i
  {
    i > 0 && (StartedBefore(obs, i - 1) || HasPartial(obs, i - 1))
  }

  /** The flag is raised exactly by an earlier partial listing. */
  lemma {:induction false} StartedBeforeSome(obs: nat -> Tick, i: nat)
    ensures StartedBefore(obs, i) <==> exists j: nat | j < i :: HasPartial(obs, j)
    decreases i
  {
    if i > 0 {
      StartedBeforeSome(obs, i - 1);
      if StartedBefore(obs, i - 1) {
        var j: nat :| j < i - 1 && HasPartial(obs, j);
        assert j < i;
      }
      if exists j: nat | j < i :: HasPartial(obs, j) {
        var j: nat :| j < i && HasPartial(obs, j);
        if j < i - 1 {
          assert exists j: nat | j < i - 1 :: HasPartial(obs, j);
        }
      }
    }
  }

  /** The test that ends the watch at tick i, given whether the download had started. */
  predicate Done(obs: nat -> Tick, initial: nat, i: nat, started: bool)
  {
    obs(i).partials == 0 && (started || (i > FastAfter && obs(i).finished > initial))
  }

  /** The watch ends at tick i. */
  predicate StopsAt(obs: nat -> Tick, initial: nat, i: nat)
  {
    Done(obs, initial, i, StartedBefore(obs, i))
  }

  /** How a watch ends: the flag, whether it stopped before the limit, and the listings it read. */
  datatype Watch = Watch(started: bool, stopped: bool, ticks: nat)

  /** The watch from tick i on, with the flag as it stands at the start of that tick. */
  function WatchFrom(obs: nat -> Tick, initial: nat, i: nat, started: bool): Watch
    decreases Ticks - i
  {
    if i >= Ticks then Watch(started, false, i)
    else if obs(i).partials > 0 then WatchFrom(obs, initial, i + 1, true)
    else if started || (i > FastAfter && obs(i).finished > initial) then Watch(started, true, i + 1)
    else WatchFrom(obs, initial, i + 1, started)
  }

  /** The whole watch, from tick 0 with the flag down, against the `initial` entries listed before the click. */
  function WatchAll(obs: nat -> Tick, initial: nat): Watch
  {
    WatchFrom(obs, initial, 0, false)
  }

  /** One tick of the watch, in terms of what its listing shows. */
  lemma WatchStep(obs: nat -> Tick, initial: nat, i: nat, started: bool, seen: Tick)
    requires i < Ticks && obs(i) == seen
    ensures seen.partials > 0 ==> WatchFrom(obs, initial, i, started) == WatchFrom(obs, initial, i + 1, true)
    ensures seen.partials == 0 && (started || (i > FastAfter && seen.finished > initial)) ==>
      WatchFrom(obs, initial, i, started) == Watch(started, true, i + 1)
    ensures seen.partials == 0 && !(started || (i > FastAfter && seen.finished > initial)) ==>
      WatchFrom(obs, initial, i, started) == WatchFrom(obs, initial, i + 1, started)
  {
  }

  /** No tick before i stops the watch. */
  predicate RunsThrough(obs: nat -> Tick, initial: nat, i: nat)
    decreases i
  {
    i == 0 || (RunsThrough(obs, initial, i - 1) && !StopsAt(obs, initial, i - 1))
  }

  /** Running through tick i means no tick before it meets the stopping test. */
  lemma {:induction false} RunsThroughAll(obs: nat -> Tick, initial: nat, i: nat)
    ensures RunsThrough(obs, initial, i) <==> forall k: nat | k < i :: !StopsAt(obs, initial, k)
    decreases i
  {
    if i > 0 {
      RunsThroughAll(obs, initial, i - 1);
    }
  }

  /**
   * What a watch w begun at tick i ended with: it read no further than the limit, its flag
   * says whether some listing it read was partial, and it stopped at a tick that met the
   * stopping test after running through the earlier ones, or ran through all 120 ticks.
   */
  ghost predicate EndsWell(obs: nat -> Tick, initial: nat, i: nat, w: Watch)
  {
    i <= w.ticks <= Ticks &&
    (w.started <==> StartedBefore(obs, w.ticks)) &&
    (w.stopped ==> w.ticks >= 1 && StopsAt(obs, initial, w.ticks - 1) && RunsThrough(obs, initial, w.ticks - 1)) &&
    (!w.stopped ==> w.ticks == Ticks && RunsThrough(obs, initial, Ticks))
  }

  /** The outcome of a watch that reached tick i without stopping, with the flag raised exactly by the earlier partials. */
  lemma {:induction false} WatchFromOutcome(obs: nat -> Tick, initial: nat, i: nat, started: bool)
    requires i <= Ticks
    requires started <==> StartedBefore(obs, i)
    requires RunsThrough(obs, initial, i)
    ensures EndsWell(obs, initial, i, WatchFrom(obs, initial, i, started))
    decreases Ticks - i
  {
    if i < Ticks {
      var next := if obs(i).partials > 0 then true else started;
      if obs(i).partials == 0 && (started || (i > FastAfter && obs(i).finished > initial)) {
        assert StopsAt(obs, initial, i);
      } else {
        assert StartedBefore(obs, i + 1) == next && !StopsAt(obs, initial, i);
        WatchFromOutcome(obs, initial, i + 1, next);
        WatchFromNext(obs, initial, i, started, next);
      }
    }
  }

  /** A tick that does not stop the watch hands on to the next one. */
  lemma WatchFromNext(obs: nat -> Tick, initial: nat, i: nat, started: bool, next: bool)
    requires i < Ticks && next == (obs(i).partials > 0 || started)
    requires !(obs(i).partials == 0 && (started || (i > FastAfter && obs(i).finished > initial)))
    requires EndsWell(obs, initial, i + 1, WatchFrom(obs, initial, i + 1, next))
    ensures EndsWell(obs, initial, i, WatchFrom(obs, initial, i, started))
  {
    assert WatchFrom(obs, initial, i, started) == WatchFrom(obs, initial, i + 1, next);
  }

  /**
   * The watch reads at most 120 listings. It stops exactly when some tick before the limit
   * meets the stopping test, and then at the first such tick; otherwise it reads all 120.
   * The flag it ends with says whether any listing it read held a partial entry, so once
   * raised it is never lowered.
   */
  lemma {:induction false} WatchOutcome(obs: nat -> Tick, initial: nat)
    ensures var w := WatchAll(obs, initial);
      1 <= w.ticks <= Ticks &&
      (w.started <==> StartedBefore(obs, w.ticks)) &&
      (w.started <==> exists j: nat | j < w.ticks :: HasPartial(obs, j)) &&
      (w.stopped <==> exists i: nat | i < Ticks :: StopsAt(obs, initial, i)) &&
      (w.stopped ==> StopsAt(obs, initial, w.ticks - 1) && forall k: nat | k < w.ticks - 1 :: !StopsAt(obs, initial, k)) &&
      (!w.stopped ==> w.ticks == Ticks)
  {
    var w := WatchAll(obs, initial);
    WatchFromOutcome(obs, initial, 0, false);
    StartedBeforeSome(obs, w.ticks);
    if w.stopped {
      RunsThroughAll(obs, initial, w.ticks - 1);
      assert StopsAt(obs, initial, w.ticks - 1);
    } else {
      RunsThroughAll(obs, initial, Ticks);
    }
  }

  /** A watch that stopped saw a listing without partials, after a partial one or with more finished entries than before. */
  lemma {:induction false} StoppedWatch(obs: nat -> Tick, initial: nat)
    requires WatchAll(obs, initial).stopped
    ensures var w := WatchAll(obs, initial);
      w.ticks >= 1 &&
      var last := obs(if w.ticks >= 1 then w.ticks - 1 else 0);
      last.partials == 0 && (w.started || last.finished > initial)
  {
    var w := WatchAll(obs, initial);
    WatchOutcome(obs, initial);
    assert StartedBefore(obs, w.ticks) == (StartedBefore(obs, w.ticks - 1) || HasPartial(obs, w.ticks - 1));
  }
}
