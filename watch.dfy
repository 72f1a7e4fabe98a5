/** The per-file inactivity watcher `Scanner.watch`: poll a file's modification time until
    the file is gone, the context is cancelled, or the file has not changed for longer
    than the cutoff, and only in the last case call the forager. */
module Watching {
  import opened Basics

  /** Durations and instants are integer nanoseconds, as `time.Duration` is. */
  const Second: int := 1_000_000_000

  const DefaultFileInactivityCutoff: int := 5 * Second

  /** The cutoff a watcher uses: the configured one when positive, else the default. */
  function EffectiveCutoff(configured: int): (cutoff: int)
    ensures cutoff > 0
    ensures configured > 0 ==> cutoff == configured
    ensures configured <= 0 ==> cutoff == DefaultFileInactivityCutoff
  {
    if configured <= 0 then DefaultFileInactivityCutoff else configured
  }

  /** What one poll sees: the result of `os.Stat` (None when it failed, else the
      modification time), whether the context is cancelled, and the current time. */
  datatype Observation = Observation(stat: Option<int>, cancelled: bool, now: int)

  /** How a watch ends, with the index of the deciding poll; `StillPolling` when the
      observations run out before anything is decided. */
  datatype WatchOutcome =
    | FileGone(at: nat)
    | WatchCancelled(at: nat)
    | FileSettled(at: nat)
    | StillPolling

  /** A poll after which the watcher sleeps and polls again: the file exists, the context
      is live, and the file changed no longer than `cutoff` ago. */
  ghost predicate KeepsPolling(cutoff: int, o: Observation)
  {
    o.stat.Some? && !o.cancelled && o.now - o.stat.value <= cutoff
  }

  /** Poll `o` justifies ending the watch with `r`: a failed stat means the file is gone,
      whether or not the context is also cancelled; a cancelled context with the file
      present means cancellation; a present file, a live context and an age strictly above
      the cutoff mean the file has settled. */
  ghost predicate Decides(cutoff: int, r: WatchOutcome, o: Observation)
  {
    match r
    case FileGone(_) => o.stat.None?
    case WatchCancelled(_) => o.stat.Some? && o.cancelled
    case FileSettled(_) => o.stat.Some? && !o.cancelled && o.now - o.stat.value > cutoff
    case StillPolling => false
  }

  /** The watch from poll `i` on. */
  function WatchFrom(cutoff: int, obs: seq<Observation>, i: nat): WatchOutcome
    requires i <= |obs|
    decreases |obs| - i
  {
    if i == |obs| then StillPolling
    else
      var o := obs[i];
      if o.stat.None? then FileGone(i)
      else if o.cancelled then WatchCancelled(i)
      else if o.now - o.stat.value > cutoff then FileSettled(i)
      else WatchFrom(cutoff, obs, i + 1)
  }

  function WatchSpec(cutoff: int, obs: seq<Observation>): WatchOutcome
  {
    WatchFrom(cutoff, obs, 0)
  }

  /** `watch` for the file `fname` with the configured cutoff, given the polls it makes:
      `obs[0]` is the first stat, and each later one follows a one-second sleep.
      `foraged` lists the paths the forager is called with. */
  method Watch(configured: int, fname: Path, obs: seq<Observation>)
    returns (outcome: WatchOutcome, foraged: seq<Path>)
    ensures outcome == WatchSpec(EffectiveCutoff(configured), obs)
    ensures foraged == if outcome.FileSettled? then [fname] else []
  {
    var cutoff := configured;
    if cutoff <= 0 {
      cutoff := DefaultFileInactivityCutoff;
    }
    var i := 0;
    while true
      invariant 0 <= i <= |obs|
      invariant WatchFrom(cutoff, obs, i) == WatchSpec(cutoff, obs)
      decreases |obs| - i
    {
      if i == |obs| {
        return StillPolling, [];
      }
      var o := obs[i];
      if o.stat.None? {
        return FileGone(i), [];
      }
      if o.cancelled {
        return WatchCancelled(i), [];
      }
      if o.now - o.stat.value > cutoff {
        break;
      }
      i := i + 1;
    }
    outcome, foraged := FileSettled(i), [fname];
  }

  // ---------------------------------------------------------------------------
  // Properties of the watch

  lemma {:induction false} WatchFromCharacterized(cutoff: int, obs: seq<Observation>, i: nat)
    requires i <= |obs|
    ensures var r := WatchFrom(cutoff, obs, i);
            && (r.StillPolling? <==> forall j :: i <= j < |obs| ==> KeepsPolling(cutoff, obs[j]))
            && (!r.StillPolling? ==>
                  && i <= r.at < |obs|
                  && (forall j :: i <= j < r.at ==> KeepsPolling(cutoff, obs[j]))
                  && Decides(cutoff, r, obs[r.at]))
    decreases |obs| - i
  {
    if i < |obs| && KeepsPolling(cutoff, obs[i]) {
      WatchFromCharacterized(cutoff, obs, i + 1);
    }
  }

  /** The watch ends at the first poll that does not keep it polling, in the way that
      poll decides; it is still polling exactly when every poll keeps it polling. */
  lemma WatchCharacterized(cutoff: int, obs: seq<Observation>)
    ensures var r := WatchSpec(cutoff, obs);
            && (r.StillPolling? <==> forall j :: 0 <= j < |obs| ==> KeepsPolling(cutoff, obs[j]))
            && (!r.StillPolling? ==>
                  && r.at < |obs|
                  && (forall j :: 0 <= j < r.at ==> KeepsPolling(cutoff, obs[j]))
                  && Decides(cutoff, r, obs[r.at]))
  {
    WatchFromCharacterized(cutoff, obs, 0);
  }

  /** Conversely, if poll `k` is the first that does not keep the watcher polling, the
      watch ends at `k` in the way poll `k` decides. */
  lemma WatchEndsAtFirstDecidingPoll(cutoff: int, obs: seq<Observation>, k: nat)
    requires k < |obs|
    requires forall j :: 0 <= j < k ==> KeepsPolling(cutoff, obs[j])
    requires !KeepsPolling(cutoff, obs[k])
    ensures var r := WatchSpec(cutoff, obs); !r.StillPolling? && r.at == k && Decides(cutoff, r, obs[k])
  {
    WatchCharacterized(cutoff, obs);
  }

  /** A file whose age is at most the cutoff at every poll where it is present is never
      foraged, whether or not it is deleted or the context is cancelled along the way. */
  lemma FreshFileNeverSettles(cutoff: int, obs: seq<Observation>)
    requires forall j :: 0 <= j < |obs| && obs[j].stat.Some? ==> obs[j].now - obs[j].stat.value <= cutoff
    ensures !WatchSpec(cutoff, obs).FileSettled?
  {
    WatchCharacterized(cutoff, obs);
  }

  /** A file that is present, young and under a live context at every poll keeps the
      watcher polling to the end of the observations. */
  lemma FreshFileKeepsPolling(cutoff: int, obs: seq<Observation>)
    requires forall j :: 0 <= j < |obs| ==> KeepsPolling(cutoff, obs[j])
    ensures WatchSpec(cutoff, obs) == StillPolling
  {
    WatchCharacterized(cutoff, obs);
  }

  /** A file that stays put with modification time `mtime` while the context is live is
      foraged at the latest at the first poll where its age exceeds the cutoff. */
  lemma StableFileSettles(cutoff: int, obs: seq<Observation>, mtime: int, k: nat)
    requires k < |obs|
    requires forall j :: 0 <= j <= k ==> obs[j].stat == Some(mtime) && !obs[j].cancelled
    requires obs[k].now - mtime > cutoff
    ensures var r := WatchSpec(cutoff, obs); r.FileSettled? && r.at <= k
  {
    WatchCharacterized(cutoff, obs);
    var r := WatchSpec(cutoff, obs);
    assert !KeepsPolling(cutoff, obs[k]);
  }

  /** When polls are at most `poll` apart and the file did not change between the last
      two, it is foraged when its age is above the cutoff by at most one poll interval. */
  lemma SettlesWithinOnePoll(cutoff: int, obs: seq<Observation>, poll: int)
    requires WatchSpec(cutoff, obs).FileSettled?
    requires var k := WatchSpec(cutoff, obs).at;
             k > 0 && k < |obs| && obs[k].stat == obs[k - 1].stat && obs[k].now - obs[k - 1].now <= poll
    ensures var k := WatchSpec(cutoff, obs).at;
            obs[k].stat.Some? && cutoff < obs[k].now - obs[k].stat.value <= cutoff + poll
  {
    WatchCharacterized(cutoff, obs);
    var k := WatchSpec(cutoff, obs).at;
    assert KeepsPolling(cutoff, obs[k - 1]);
  }

  /** The settle scenario with a two-second cutoff: a file last modified at time 0 is
      still fresh at 0, 1 and 2 seconds (an age equal to the cutoff does not settle it)
      and is foraged at the poll at 3 seconds. */
  lemma TwoSecondCutoffScenario()
    ensures var m := Some(0);
            var obs := [Observation(m, false, 0), Observation(m, false, Second),
                        Observation(m, false, 2 * Second), Observation(m, false, 3 * Second)];
            WatchSpec(EffectiveCutoff(2 * Second), obs) == FileSettled(3)
  {
    var m := Some(0);
    var obs := [Observation(m, false, 0), Observation(m, false, Second),
                Observation(m, false, 2 * Second), Observation(m, false, 3 * Second)];
    var c := EffectiveCutoff(2 * Second);
    assert WatchFrom(c, obs, 3) == FileSettled(3);
    assert WatchFrom(c, obs, 2) == WatchFrom(c, obs, 3);
    assert WatchFrom(c, obs, 1) == WatchFrom(c, obs, 2);
    assert WatchFrom(c, obs, 0) == WatchFrom(c, obs, 1);
  }
}
