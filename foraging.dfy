/** The scan loop and the watchers together: which paths the forager is called with. */
module Foraging {
  import opened Basics
  import opened FileCaches
  import opened Scanning
  import opened ScanProperties
  import opened Watching

  /** The watcher spawned at position `i` of a trace ends with a forager call, given the
      polls `obsAt(i)` it makes. Each spawn has its own polls, so two watchers of one path
      (possible when the cache's `Add` fails) can end differently. */
  ghost predicate Settles(configured: int, obsAt: nat -> seq<Observation>, i: nat)
  {
    WatchSpec(EffectiveCutoff(configured), obsAt(i)).FileSettled?
  }

  /** The paths the forager is called with, in spawn order, when the watcher spawned at
      position `i` of trace `t` makes the polls `obsAt(i)`. */
  ghost function Foraged(t: seq<Event>, configured: int, obsAt: nat -> seq<Observation>): seq<Path>
    decreases |t|
  {
    if t == [] then []
    else
      var ev := t[|t| - 1];
      Foraged(t[..|t| - 1], configured, obsAt)
      + (if ev.SpawnWatch? && Settles(configured, obsAt, |t| - 1) then [ev.path] else [])
  }

  /** A path is foraged exactly when some watcher was spawned for it and that watch settles. */
  lemma {:induction false} ForagedIffSpawnedAndSettled(t: seq<Event>, configured: int, obsAt: nat -> seq<Observation>, x: Path)
    ensures x in Foraged(t, configured, obsAt)
            <==> exists i :: 0 <= i < |t| && t[i] == SpawnWatch(x) && Settles(configured, obsAt, i)
    decreases |t|
  {
    if t != [] {
      var n := |t| - 1;
      var prefix := t[..n];
      ForagedIffSpawnedAndSettled(prefix, configured, obsAt, x);
      if x in Foraged(prefix, configured, obsAt) {
        var i :| 0 <= i < |prefix| && prefix[i] == SpawnWatch(x) && Settles(configured, obsAt, i);
        assert t[i] == prefix[i];
      }
      if exists i :: 0 <= i < |t| && t[i] == SpawnWatch(x) && Settles(configured, obsAt, i) {
        var i :| 0 <= i < |t| && t[i] == SpawnWatch(x) && Settles(configured, obsAt, i);
        if i < n {
          assert prefix[i] == t[i];
        }
      }
    }
  }

  /** If no path is spawned twice, no path is foraged twice. */
  lemma {:induction false} ForagedOnce(t: seq<Event>, configured: int, obsAt: nat -> seq<Observation>)
    requires SpawnsOnce(t)
    ensures Distinct(Foraged(t, configured, obsAt))
    decreases |t|
  {
    if t != [] {
      var n := |t| - 1;
      var prefix := t[..n];
      assert SpawnsOnce(prefix) by {
        forall i, j | 0 <= i < j < |prefix| && prefix[i].SpawnWatch? && prefix[j].SpawnWatch?
          ensures prefix[i].path != prefix[j].path
        {
          assert prefix[i] == t[i] && prefix[j] == t[j];
        }
      }
      ForagedOnce(prefix, configured, obsAt);
      var ev := t[n];
      if ev.SpawnWatch? && Settles(configured, obsAt, n) {
        ForagedIffSpawnedAndSettled(prefix, configured, obsAt, ev.path);
        assert forall i :: 0 <= i < |prefix| ==> prefix[i] == t[i];
      }
    }
  }

  /** With a cache whose `Add` never fails (the default map cache among them), however
      many passes run and however each watch goes, the forager is called at most once per
      path, only for files of the listings, and never for a path the cache held at the start. */
  lemma EachFileForagedAtMostOnce(entries0: set<Path>, faults: Faults, dir: string, listings: seq<Listing>,
                                  configured: int, obsAt: nat -> seq<Observation>)
    requires faults.onAdd == map[]
    ensures var f := Foraged(Run(entries0, faults, dir, listings).trace, configured, obsAt);
            && Distinct(f)
            && (forall x :: x in f ==> x in ListedFiles(dir, listings) && x !in entries0)
  {
    var t := Run(entries0, faults, dir, listings).trace;
    RunSpawnsEachPathOnce(entries0, faults, dir, listings);
    RunTouchesOnlyFiles(entries0, faults, dir, listings);
    ForagedOnce(t, configured, obsAt);
    forall x | x in Foraged(t, configured, obsAt) ensures x in ListedFiles(dir, listings) && x !in entries0 {
      ForagedIffSpawnedAndSettled(t, configured, obsAt, x);
      var i :| 0 <= i < |t| && t[i] == SpawnWatch(x) && Settles(configured, obsAt, i);
      assert t[i] in t;
    }
  }

  /** The same guarantee for a configured scanner, whose watchers use its own cutoff: with
      the default cache (none configured) or a configured cache whose `Add` never fails,
      the run that `ScanForFiles` performs forages each listed file at most once. */
  lemma ScannerForagesEachFileOnce(s: Scanner, entries0: set<Path>, dir: string, listings: seq<Listing>,
                                   obsAt: nat -> seq<Observation>)
    requires s.cache == null ==> entries0 == {}
    requires s.cache != null ==> s.cache.faults.onAdd == map[]
    ensures var faults := if s.cache == null then NoFaults else s.cache.faults;
            var f := Foraged(Run(entries0, faults, dir, listings).trace, s.inactivityCutoff, obsAt);
            && Distinct(f)
            && (forall x :: x in f ==> x in ListedFiles(dir, listings) && x !in entries0)
  {
    var faults := if s.cache == null then NoFaults else s.cache.faults;
    EachFileForagedAtMostOnce(entries0, faults, dir, listings, s.inactivityCutoff, obsAt);
  }

  /** The second-pass scenario: with the default cache, a file listed in two passes is
      looked up twice but added and given a watcher only in the first. */
  lemma SecondPassSpawnsNoDuplicate(dir: string, name: string)
    ensures var a := Entry(name, false);
            var p := FullPath(dir, a);
            Run({}, NoFaults, dir, [Listed([a]), Listed([a])]).trace
            == [CacheContains(p), CacheAdd(p), SpawnWatch(p), CacheContains(p)]
  {
    var a := Entry(name, false);
    var p := FullPath(dir, a);
    var ls := [Listed([a]), Listed([a])];
    assert ls[..1] == [Listed([a])] && ls[..1][..0] == [];
    assert [a][..0] == [];
    var first := [CacheContains(p), CacheAdd(p), SpawnWatch(p)];
    assert Pass(PassState({}, [], None), NoFaults, dir, [a]) == PassState({p}, first, None);
    assert Run({}, NoFaults, dir, ls[..1]) == RunState({p}, first, None);
    assert Pass(PassState({p}, first, None), NoFaults, dir, [a]) == PassState({p}, first + [CacheContains(p)], None);
  }

  /** A spawn block appends its path to what is foraged exactly when its watch settles. */
  lemma ForagedAfterSpawnBlock(t: seq<Event>, p: Path, configured: int, obsAt: nat -> seq<Observation>)
    ensures Foraged(t + [CacheContains(p), CacheAdd(p), SpawnWatch(p)], configured, obsAt)
            == Foraged(t, configured, obsAt) + (if Settles(configured, obsAt, |t| + 2) then [p] else [])
  {
    var t1 := t + [CacheContains(p)];
    var t2 := t1 + [CacheAdd(p)];
    var t3 := t2 + [SpawnWatch(p)];
    assert t3 == t + [CacheContains(p), CacheAdd(p), SpawnWatch(p)];
    assert t1[..|t1| - 1] == t && t2[..|t2| - 1] == t1 && t3[..|t3| - 1] == t2;
    assert Foraged(t1, configured, obsAt) == Foraged(t, configured, obsAt);
    assert Foraged(t2, configured, obsAt) == Foraged(t1, configured, obsAt);
  }

  /** A cache whose `Add` fails for a path: listed in two passes, the path is looked up,
      "added" and spawned in both. */
  lemma FailingAddSpawnsTwice(dir: string, name: string, e: IoError)
    ensures var a := Entry(name, false);
            var p := FullPath(dir, a);
            var block := [CacheContains(p), CacheAdd(p), SpawnWatch(p)];
            Run({}, Faults(map[], map[p := e]), dir, [Listed([a]), Listed([a])]).trace == block + block
  {
    var a := Entry(name, false);
    var p := FullPath(dir, a);
    var faults := Faults(map[], map[p := e]);
    var ls := [Listed([a]), Listed([a])];
    assert ls[..1] == [Listed([a])] && ls[..1][..0] == [];
    assert [a][..0] == [];
    var block := [CacheContains(p), CacheAdd(p), SpawnWatch(p)];
    assert Pass(PassState({}, [], None), faults, dir, [a]) == PassState({}, block, None);
    assert Run({}, faults, dir, ls[..1]) == RunState({}, block, None);
    assert Pass(PassState({}, block, None), faults, dir, [a]) == PassState({}, block + block, None);
  }

  /** A cache whose `Add` fails for a path does not deduplicate it: listed in two passes,
      the file gets two watchers, and it is foraged once for each of them that settles
      (twice when both do). */
  lemma FailingAddForagesPerWatcher(dir: string, name: string, e: IoError, configured: int, obsAt: nat -> seq<Observation>)
    ensures var a := Entry(name, false);
            var p := FullPath(dir, a);
            var faults := Faults(map[], map[p := e]);
            Foraged(Run({}, faults, dir, [Listed([a]), Listed([a])]).trace, configured, obsAt)
            == (if Settles(configured, obsAt, 2) then [p] else []) + (if Settles(configured, obsAt, 5) then [p] else [])
  {
    var p := FullPath(dir, Entry(name, false));
    var block := [CacheContains(p), CacheAdd(p), SpawnWatch(p)];
    FailingAddSpawnsTwice(dir, name, e);
    ForagedAfterSpawnBlock([], p, configured, obsAt);
    assert [] + block == block;
    ForagedAfterSpawnBlock(block, p, configured, obsAt);
  }
}
