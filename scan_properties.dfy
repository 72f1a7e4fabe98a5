/** What one pass and a run of passes guarantee: the check-add-spawn order, that only
    files reach the cache, how errors stop the scan, and the dedup invariant. */
module ScanProperties {
  import opened Basics
  import opened FileCaches
  import opened Scanning

  // ---------------------------------------------------------------------------
  // Check, then add, then spawn

  /** The event at position `i` sits where the scan loop puts it: every insert follows a
      lookup of the same path and is followed by its spawn, and every spawn follows the
      insert and the lookup of its path. */
  ghost predicate InPlace(t: seq<Event>, i: nat)
    requires i < |t|
  {
    match t[i]
    case CacheContains(_) => true
    case CacheAdd(p) => 1 <= i && t[i - 1] == CacheContains(p) && i + 1 < |t| && t[i + 1] == SpawnWatch(p)
    case SpawnWatch(p) => 2 <= i && t[i - 1] == CacheAdd(p) && t[i - 2] == CacheContains(p)
  }

  ghost predicate WellOrdered(t: seq<Event>)
  {
    forall i :: 0 <= i < |t| ==> InPlace(t, i)
  }

  lemma ConcatKeepsOrder(a: seq<Event>, b: seq<Event>)
    requires WellOrdered(a) && WellOrdered(b)
    ensures WellOrdered(a + b)
  {
    var ab := a + b;
    forall i | 0 <= i < |ab| ensures InPlace(ab, i) {
      if i < |a| {
        assert InPlace(a, i);
      } else {
        assert InPlace(b, i - |a|);
      }
    }
  }

  lemma StepKeepsOrder(st: PassState, faults: Faults, dir: string, e: Entry)
    requires WellOrdered(st.trace)
    ensures WellOrdered(PassStep(st, faults, dir, e).trace)
  {
    if st.failed.None? && !e.isDir {
      var p := FullPath(dir, e);
      var lookup := [CacheContains(p)];
      var block := [CacheContains(p), CacheAdd(p), SpawnWatch(p)];
      assert InPlace(lookup, 0);
      assert InPlace(block, 0) && InPlace(block, 1) && InPlace(block, 2);
      ConcatKeepsOrder(st.trace, lookup);
      ConcatKeepsOrder(st.trace, block);
    }
  }

  /** A pass keeps every spawn preceded by the insert and the lookup of its path. */
  lemma {:induction false} PassKeepsOrder(start: PassState, faults: Faults, dir: string, listing: seq<Entry>)
    requires WellOrdered(start.trace)
    ensures WellOrdered(Pass(start, faults, dir, listing).trace)
    decreases |listing|
  {
    if listing != [] {
      var prefix := listing[..|listing| - 1];
      PassKeepsOrder(start, faults, dir, prefix);
      StepKeepsOrder(Pass(start, faults, dir, prefix), faults, dir, listing[|listing| - 1]);
    }
  }

  /** Across any number of passes, every watcher is spawned right after its path was
      looked up and then added, and every insert is followed by its spawn. */
  lemma {:induction false} RunWellOrdered(entries0: set<Path>, faults: Faults, dir: string, listings: seq<Listing>)
    ensures WellOrdered(Run(entries0, faults, dir, listings).trace)
    decreases |listings|
  {
    if listings != [] {
      var prefix := listings[..|listings| - 1];
      RunWellOrdered(entries0, faults, dir, prefix);
      var st := Run(entries0, faults, dir, prefix);
      if st.stopped.None? && listings[|listings| - 1].Listed? {
        PassKeepsOrder(PassState(st.entries, st.trace, None), faults, dir, listings[|listings| - 1].entries);
      }
    }
  }

  // ---------------------------------------------------------------------------
  // Directories never reach the cache

  ghost predicate PathsWithin(t: seq<Event>, allowed: set<Path>)
  {
    forall ev :: ev in t ==> ev.path in allowed
  }

  lemma {:induction false} PassWithin(start: PassState, faults: Faults, dir: string, listing: seq<Entry>, allowed: set<Path>)
    requires PathsWithin(start.trace, allowed)
    requires FilePaths(dir, listing) <= allowed
    ensures PathsWithin(Pass(start, faults, dir, listing).trace, allowed)
    decreases |listing|
  {
    if listing != [] {
      var prefix := listing[..|listing| - 1];
      var e := listing[|listing| - 1];
      assert FilePaths(dir, prefix) <= FilePaths(dir, listing) by {
        forall x | x in prefix ensures x in listing { }
      }
      PassWithin(start, faults, dir, prefix, allowed);
      if !e.isDir {
        assert FullPath(dir, e) in FilePaths(dir, listing);
      }
    }
  }

  /** Every path any lookup, insert or spawn of a run is about is the full path of a
      non-directory entry of one of its listings. */
  lemma {:induction false} RunTouchesOnlyFiles(entries0: set<Path>, faults: Faults, dir: string, listings: seq<Listing>)
    ensures PathsWithin(Run(entries0, faults, dir, listings).trace, ListedFiles(dir, listings))
    decreases |listings|
  {
    if listings != [] {
      var prefix := listings[..|listings| - 1];
      var l := listings[|listings| - 1];
      RunTouchesOnlyFiles(entries0, faults, dir, prefix);
      assert ListedFiles(dir, prefix) <= ListedFiles(dir, listings) by {
        forall x | x in prefix ensures x in listings { }
      }
      var st := Run(entries0, faults, dir, prefix);
      if st.stopped.None? && l.Listed? {
        assert FilePaths(dir, l.entries) <= ListedFiles(dir, listings);
        PassWithin(PassState(st.entries, st.trace, None), faults, dir, l.entries, ListedFiles(dir, listings));
      }
    }
  }

  // ---------------------------------------------------------------------------
  // Errors

  /** A failing lookup ends the pass at once with that error: the later entries are not
      looked at, and the failing entry is neither added nor given a watcher. */
  lemma PassStopsAtLookupError(start: PassState, faults: Faults, dir: string, before: seq<Entry>, e: Entry, after: seq<Entry>)
    requires Pass(start, faults, dir, before).failed.None?
    requires LookupFails(faults, dir, e)
    ensures var b := Pass(start, faults, dir, before);
            Pass(start, faults, dir, before + [e] + after)
            == PassState(b.entries, b.trace + [CacheContains(FullPath(dir, e))], Some(faults.onContains[FullPath(dir, e)]))
  {
    assert (before + [e])[..|before|] == before;
    PassFailedStays(start, faults, dir, before + [e], after);
  }

  /** A pass fails exactly when one of its files has a failing lookup; a failing `Add`
      never stops it. */
  lemma {:induction false} PassFailsIffLookupFails(start: PassState, faults: Faults, dir: string, listing: seq<Entry>)
    requires start.failed.None?
    ensures Pass(start, faults, dir, listing).failed.Some?
            <==> exists k :: 0 <= k < |listing| && LookupFails(faults, dir, listing[k])
    decreases |listing|
  {
    if listing != [] {
      var n := |listing| - 1;
      var prefix := listing[..n];
      PassFailsIffLookupFails(start, faults, dir, prefix);
      if Pass(start, faults, dir, prefix).failed.Some? {
        var k :| 0 <= k < |prefix| && LookupFails(faults, dir, prefix[k]);
        assert listing[k] == prefix[k];
      } else {
        forall k | 0 <= k < n ensures !LookupFails(faults, dir, listing[k]) {
          assert listing[k] == prefix[k];
        }
      }
    }
  }

  /** A listing error ends the scan with that error; the pass it belongs to looks up,
      adds and spawns nothing, and later listings are never made. */
  lemma RunStopsAtListingError(entries0: set<Path>, faults: Faults, dir: string, before: seq<Listing>, e: IoError, after: seq<Listing>)
    requires Run(entries0, faults, dir, before).stopped.None?
    ensures var b := Run(entries0, faults, dir, before);
            Run(entries0, faults, dir, before + [ListFailed(e)] + after)
            == RunState(b.entries, b.trace, Some(ListingFailed(e)))
  {
    assert (before + [ListFailed(e)])[..|before|] == before;
    RunStoppedStays(entries0, faults, dir, before + [ListFailed(e)], after);
  }

  /** A pass whose lookup fails ends the scan with that error, and later listings are
      never made. */
  lemma RunStopsAtCacheError(entries0: set<Path>, faults: Faults, dir: string, before: seq<Listing>, es: seq<Entry>, after: seq<Listing>)
    requires Run(entries0, faults, dir, before).stopped.None?
    requires exists k :: 0 <= k < |es| && LookupFails(faults, dir, es[k])
    ensures var b := Run(entries0, faults, dir, before);
            var p := Pass(PassState(b.entries, b.trace, None), faults, dir, es);
            p.failed.Some? &&
            Run(entries0, faults, dir, before + [Listed(es)] + after)
            == RunState(p.entries, p.trace, Some(CacheFailed(p.failed.value)))
  {
    var b := Run(entries0, faults, dir, before);
    PassFailsIffLookupFails(PassState(b.entries, b.trace, None), faults, dir, es);
    assert (before + [Listed(es)])[..|before|] == before;
    RunStoppedStays(entries0, faults, dir, before + [Listed(es)], after);
  }

  // ---------------------------------------------------------------------------
  // What the cache holds after a pass

  lemma FilePathsSnoc(dir: string, prefix: seq<Entry>, e: Entry)
    ensures FilePaths(dir, prefix + [e]) == FilePaths(dir, prefix) + (if e.isDir then {} else {FullPath(dir, e)})
  {
  }

  /** After a pass without a cache error, the cache holds what it held before plus the
      full path of every file in the listing whose `Add` succeeds; with the default map
      cache, every file of the listing. */
  lemma {:induction false} PassCachesEveryFile(start: PassState, faults: Faults, dir: string, listing: seq<Entry>)
    requires start.failed.None?
    ensures var r := Pass(start, faults, dir, listing);
            r.failed.None? ==> r.entries == start.entries + (FilePaths(dir, listing) - faults.onAdd.Keys)
    decreases |listing|
  {
    if listing != [] {
      var prefix := listing[..|listing| - 1];
      var e := listing[|listing| - 1];
      assert listing == prefix + [e];
      FilePathsSnoc(dir, prefix, e);
      PassCachesEveryFile(start, faults, dir, prefix);
    }
  }

  // ---------------------------------------------------------------------------
  // The dedup invariant

  /** The set of paths a trace spawns a watcher for. */
  ghost function SpawnedSet(t: seq<Event>): set<Path>
  {
    set ev | ev in t && ev.SpawnWatch? :: ev.path
  }

  /** The dedup invariant, relative to the cache contents `entries0` at the start: no
      spawned path was already known, a path is spawned twice only if its `Add` fails,
      and the cache holds exactly the starting paths plus those spawned and added. */
  ghost predicate Deduplicated(entries0: set<Path>, faults: Faults, entries: set<Path>, t: seq<Event>)
  {
    && (forall i :: 0 <= i < |t| && t[i].SpawnWatch? ==> t[i].path !in entries0)
    && (forall i, j :: 0 <= i < j < |t| && t[i].SpawnWatch? && t[j].SpawnWatch? && t[i].path == t[j].path
          ==> t[i].path in faults.onAdd)
    && entries == entries0 + (SpawnedSet(t) - faults.onAdd.Keys)
  }

  /** One entry of a pass keeps the invariant. */
  lemma StepKeepsDedup(entries0: set<Path>, st: PassState, faults: Faults, dir: string, e: Entry)
    requires Deduplicated(entries0, faults, st.entries, st.trace)
    ensures var r := PassStep(st, faults, dir, e); Deduplicated(entries0, faults, r.entries, r.trace)
  {
  }

  lemma {:induction false} PassKeepsDedup(entries0: set<Path>, start: PassState, faults: Faults, dir: string, listing: seq<Entry>)
    requires Deduplicated(entries0, faults, start.entries, start.trace)
    ensures var r := Pass(start, faults, dir, listing); Deduplicated(entries0, faults, r.entries, r.trace)
    decreases |listing|
  {
    if listing != [] {
      var prefix := listing[..|listing| - 1];
      PassKeepsDedup(entries0, start, faults, dir, prefix);
      StepKeepsDedup(entries0, Pass(start, faults, dir, prefix), faults, dir, listing[|listing| - 1]);
    }
  }

  /** Across any number of passes sharing one cache: no watcher is spawned for a path the
      cache knew at the start, a path is spawned twice only if the cache failed to add it,
      and the cache ends up holding the starting paths plus every spawned path it added. */
  lemma {:induction false} RunDeduplicated(entries0: set<Path>, faults: Faults, dir: string, listings: seq<Listing>)
    ensures var r := Run(entries0, faults, dir, listings); Deduplicated(entries0, faults, r.entries, r.trace)
    decreases |listings|
  {
    if listings != [] {
      var prefix := listings[..|listings| - 1];
      RunDeduplicated(entries0, faults, dir, prefix);
      var st := Run(entries0, faults, dir, prefix);
      if st.stopped.None? && listings[|listings| - 1].Listed? {
        PassKeepsDedup(entries0, PassState(st.entries, st.trace, None), faults, dir, listings[|listings| - 1].entries);
      }
    }
  }

  /** No two positions of the trace spawn a watcher for the same path. */
  ghost predicate SpawnsOnce(t: seq<Event>)
  {
    forall i, j :: 0 <= i < j < |t| && t[i].SpawnWatch? && t[j].SpawnWatch? ==> t[i].path != t[j].path
  }

  /** With a cache whose `Add` never fails (the default map cache among them), across any
      number of passes each path gets at most one watcher, never one for a path the cache
      already held, and the cache ends up holding exactly the starting and spawned paths. */
  lemma RunSpawnsEachPathOnce(entries0: set<Path>, faults: Faults, dir: string, listings: seq<Listing>)
    requires faults.onAdd == map[]
    ensures var r := Run(entries0, faults, dir, listings);
            && SpawnsOnce(r.trace)
            && (forall ev :: ev in r.trace && ev.SpawnWatch? ==> ev.path !in entries0)
            && r.entries == entries0 + SpawnedSet(r.trace)
  {
    RunDeduplicated(entries0, faults, dir, listings);
    var r := Run(entries0, faults, dir, listings);
    forall ev | ev in r.trace && ev.SpawnWatch? ensures ev.path !in entries0 {
      var i :| 0 <= i < |r.trace| && r.trace[i] == ev;
    }
  }

  lemma ListedFilesSnoc(dir: string, prefix: seq<Listing>, l: Listing)
    ensures ListedFiles(dir, prefix + [l]) == ListedFiles(dir, prefix) + (if l.Listed? then FilePaths(dir, l.entries) else {})
  {
  }

  /** After a run that every listing and lookup succeeded in, the cache holds the starting
      paths plus every listed file whose `Add` succeeds. */
  lemma {:induction false} RunCachesEveryFile(entries0: set<Path>, faults: Faults, dir: string, listings: seq<Listing>)
    ensures var r := Run(entries0, faults, dir, listings);
            r.stopped.None? ==> r.entries == entries0 + (ListedFiles(dir, listings) - faults.onAdd.Keys)
    decreases |listings|
  {
    if listings != [] {
      var prefix := listings[..|listings| - 1];
      var l := listings[|listings| - 1];
      assert listings == prefix + [l];
      ListedFilesSnoc(dir, prefix, l);
      RunCachesEveryFile(entries0, faults, dir, prefix);
      var st := Run(entries0, faults, dir, prefix);
      if st.stopped.None? && l.Listed? {
        PassCachesEveryFile(PassState(st.entries, st.trace, None), faults, dir, l.entries);
      }
    }
  }
}
