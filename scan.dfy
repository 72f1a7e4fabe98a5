/** The scan loop of `Scanner.ScanForFiles`: list the directory, ask the cache about each
    file, register what is new and spawn one watcher for it. */
module Scanning {
  import opened Basics
  import opened FileCaches

  /** What a pass does that others can observe, in order: cache lookups, cache inserts
      and watcher spawns. */
  datatype Event = CacheContains(path: Path) | CacheAdd(path: Path) | SpawnWatch(path: Path)

  /** The outcome of one `ioutil.ReadDir` call. */
  datatype Listing = Listed(entries: seq<Entry>) | ListFailed(err: IoError)

  /** Why `ScanForFiles` returned. `Cancelled` is the context's error once it is cancelled. */
  datatype ScanError =
    | ForagerRequired
    | ListingFailed(listErr: IoError)
    | CacheFailed(cacheErr: IoError)
    | Cancelled

  /** The scanner's configuration: whether a forager callback is set, the optional cache
      (null means "use a fresh map cache") and the configured inactivity cutoff in ns. */
  datatype Scanner = Scanner(hasForager: bool, cache: FileCache?, inactivityCutoff: int)

  // ---------------------------------------------------------------------------
  // Specification of one pass over a listing (the inner loop)

  /** The cache contents, the events so far and the cache error that ended the pass, if any. */
  datatype PassState = PassState(entries: set<Path>, trace: seq<Event>, failed: Option<IoError>)

  /** Handling of one listing entry: directories are skipped; for a file, a failing lookup
      ends the pass, a known path is left alone, and an unknown path is added and then
      gets a watcher. A failing `Add` is ignored. */
  function PassStep(st: PassState, faults: Faults, dir: string, e: Entry): PassState
  {
    if st.failed.Some? || e.isDir then st
    else
      var p := FullPath(dir, e);
      if p in faults.onContains then
        PassState(st.entries, st.trace + [CacheContains(p)], Some(faults.onContains[p]))
      else if p in st.entries then
        PassState(st.entries, st.trace + [CacheContains(p)], None)
      else
        PassState(if p in faults.onAdd then st.entries else st.entries + {p},
                  st.trace + [CacheContains(p), CacheAdd(p), SpawnWatch(p)], None)
  }

  /** The state after handling `listing` in order, starting from `start`. */
  function Pass(start: PassState, faults: Faults, dir: string, listing: seq<Entry>): PassState
    decreases |listing|
  {
    if listing == [] then start
    else PassStep(Pass(start, faults, dir, listing[..|listing| - 1]), faults, dir, listing[|listing| - 1])
  }

  /** The full paths of the non-directory entries of `listing`. */
  ghost function FilePaths(dir: string, listing: seq<Entry>): set<Path>
  {
    set e | e in listing && !e.isDir :: FullPath(dir, e)
  }

  /** A lookup of `e` would fail. */
  ghost predicate LookupFails(faults: Faults, dir: string, e: Entry)
  {
    !e.isDir && FullPath(dir, e) in faults.onContains
  }

  // ---------------------------------------------------------------------------
  // Specification of the outer loop

  /** The cache contents, the events so far and the reason the loop stopped, if it did. */
  datatype RunState = RunState(entries: set<Path>, trace: seq<Event>, stopped: Option<ScanError>)

  /** One iteration of the outer loop: a listing error stops the loop, otherwise one pass runs
      and a cache error stops the loop. */
  function RunStep(st: RunState, faults: Faults, dir: string, l: Listing): RunState
  {
    if st.stopped.Some? then st
    else
      match l
      case ListFailed(e) => RunState(st.entries, st.trace, Some(ListingFailed(e)))
      case Listed(es) =>
        var p := Pass(PassState(st.entries, st.trace, None), faults, dir, es);
        RunState(p.entries, p.trace, if p.failed.Some? then Some(CacheFailed(p.failed.value)) else None)
  }

  /** The state after the passes whose listings are `listings`, starting from a cache holding `entries0`. */
  function Run(entries0: set<Path>, faults: Faults, dir: string, listings: seq<Listing>): RunState
    decreases |listings|
  {
    if listings == [] then RunState(entries0, [], None)
    else RunStep(Run(entries0, faults, dir, listings[..|listings| - 1]), faults, dir, listings[|listings| - 1])
  }

  /** What `ScanForFiles` returns once the passes are over: the error that stopped it, or
      the context's cancellation. */
  function Outcome(r: RunState): ScanError
  {
    if r.stopped.Some? then r.stopped.value else Cancelled
  }

  /** The full paths of the non-directory entries of every successful listing. */
  ghost function ListedFiles(dir: string, listings: seq<Listing>): set<Path>
  {
    set l, e | l in listings && l.Listed? && e in l.entries && !e.isDir :: FullPath(dir, e)
  }

  // ---------------------------------------------------------------------------
  // The code

  /** One pass of the inner loop over an already listed directory. */
  method ScanDirectory(cache: FileCache, dir: string, listing: seq<Entry>)
    returns (trace: seq<Event>, failed: Option<IoError>)
    modifies cache
    ensures Pass(PassState(old(cache.entries), [], None), cache.faults, dir, listing)
            == PassState(cache.entries, trace, failed)
  {
    ghost var start := PassState(cache.entries, [], None);
    trace, failed := [], None;
    var i := 0;
    while i < |listing|
      invariant 0 <= i <= |listing|
      invariant Pass(start, cache.faults, dir, listing[..i]) == PassState(cache.entries, trace, None)
    {
      var e := listing[i];
      assert listing[..i + 1][..i] == listing[..i];
      if !e.isDir {
        var p := FullPath(dir, e);
        var known, err := cache.Contains(p);
        trace := trace + [CacheContains(p)];
        if err.Some? {
          failed := err;
          PassFailedStays(start, cache.faults, dir, listing[..i + 1], listing[i + 1..]);
          assert listing[..i + 1] + listing[i + 1..] == listing;
          return;
        }
        if !known {
          var ignored := cache.Add(p);
          trace := trace + [CacheAdd(p), SpawnWatch(p)];
        }
      }
      i := i + 1;
    }
    assert listing[..i] == listing;
  }

  /** `ScanForFiles` over the listings of the passes that start before the context is
      cancelled. */
  method ScanForFiles(s: Scanner, dir: string, listings: seq<Listing>)
    returns (trace: seq<Event>, err: ScanError)
    modifies s.cache
    ensures !s.hasForager ==>
              err == ForagerRequired && trace == [] &&
              (s.cache != null ==> s.cache.entries == old(s.cache.entries))
    ensures s.hasForager && s.cache != null ==>
              var r := Run(old(s.cache.entries), s.cache.faults, dir, listings);
              s.cache.entries == r.entries && trace == r.trace && err == Outcome(r)
    ensures s.hasForager && s.cache == null ==>
              var r := Run({}, NoFaults, dir, listings);
              trace == r.trace && err == Outcome(r)
  {
    if !s.hasForager {
      return [], ForagerRequired;
    }
    var cache := s.cache;
    if cache == null {
      cache := new FileCache.MapCache();
    }
    ghost var entries0 := cache.entries;
    trace := [];
    var i := 0;
    while i < |listings|
      invariant 0 <= i <= |listings|
      invariant s.cache != null ==> cache == s.cache
      invariant s.cache == null ==> entries0 == {} && cache.faults == NoFaults
      invariant Run(entries0, cache.faults, dir, listings[..i]) == RunState(cache.entries, trace, None)
    {
      assert listings[..i + 1][..i] == listings[..i];
      match listings[i]
      case ListFailed(e) =>
        RunStoppedStays(entries0, cache.faults, dir, listings[..i + 1], listings[i + 1..]);
        assert listings[..i + 1] + listings[i + 1..] == listings;
        return trace, ListingFailed(e);
      case Listed(es) =>
        ghost var before, entriesBefore := trace, cache.entries;
        var passTrace, failed := ScanDirectory(cache, dir, es);
        PassFromTrace(PassState(entriesBefore, [], None), before, cache.faults, dir, es);
        trace := trace + passTrace;
        if failed.Some? {
          RunStoppedStays(entries0, cache.faults, dir, listings[..i + 1], listings[i + 1..]);
          assert listings[..i + 1] + listings[i + 1..] == listings;
          return trace, CacheFailed(failed.value);
        }
      i := i + 1;
    }
    assert listings[..i] == listings;
    return trace, Cancelled;
  }

  // ---------------------------------------------------------------------------
  // Lemmas the code needs

  /** Once a pass has failed, later entries change nothing. */
  lemma {:induction false} PassFailedStays(start: PassState, faults: Faults, dir: string, a: seq<Entry>, b: seq<Entry>)
    requires Pass(start, faults, dir, a).failed.Some?
    ensures Pass(start, faults, dir, a + b) == Pass(start, faults, dir, a)
    decreases |b|
  {
    if b != [] {
      var b' := b[..|b| - 1];
      assert (a + b)[..|a + b| - 1] == a + b';
      assert (a + b)[|a + b| - 1] == b[|b| - 1];
      PassFailedStays(start, faults, dir, a, b');
    } else {
      assert a + b == a;
    }
  }

  /** A pass that starts after the events `before` produces the events it would produce
      from an empty trace, appended to `before`. */
  lemma {:induction false} PassFromTrace(start: PassState, before: seq<Event>, faults: Faults, dir: string, listing: seq<Entry>)
    requires start.trace == [] && start.failed.None?
    ensures var r := Pass(start, faults, dir, listing);
            Pass(PassState(start.entries, before, None), faults, dir, listing)
            == PassState(r.entries, before + r.trace, r.failed)
    decreases |listing|
  {
    if listing != [] {
      var prefix := listing[..|listing| - 1];
      PassFromTrace(start, before, faults, dir, prefix);
      var r' := Pass(start, faults, dir, prefix);
      var e := listing[|listing| - 1];
      if r'.failed.None? && !e.isDir {
        var p := FullPath(dir, e);
        assert (before + r'.trace) + [CacheContains(p)] == before + (r'.trace + [CacheContains(p)]);
        assert (before + r'.trace) + [CacheContains(p), CacheAdd(p), SpawnWatch(p)]
            == before + (r'.trace + [CacheContains(p), CacheAdd(p), SpawnWatch(p)]);
      }
    }
  }

  /** Once the outer loop has stopped, later listings change nothing. */
  lemma {:induction false} RunStoppedStays(entries0: set<Path>, faults: Faults, dir: string, a: seq<Listing>, b: seq<Listing>)
    requires Run(entries0, faults, dir, a).stopped.Some?
    ensures Run(entries0, faults, dir, a + b) == Run(entries0, faults, dir, a)
    decreases |b|
  {
    if b != [] {
      var b' := b[..|b| - 1];
      assert (a + b)[..|a + b| - 1] == a + b';
      assert (a + b)[|a + b| - 1] == b[|b| - 1];
      RunStoppedStays(entries0, faults, dir, a, b');
    } else {
      assert a + b == a;
    }
  }
}
