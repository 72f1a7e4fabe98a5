/** The dedup cache: the `FileCache` interface and its default in-memory `mapCache`. */
module FileCaches {
  import opened Basics

  /** The failures a caller-supplied cache backend reports, looked up by the path it is
      asked about. The default map cache reports none. */
  datatype Faults = Faults(onContains: map<Path, IoError>, onAdd: map<Path, IoError>)

  const NoFaults: Faults := Faults(map[], map[])

  /** A dedup cache, shared by reference with the scan loop: the set of paths it
      remembers, and the failures of its backend. */
  class FileCache {
    var entries: set<Path>
    const faults: Faults

    /** The default cache `mapCache{}`: an empty map that never fails. */
    constructor MapCache()
      ensures entries == {} && faults == NoFaults
    {
      entries := {};
      faults := NoFaults;
    }

    /** A caller-supplied cache, already holding `initial`, whose backend fails as `failures` says. */
    constructor Backend(initial: set<Path>, failures: Faults)
      ensures entries == initial && faults == failures
    {
      entries := initial;
      faults := failures;
    }

    /** Records `p` as known. Adding a path already present changes nothing and is not an error. */
    method Add(p: Path) returns (err: Option<IoError>)
      modifies this`entries
      ensures p in faults.onAdd ==> err == Some(faults.onAdd[p]) && entries == old(entries)
      ensures p !in faults.onAdd ==> err == None && entries == old(entries) + {p}
    {
      if p in faults.onAdd {
        err := Some(faults.onAdd[p]);
      } else {
        entries := entries + {p};
        err := None;
      }
    }

    /** Reports whether `p` is known, or the backend's failure for `p`. */
    method Contains(p: Path) returns (known: bool, err: Option<IoError>)
      ensures p in faults.onContains ==> err == Some(faults.onContains[p]) && !known
      ensures p !in faults.onContains ==> err == None && (known <==> p in entries)
    {
      if p in faults.onContains {
        known, err := false, Some(faults.onContains[p]);
      } else {
        known, err := p in entries, None;
      }
    }
  }

  /** On a fresh default cache, after `Add(p)` the lookup `Contains(q)` succeeds and
      says yes exactly for `q == p`. */
  method AddThenContains(p: Path, q: Path) returns (known: bool, err: Option<IoError>)
    ensures err == None
    ensures known <==> q == p
  {
    var cache := new FileCache.MapCache();
    var addErr := cache.Add(p);
    known, err := cache.Contains(q);
  }
}
