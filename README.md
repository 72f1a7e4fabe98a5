# goforage: scan, dedup and settle engine

This project models the core of goforage (`forager.go`). goforage polls a directory for
new files. It remembers each file's full path in a dedup cache, and starts one watcher per
new path. Once a file's modification time has been older than an inactivity cutoff, the
watcher hands the path to a caller-supplied forager callback.

The model has six modules:

- `Basics` (basics.dfy): paths, directory entries, `Option` and error values. A full path is
  `Join(dir, name)`, so two different (directory, name) pairs never give the same path.
- `FileCaches` (cache.dfy): the `FileCache` interface as a class. It holds the set of
  remembered paths, which `Add` updates in place. It also holds constant tables of the
  failures a caller-supplied backend reports for a path. The default `mapCache` is the
  constructor `MapCache`, which never fails.
- `Scanning` (scan.dfy): `ScanForFiles` and its inner loop `ScanDirectory` as imperative
  methods. The directory listings and the cache calls are inputs. Each method is proved
  equal to a specification function (`Run`, `Pass`). That function yields the final cache
  contents, the ordered trace of events (cache lookup, cache insert, watcher spawn) and
  the reason the scan stopped.
- `ScanProperties` (scan_properties.dfy): what those functions guarantee. The order is
  always check, then add, then spawn. Only files reach the cache. A listing error or a
  lookup error stops the scan, and a failed `Add` does not. The dedup invariant holds
  across any number of passes.
- `Watching` (watch.dfy): `watch` as a loop over a trace of observations. Each
  observation holds the stat result, the cancellation flag and the current time in
  nanoseconds. The loop is proved equal to `WatchSpec`, and the settle rule is proved about
  that function.
- `Foraging` (foraging.dfy): the two parts combined. With a cache whose `Add` succeeds, the
  forager is called at most once per path, and only for listed files.

Inputs that stand in for I/O:

- `ioutil.ReadDir`: one `Listing` per pass.
- `os.Stat` and `time.Since`: the observation trace of each watcher.
- the context: for the scan loop, the number of passes that start before it is
  cancelled; for a watcher, a per-poll cancellation flag.

On two points that are easy to misstate, the model follows `forager.go` exactly:

- A file settles only when its age is strictly greater than the cutoff. An age equal to
  the cutoff keeps the watcher polling.
- The error returned by `Add` is ignored. Only a failing `Contains` stops the scan.

## Model

| member | source | states |
|---|---|---|
| `FileCaches.FileCache.MapCache` | forager.go:54-57 | the default cache starts empty and has no backend failures |
| `FileCaches.FileCache.Add` | forager.go:111-114 | after `Add(p)` the cache holds its old paths plus `p` and no error is returned; adding a present path changes nothing; a backend failure is returned and leaves the cache as it was |
| `FileCaches.FileCache.Contains` | forager.go:116-119 | without a backend failure the answer is true exactly when `p` is in the cache and no error is returned; a backend failure is returned as the error |
| `FileCaches.AddThenContains` | forager.go:111-119 | on a fresh default cache, after `Add(p)`, `Contains(q)` succeeds and is true exactly when `q == p` |
| `Scanning.ScanDirectory` | forager.go:65-77 | one pass over a listing yields exactly the cache contents, event trace and error given by `Pass` |
| `Scanning.ScanForFiles` | forager.go:45-82 | a missing forager returns the configuration error with no cache call or spawn and the cache untouched; otherwise the result equals `Run` on the given cache, or on a fresh empty map cache when none is configured; the return value is the stopping error, or cancellation once the passes run out |
| `ScanProperties.RunWellOrdered` | forager.go:68-75 | in every run, each spawn of `p` comes right after `Add(p)`, which comes right after `Contains(p)`, and each `Add` is followed by its spawn |
| `ScanProperties.RunTouchesOnlyFiles` | forager.go:65-67 | every path looked up, added or spawned is the full path of a non-directory entry of some successful listing, so directories never reach the cache or get a watcher |
| `ScanProperties.PassStopsAtLookupError` | forager.go:68-71 | a failing lookup ends the pass with that error: the failing entry is not added or spawned, and later entries are not examined |
| `ScanProperties.PassFailsIffLookupFails` | forager.go:68-74 | a pass fails exactly when one of its files has a failing lookup; `Add` failures never stop it |
| `ScanProperties.RunStopsAtListingError` | forager.go:60-63 | a listing error ends the scan with that error; nothing is looked up or spawned for that pass and later passes do not happen |
| `ScanProperties.RunStopsAtCacheError` | forager.go:65-71 | a pass with a failing lookup ends the scan with `CacheFailed` of that error, and later passes do not happen |
| `ScanProperties.PassCachesEveryFile` | forager.go:65-77 | after a pass without a lookup error, the cache holds its old paths plus the full path of every listed file whose `Add` succeeds (every listed file with the default cache) |
| `ScanProperties.RunCachesEveryFile` | forager.go:59-79 | after passes that all succeed, the cache holds the starting paths plus every listed file whose `Add` succeeds |
| `ScanProperties.RunDeduplicated` | forager.go:68-75 | across any number of passes, no spawned path was in the cache at the start; a path is spawned twice only if its `Add` fails; the cache holds the starting paths plus the spawned paths that were added |
| `ScanProperties.RunSpawnsEachPathOnce` | forager.go:68-75 | with a cache whose `Add` never fails, such as the default map cache, each path gets at most one watcher across all passes, and the cache ends up holding exactly the starting and spawned paths |
| `Watching.EffectiveCutoff` | forager.go:87-90 | the cutoff used is always positive; it is the configured cutoff when that is positive and 5 s otherwise |
| `Watching.Watch` | forager.go:86-109 | the watch's outcome is `WatchSpec` with the effective cutoff; the forager is called once, with `fname`, exactly when the file settles, and never otherwise |
| `Watching.WatchCharacterized` | forager.go:92-106 | the watch keeps polling exactly while each poll sees the file present, the context live and an age at most the cutoff; otherwise it ends at the first other poll. There a failed stat means gone, even if the context is also cancelled; a cancelled context means cancelled; an age strictly above the cutoff means settled |
| `Watching.WatchEndsAtFirstDecidingPoll` | forager.go:93-103 | if poll `k` is the first that does not keep the watcher polling, the watch ends at `k` as that poll decides |
| `Watching.FreshFileNeverSettles` | forager.go:92-104 | a file whose age is at most the cutoff at every poll where it is present is never foraged, whether it is deleted or the context is cancelled along the way or not |
| `Watching.FreshFileKeepsPolling` | forager.go:92-106 | a file that is present, no older than the cutoff and under a live context at every poll keeps the watcher polling |
| `Watching.StableFileSettles` | forager.go:101-102 | a file that stays unchanged under a live context is foraged no later than the first poll at which its age exceeds the cutoff |
| `Watching.SettlesWithinOnePoll` | forager.go:101-105 | when the watch settles at a poll after the first, the file is unchanged since the previous poll and the two polls are at most `poll` apart, the settling age is above the cutoff by at most `poll` (a file already old at its first stat settles at once, at any age) |
| `Watching.TwoSecondCutoffScenario` | forager.go:101-102 | with a 2 s cutoff, a file modified at 0 is still polled at 0, 1 and 2 s, and settles at the poll at 3 s |
| `Foraging.ForagedIffSpawnedAndSettled` | forager.go:74 | a path is handed to the forager exactly when some watcher was spawned for it and that watcher's own watch settled |
| `Foraging.ForagedOnce` | forager.go:108 | if no path is spawned twice, no path is foraged twice |
| `Foraging.EachFileForagedAtMostOnce` | forager.go:68-75 | with a cache whose `Add` never fails, over any passes and any watch outcomes, the forager is called at most once per path, only for listed files, never for a path cached at the start |
| `Foraging.ScannerForagesEachFileOnce` | forager.go:54-90 | for a scanner with the default cache, or a configured cache whose `Add` never fails, whose watchers use the scanner's own cutoff, the run `ScanForFiles` performs forages each path at most once, only for listed files, never for a path cached at the start |
| `Foraging.SecondPassSpawnsNoDuplicate` | forager.go:68-72 | with the default cache, a file listed in two passes is looked up twice, but added and spawned only once |
| `Foraging.FailingAddForagesPerWatcher` | forager.go:39-42 | a cache whose `Add` fails for a path does not deduplicate it: listed in two passes, the file gets two watchers with their own polls, and is foraged once for each of them that settles, twice when both do |

## Left out

- Filesystem and clock I/O (`ioutil.ReadDir`, `os.Stat`, `time.Since`, `time.Sleep`) is
  not modelled. These calls become inputs: one listing per pass, and one observation per
  poll. The one-second sleeps enter only through the observed times.
- Goroutines are not modelled. Each `go s.watch(...)` is a `SpawnWatch` event in the scan
  trace. Each spawned watcher is modelled on its own observation trace, keyed by the
  position of its spawn, so two watchers of one path can end differently. Interleavings
  between watchers, and between watchers and the scan loop, play no part.
- `context.Context` is not modelled. The scan loop takes only the passes that start before
  cancellation, and then returns its cancellation error. A watcher sees a cancellation flag
  at each poll.
- A nil context is never cancelled, so the Go loop never ends. That case is not modelled:
  a run covers only a finite prefix of the passes.
- `Scanning.ScanForFiles` does not model the unbounded outer loop. It covers any finite
  number of passes.
- `Watching.Watch` ends with `StillPolling` when its observations run out. The Go loop
  would keep polling at that point.
- `path.Join`'s lexical cleaning is not modelled. A full path is the pair (directory, name).
- `Watching.Watch` does not model `time.Since`'s 64-bit saturation. Times are unbounded
  integer nanoseconds.
- A caller-supplied `FileCache` is modelled as a set of paths plus fixed per-path failure
  tables for `Contains` and `Add`. Caches that evict, fail intermittently or are used
  concurrently are not modelled.
- The forager callback is not modelled. Only the paths it is called with are recorded;
  what it does with them, and the context passed to it, are not.
- `examples/jpegs.go` is not part of this model. It is a sample program: argument
  handling, a mutex-guarded file read and a three-byte JPEG magic-number check inside the
  example callback.
