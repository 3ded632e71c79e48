# Resumable segmented download, modelled in Dafny

`vimeomaster.js` downloads videos in segments. For each entry of a video
list it fetches the entry's master manifest and picks the highest-bitrate
video track and the highest-bitrate audio track. It then downloads each
track into a destination file under `./parts/`.

A destination is assembled from numbered scratch files
(`<destination>.part<i>`). An in-progress flag file (`.<destination>~`)
marks a download that has not finished, and a later run can resume it.

This project models that engine as a sequential state machine over an
immutable filesystem, and proves what it does:

- The filesystem is a `map` from a structured `Path` (destination, flag, or
  scratch file `i` of a destination) to its bytes. `Paths.Render` gives the
  file names the code builds. `Paths.RenderInjective` shows that, within one
  destination, keying by `Path` loses nothing.
- The network is an oracle `(segment, attempt) -> Received(bytes) | Failed(error)`.
  A failed attempt leaves its scratch file truncated to nothing.
- The operations modelled from the code carry contracts. Those contracts
  are stated against reference definitions, which carry none:
  `Reassembly.Gathered` for the merge, `Fetcher.Payload` and
  `Fetcher.Payloads` for the fetch loop, and `Driver.IsBest` for track
  selection. `Coordinator.Resumed`, `Driver.Touched` and the decimal
  parsing in `Paths` are reference definitions in the same sense.
  `Fetcher.FirstFailure` is characterised by its own contract.
- A few small definitions taken straight from the code (`Fetcher.Follows`,
  `Coordinator.AlreadyComplete`, `Driver.IsBlank`, `Driver.VideoName`,
  `Driver.AudioName`) carry no contract of their own. The lemmas named in
  their rows below say what they mean.
- Lemmas relate runs to each other: the skip after success, the restart
  after exhaustion, resume versus a clean run, and a cut-off merge.

Modules, in dependency order:

| module | file | concern |
|---|---|---|
| `Wrappers` | wrappers.dfy | `Option` |
| `Paths` | paths.dfy | file kinds and their names |
| `Disk` | disk.dfy | filesystem, frame predicates |
| `Progress` | progress.dfy | `findLastSegment` |
| `Reassembly` | reassembly.dfy | `mergeSegments` |
| `Fetcher` | fetcher.dfy | `downloadSegment`, `combineSegments` |
| `Coordinator` | coordinator.dfy | `processFile` |
| `Recovery` | recovery.dfy | what one run leaves for the next |
| `Driver` | driver.dfy | URL suffix, track choice, `loadVideo`, `initJs` |

Facts about the code that the model follows and that are easy to get
wrong:

- **Attempts per segment.** Each segment gets 100 attempts: a first one
  plus `retryLimit = 99` retries (lines 132, 150).
- **When the flag is removed.** The flag is deleted in `combineSegments` at
  line 162, before the merge at line 124 runs.
- **Reporting a failure.** `processFile` logs an exhausted segment and
  calls `cb()` without an error (lines 120-127), so `loadVideo` goes on to
  the audio track.
- **Where a resume starts.** A resume refetches the last scratch file that
  exists (lines 113, 119), not the first missing one.

## Model

| member | source | states |
|---|---|---|
| Paths.Render | vimeomaster.js:92-134 | the destination and flag names of lines 92-93 and the scratch-file names of line 134 all lie in `./parts/`; the destination and its scratch files start with the destination's name; the flag is a hidden file ending in `~` |
| Paths.Decimal | vimeomaster.js:67 | the index in a scratch-file name is a non-empty digit string without a leading zero |
| Paths.DecimalRoundTrip | vimeomaster.js:67 | reading the rendered index back gives the index |
| Paths.PartIndexRoundTrip | vimeomaster.js:134 | the segment index is recovered from every scratch-file name |
| Paths.RenderInjective | vimeomaster.js:92-93 | destination, flag and scratch files of one destination have pairwise distinct names |
| Progress.FindLastSegment | vimeomaster.js:79-89 | the result is 0 or an existing scratch index below N; no scratch file above it exists below N; it is below N whenever N > 0 |
| Progress.ScanIgnoresOtherPaths | vimeomaster.js:79-89 | the scan depends only on which scratch files below N exist |
| Progress.ResumeAfterContiguousPrefix | vimeomaster.js:79-89 | after segments 0..k-1 were written and nothing later, the scan yields k-1 |
| Reassembly.MergeOne | vimeomaster.js:69-75 | an existing scratch file is appended to the destination and deleted; a missing one changes nothing; nothing else changes |
| Reassembly.MergeStep | vimeomaster.js:66-76 | one loop iteration followed by the rest of the loop is the loop from i |
| Reassembly.MergeSegmentsFrom | vimeomaster.js:66-76 | the loop from i appends the existing scratch files i..N-1 in ascending order and deletes them; nothing else changes |
| Reassembly.MergeSegments | vimeomaster.js:65-77 | the destination gains the existing scratch files 0..N-1 in ascending order; none of them remains; no other path changes |
| Fetcher.Follows | vimeomaster.js:144-153 | definition of the next request: after a failed attempt, the same segment's next attempt (line 152); after a delivered one, the next segment's first attempt (line 146). Its meaning is given by the `Chain` clauses of `Fetcher.DownloadSegment` and `Fetcher.Combine` (through `CombinedLog`): requests run in strictly increasing order within the attempt budget |
| Fetcher.FirstReceipt | vimeomaster.js:149-156 | the first attempt within the budget that delivers, and every attempt before it failed; or none, and every attempt failed |
| Fetcher.DeliveredAtFirstReceipt | vimeomaster.js:142-145 | a segment's payload is the body of its first delivering attempt |
| Fetcher.FirstFailure | vimeomaster.js:160-173 | the first segment from lo that no attempt delivers; every earlier one is deliverable |
| Fetcher.DownloadSegment | vimeomaster.js:131-157 | attempts retry, retry+1, … at one segment, at most 100 in all; a delivered body replaces the truncated scratch file; after 100 failures the last error is returned and the empty scratch file stays |
| Fetcher.DeliveredIff | vimeomaster.js:131-157 | a segment's download succeeds iff one of its 100 attempts delivers; otherwise all 100 are made and the scratch file is empty |
| Fetcher.CombineStepFiles | vimeomaster.js:144-147 | a delivered segment followed by fetching from the next one is fetching from this one (disk) |
| Fetcher.CombineStepLog | vimeomaster.js:144-147 | the same for the order of requests: the next segment starts only after this one ended |
| Fetcher.CombineFailFiles | vimeomaster.js:149-156 | an undeliverable segment stops fetching with its last error, keeps the flag, leaves its scratch file empty |
| Fetcher.CombineFailLog | vimeomaster.js:149-156 | an undeliverable segment ends the request sequence with its 100th attempt |
| Fetcher.Combine | vimeomaster.js:160-174 | the fetch loop fails iff some segment from i is undeliverable; the delivered scratch files hold their payloads; the flag is deleted iff all were delivered; only the flag and scratch files i..f change; requests run in strictly increasing order within the budget |
| Coordinator.AlreadyComplete | vimeomaster.js:95-99 | definition of the skip condition (no flag, destination present). Its meaning is given by `Coordinator.ProcessFile`'s skip clauses (skipped iff it holds, and then nothing changes or is fetched) and by `Recovery.SecondRunSkips` (every error-free run establishes it) |
| Coordinator.Prepare | vimeomaster.js:95-107 | the flag exists and keeps its content; the destination holds exactly the init bytes; nothing else changes |
| Coordinator.MergedOutput | vimeomaster.js:119-126 | after fetching and merging, the destination is what it held, the scratch files below the resume index, the payloads, and any stale scratch files above the failed segment |
| Coordinator.MergeFrame | vimeomaster.js:119-126 | fetching then merging touches only the destination, the flag and scratch files below N; the merge leaves the flag as fetching left it |
| Coordinator.CombineAndMerge | vimeomaster.js:119-127 | the merge runs whether or not fetching failed; the flag survives iff fetching failed; no scratch file below N survives |
| Coordinator.PreparedScan | vimeomaster.js:104-113 | preparing does not move the resume index, and no scratch file above the resume index contributes to the destination |
| Coordinator.ProcessFile | vimeomaster.js:91-129 | skipped iff the destination exists without a flag, then nothing changes or is fetched; otherwise fetching starts at the scan's index inclusive, the destination is init + scratch files below it + payloads, and no scratch file below N remains (a stale one at N or above, left by a longer earlier job, stays as it was); the flag remains iff a segment ran out of attempts |
| Coordinator.FreshStart | vimeomaster.js:100-119 | corrected fresh start: fetching begins at segment 0, so on success the destination is init + all payloads |
| Coordinator.ProcessFileFixed | vimeomaster.js:95-119 | same skip rule; with a flag on disk it is ProcessFile; without one it is FreshStart |
| Coordinator.StaleScratchAsWritten | vimeomaster.js:100-119 | as written, a fresh start over a leftover scratch file 1 resumes at 1, deletes the flag and leaves out segment 0 |
| Coordinator.StaleScratchFixed | vimeomaster.js:100-119 | in that situation the corrected coordinator assembles both segments |
| Coordinator.StaleScratchBreaksFreshRun | vimeomaster.js:100-119 | the two destinations differ whenever segment 0's payload is non-empty |
| Recovery.SecondRunSkips | vimeomaster.js:95-99 | after a run without error, any later run skips the destination and changes nothing |
| Recovery.RestartFromNothing | vimeomaster.js:95-119 | with the flag on disk and no scratch file below N, a run starts at segment 0 |
| Recovery.ExhaustedRunRestarts | vimeomaster.js:119-127 | after a run that ran out of attempts, the next run is not skipped and starts again from segment 0, because the merge consumed every scratch file below N |
| Recovery.ResumeMatchesFreshRun | vimeomaster.js:113-119 | resuming a download cut off while fetching segment k-1 refetches k-1 and yields init + all payloads, as a clean run does |
| Recovery.CutOffWhileMergingIsFinal | vimeomaster.js:160-165 | since the flag goes before the merge, a run cut off mid-merge is skipped by every later run, and the unmerged scratch files stay on disk |
| Driver.EndsWith | vimeomaster.js:10 | `s` ends with `suffix` iff it is some string followed by `suffix` |
| Driver.NormaliseManifestUrl | vimeomaster.js:10-12 | the result ends with `?base64_init=1`, extends the input by at most that suffix, and equals the input iff the input already ends with it |
| Driver.NormaliseIdempotent | vimeomaster.js:10-12 | normalising twice is normalising once |
| Driver.BestFrom | vimeomaster.js:19-21 | the scan yields an index no track outbids and that every later track underbids (the last of a stable ascending sort) |
| Driver.Best | vimeomaster.js:19-24 | none iff there are no tracks; otherwise no track has a higher bitrate, and every later track has a strictly lower one (last of a stable ascending sort) |
| Driver.BestIsLast | vimeomaster.js:19-21 | every track with the best bitrate comes no later than the chosen one |
| Driver.BestUnique | vimeomaster.js:19-21 | exactly one index satisfies the characterisation |
| Driver.IsBlank | vimeomaster.js:191 | definition of the stop test (empty name and empty URL). Its meaning is given by `Driver.VisitedIff`: an entry is loaded iff every entry from the start up to it is present and not blank and no earlier load failed |
| Driver.VideoName | vimeomaster.js:40 | definition of the video destination (name + `.m4v`). Its meaning is given by `Driver.DestinationsDiffer` (it never collides with the audio destination) and `Driver.LoadFrames` (the audio run leaves it as the video run left it) |
| Driver.AudioName | vimeomaster.js:51 | definition of the audio destination (name + `.m4a`). Its meaning is given by `Driver.DestinationsDiffer` and `Driver.LoadFrames`, as for `Driver.VideoName` |
| Driver.DestinationsDiffer | vimeomaster.js:40-51 | an entry's video and audio destinations are different files |
| Driver.RunFrame | vimeomaster.js:91-129 | a run of `processFile` as written touches only its destination, flag and scratch files below N |
| Driver.LoadFrames | vimeomaster.js:35-61 | the audio run leaves the video destination and its flag as the video run left them |
| Driver.LoadVideo | vimeomaster.js:8-63 | manifest failure is reported; an empty track list throws; otherwise `processFile` as written runs on the best video track's init bytes and segments, then on the best audio track's over the disk the video run left; each is skipped iff complete beforehand, and nothing outside their paths changes |
| Driver.InitJs | vimeomaster.js:190-203 | consecutive entries from n are loaded; each exists and is not blank; all but the last succeeded; the loop stops at a failed load, the end of the list, or a blank entry |
| Driver.VisitedIff | vimeomaster.js:190-203 | entry m is loaded iff it comes at or after the start, every entry up to it is present and not blank, and no earlier load failed |

## Left out

- Network and stream I/O (`https.get`, `res.on`, `fs.createWriteStream`).
  Each attempt is one oracle reply, and each write is an atomic map update.
  A body that arrives in chunks is modelled as arriving whole.
- Unflushed scratch writes. After the last segment's body ends, line 145
  calls `segmentOutput.end()` and line 146 carries on at once: the flag is
  deleted (line 162), then `mergeSegments` reads and deletes the last
  scratch file (lines 73, 75). Nothing waits for that stream's `finish`
  event, so chunks written at line 142 that are still queued can be missing
  from the destination after the flag is already gone. The model's promise
  that a successful destination is the init bytes followed by every
  payload holds only if each write reaches the disk before the next
  statement runs.
- `getJson` / `JSON.parse`, `url.resolve` and `Buffer.from(…, "base64")`.
  They are library code with no body here. Manifests arrive already parsed,
  init bytes already decoded, and track URLs are carried but not resolved;
  the segment URLs of line 104 are not built, since the network oracle is
  indexed by segment number.
- Logging and the emoji status lines. They are output only.
- Loading `./videojson.js`. The list is a parameter.
- Concurrency and the callback structure. The code runs one chain of
  callbacks at a time, and the model is that chain written as recursion.
- A network failure after part of a body has arrived, and failures of the
  file operations themselves. The model assumes the error fires before any
  data and that the disk never fails.
- Paths of different destinations that render to the same file name. The
  model keys files by destination name, so files of two destinations never
  collide. `Paths.RenderInjective` covers only one destination.
- Driver.InitJs: a failed load is an oracle `failed(n)` and is not derived
  from `Driver.LoadVideo`. It stands for a manifest failure, the only error
  that reaches the callback, and also for a throw while loading entry `n`:
  a URL that is not a string (line 10) or an empty track list, whose
  `undefined` is dereferenced at lines 28 and 32. A throw ends the loop by
  ending the process. The filesystem is not threaded from one entry to the
  next.
- Driver.Best: average bitrates are integers. Missing or non-numeric
  bitrates, which make the comparator return `NaN`, are not modelled.
- Driver.NormaliseManifestUrl: URLs are assumed to be strings. An entry
  with a name but no URL passes the stop test at line 191, and line 10 then
  calls `endsWith` on `undefined`, which throws a TypeError and ends the
  process.
- Driver.IsBlank: a list hole or an entry without fields is modelled as an
  entry whose name and URL are both empty strings.
- Driver.VideoName / Driver.AudioName: entry names are assumed to be
  strings. An entry with a URL but no name passes the stop test at line 191,
  and lines 40 and 51 then build `undefined.m4v` and `undefined.m4a`,
  because JavaScript's `+` turns `undefined` into the string "undefined".
  The model cannot express a missing name.

## Findings

| source | as written | input that shows it | evidently intended | confidence | as-written member | corrected member |
|---|---|---|---|---|---|---|
| vimeomaster.js:100-119 | a fresh start (no flag, no destination) still runs the resume scan and starts fetching at the highest scratch file it finds | no flag, no destination, a leftover `<destination>.part1`, no `.part0`, two segments, both deliverable with a non-empty first payload: segment 0 is never fetched, the flag is deleted, and the destination lacks segment 0's bytes for good | only a download whose flag is on disk resumes; a fresh start fetches from segment 0 | medium; not executed | Coordinator.StaleScratchAsWritten | Coordinator.ProcessFileFixed |
