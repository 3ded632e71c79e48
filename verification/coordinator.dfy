/**
  The per-file coordinator: skip a finished file, otherwise (re)start it from
  the resume point, fetch the remaining segments and merge the scratch files
  into the destination.
 */
module Coordinator {

  import opened Wrappers
  import opened Paths
  import opened Disk
  import opened Progress
  import opened Reassembly
  import opened Fetcher

  /**
    The outcome of one call. `error` is the transport error that was logged
    when a segment ran out of attempts; the caller's callback is invoked
    without an error in every case.
   */
  datatype Run = Run(fs: FileSystem, skipped: bool, resume: nat, log: seq<Fetch>, error: Option<TransportError>)

  /** The destination exists and no download of it is in progress. */
  predicate AlreadyComplete(fs: FileSystem, name: string) {
    Flag(name) !in fs && Output(name) in fs
  }

  /**
    The start of a (re)started download: the flag is created empty unless it
    already exists, and the destination is overwritten with the init bytes.
   */
  function Prepare(fs: FileSystem, name: string, init: Bytes): (r: FileSystem)
    ensures Flag(name) in r && r[Flag(name)] == Contents(fs, Flag(name))
    ensures Output(name) in r && r[Output(name)] == init
    ensures AgreeOutside(fs, r, {Output(name), Flag(name)})
  {
    var flagged := if Flag(name) in fs then fs else fs[Flag(name) := []];
    flagged[Output(name) := init]
  }

  /** Scratch files whose contents are the delivered payloads gather to those payloads. */
  lemma {:induction false} GatheredPayloads(fs: FileSystem, name: string, net: Network, lo: nat, hi: nat)
    requires forall j :: lo <= j < hi ==> Contents(fs, Part(name, j)) == Payload(net, j)
    ensures Gathered(fs, name, lo, hi) == Payloads(net, lo, hi)
    decreases hi - lo
  {
    if lo < hi {
      GatheredPayloads(fs, name, net, lo + 1, hi);
    }
  }

  lemma {:induction false} PayloadsSplit(net: Network, lo: nat, mid: nat, hi: nat)
    requires lo <= mid <= hi
    ensures Payloads(net, lo, hi) == Payloads(net, lo, mid) + Payloads(net, mid, hi)
    decreases mid - lo
  {
    if lo < mid {
      PayloadsSplit(net, lo + 1, mid, hi);
      PayloadsStep(net, lo, mid, hi);
    } else {
      assert Payloads(net, lo, mid) == [];
    }
  }

  lemma PayloadsStep(net: Network, lo: nat, mid: nat, hi: nat)
    requires lo < mid <= hi
    requires Payloads(net, lo + 1, hi) == Payloads(net, lo + 1, mid) + Payloads(net, mid, hi)
    ensures Payloads(net, lo, hi) == Payloads(net, lo, mid) + Payloads(net, mid, hi)
  {
    ConsSplit(Payloads(net, lo, hi), Payload(net, lo), Payloads(net, lo + 1, hi),
              Payloads(net, lo, mid), Payloads(net, lo + 1, mid), Payloads(net, mid, hi));
  }

  /** Fetching confined to scratch files `lo` .. `hi - 1` leaves those below `lo` as they were. */
  lemma FetchedBelow(fs: FileSystem, fetched: FileSystem, name: string, lo: nat, hi: nat)
    requires AgreeOutside(fs, fetched, PartSet(name, lo, hi) + {Flag(name)})
    ensures Gathered(fetched, name, 0, lo) == Gathered(fs, name, 0, lo)
  {
    forall j | 0 <= j < lo
      ensures Contents(fetched, Part(name, j)) == Contents(fs, Part(name, j))
    {
      PartOutsideAgrees(fs, fetched, name, lo, hi, j);
    }
    GatheredFrame(fetched, fs, name, 0, lo);
  }

  /** ... and those from `hi` up to `n` as they were. */
  lemma FetchedAbove(fs: FileSystem, fetched: FileSystem, name: string, lo: nat, hi: nat, n: nat)
    requires AgreeOutside(fs, fetched, PartSet(name, lo, hi) + {Flag(name)})
    ensures Gathered(fetched, name, hi, n) == Gathered(fs, name, hi, n)
  {
    forall j | hi <= j < n
      ensures Contents(fetched, Part(name, j)) == Contents(fs, Part(name, j))
    {
      PartOutsideAgrees(fs, fetched, name, lo, hi, j);
    }
    GatheredFrame(fetched, fs, name, hi, n);
  }

  /**
    The scratch files below `n` after fetching from `resume` up to the first
    undelivered segment `f`: those below `resume` as found, the payloads, and
    whatever scratch files above `f` were already there.
   */
  lemma FetchedParts(fs: FileSystem, fetched: FileSystem, name: string, n: nat, net: Network, resume: nat, f: nat)
    requires resume <= f <= n
    requires AgreeOutside(fs, fetched, PartSet(name, resume, if f < n then f + 1 else n) + {Flag(name)})
    requires forall j :: resume <= j < f ==> Contents(fetched, Part(name, j)) == Payload(net, j)
    requires f < n ==> Contents(fetched, Part(name, f)) == []
    ensures Gathered(fetched, name, 0, n)
            == Gathered(fs, name, 0, resume) + (Payloads(net, resume, f) + Gathered(fs, name, f + 1, n))
  {
    var x := if f < n then f + 1 else n;
    FetchedBelow(fs, fetched, name, resume, x);
    GatheredPayloads(fetched, name, net, resume, f);
    GatheredSplit(fetched, name, 0, resume, n);
    GatheredSplit(fetched, name, resume, f, n);
    if f < n {
      FetchedAbove(fs, fetched, name, resume, x, n);
      assert Gathered(fetched, name, f, n) == [] + Gathered(fetched, name, f + 1, n);
    }
    Assemble(Gathered(fetched, name, 0, n), Gathered(fs, name, 0, resume), Gathered(fetched, name, resume, n),
             Payloads(net, resume, f), Gathered(fetched, name, f, n), Gathered(fs, name, f + 1, n));
  }

  /**
    The destination after a resumed run that stopped at segment `f`: what it
    held, the scratch files below the resume index, the payloads from there
    up to `f`, and any scratch files above `f` left over from before.
   */
  function Resumed(fs: FileSystem, name: string, n: nat, net: Network, resume: nat, f: nat): Bytes
    requires Output(name) in fs
  {
    fs[Output(name)] + Gathered(fs, name, 0, resume) + Payloads(net, resume, f) + Gathered(fs, name, f + 1, n)
  }

  /** The destination after fetching as in FetchedParts and merging every scratch file below `n`. */
  lemma MergedOutput(fs: FileSystem, fetched: FileSystem, merged: FileSystem, name: string, n: nat, net: Network,
                     resume: nat, f: nat)
    requires resume <= f <= n && Output(name) in fs
    requires AgreeOutside(fs, fetched, PartSet(name, resume, if f < n then f + 1 else n) + {Flag(name)})
    requires forall j :: resume <= j < f ==> Contents(fetched, Part(name, j)) == Payload(net, j)
    requires f < n ==> Contents(fetched, Part(name, f)) == []
    requires merged == MergeSegments(fetched, name, n)
    ensures Output(name) in merged
    ensures merged[Output(name)] == Resumed(fs, name, n, net, resume, f)
  {
    FetchedParts(fs, fetched, name, n, net, resume, f);
    assert AgreeAt(fs, fetched, Output(name));
    ConcatAssoc(fs[Output(name)], Gathered(fs, name, 0, resume), Payloads(net, resume, f),
                Gathered(fs, name, f + 1, n));
  }

  /** Fetching confined to scratch files `resume` .. `x - 1` and the flag, then the merge. */
  lemma MergeFrame(fs: FileSystem, fetched: FileSystem, merged: FileSystem, name: string, n: nat, resume: nat, x: nat)
    requires x <= n
    requires AgreeOutside(fs, fetched, PartSet(name, resume, x) + {Flag(name)})
    requires merged == MergeSegments(fetched, name, n)
    ensures AgreeOutside(fs, merged, PartSet(name, 0, n) + {Output(name), Flag(name)})
    ensures AgreeAt(fetched, merged, Flag(name))
  {
    assert PartSet(name, resume, x) <= PartSet(name, 0, n);
    AgreeOutsideTrans(fs, fetched, merged, PartSet(name, resume, x) + {Flag(name)},
                      PartSet(name, 0, n) + {Output(name)});
    AgreeOutsideWiden(fs, merged, PartSet(name, resume, x) + {Flag(name)} + (PartSet(name, 0, n) + {Output(name)}),
                      PartSet(name, 0, n) + {Output(name), Flag(name)});
  }

  /**
    Lines 119-127 of the downloader: fetch from `resume`, then merge every
    scratch file below `n` into the destination, whether or not the fetching
    succeeded. The flag is deleted by the fetching, before the merge starts.
   */
  function CombineAndMerge(fs: FileSystem, name: string, n: nat, net: Network, resume: nat): (r: Run)
    requires Flag(name) in fs && Output(name) in fs && resume <= n
    ensures var f := FirstFailure(net, resume, n);
      && !r.skipped && r.resume == resume
      && (r.error.None? <==> f == n)
      && (r.error.Some? ==> r.error == Some(net(f, RetryLimit).error))
      && Output(name) in r.fs
      && r.fs[Output(name)] == Resumed(fs, name, n, net, resume, f)
      && (forall j :: 0 <= j < n ==> Part(name, j) !in r.fs)
      && (Flag(name) in r.fs <==> f < n)
      && AgreeOutside(fs, r.fs, PartSet(name, 0, n) + {Output(name), Flag(name)})
      && (resume < n ==> |r.log| > 0 && r.log[0] == Fetch(resume, 0))
      && Chain(net, r.log)
      && (forall k :: 0 <= k < |r.log| ==>
            resume <= r.log[k].segment < n && r.log[k].attempt <= RetryLimit)
  {
    var c := Combine(fs, name, resume, n, net);
    var merged := MergeSegments(c.fs, name, n);
    var f := FirstFailure(net, resume, n);
    MergedOutput(fs, c.fs, merged, name, n, net, resume, f);
    MergeFrame(fs, c.fs, merged, name, n, resume, if f < n then f + 1 else n);
    Run(merged, false, resume, c.log, c.error)
  }

  /**
    Processes one destination (`processFile`). A destination that exists
    without a flag is skipped untouched and nothing is fetched. Otherwise the
    flag is created (fresh start) or kept (resume), the destination is reset
    to exactly the init bytes, fetching starts at the scan's resume index,
    inclusive, and every scratch file below `n` is then merged. On success
    the destination is the init bytes, the scratch files below the resume
    index as found, and the payloads from the resume index on; no scratch
    file below `n` and no flag remain. On an exhausted segment the error is
    logged, the merge still runs and the flag stays.
   */
  function ProcessFile(fs: FileSystem, name: string, init: Bytes, n: nat, net: Network): (r: Run)
    ensures r.skipped <==> AlreadyComplete(fs, name)
    ensures r.skipped ==> r.fs == fs && r.log == [] && r.error.None?
    ensures !r.skipped ==>
      var f := FirstFailure(net, r.resume, n);
      && r.resume == FindLastSegment(fs, name, n)
      && (r.error.None? <==> f == n)
      && (r.error.Some? ==> r.error == Some(net(f, RetryLimit).error))
      && Output(name) in r.fs
      && r.fs[Output(name)] == init + Gathered(fs, name, 0, r.resume) + Payloads(net, r.resume, f)
      && (forall j :: 0 <= j < n ==> Part(name, j) !in r.fs)
      && (Flag(name) in r.fs <==> r.error.Some?)
      && AgreeOutside(fs, r.fs, PartSet(name, 0, n) + {Output(name), Flag(name)})
      && (n > 0 ==> |r.log| > 0 && r.log[0] == Fetch(r.resume, 0))
      && Chain(net, r.log)
      && (forall k :: 0 <= k < |r.log| ==>
            r.resume <= r.log[k].segment < n && r.log[k].attempt <= RetryLimit)
  {
    if AlreadyComplete(fs, name) then
      Run(fs, true, 0, [], None)
    else
      var ready := Prepare(fs, name, init);
      var resume := FindLastSegment(ready, name, n);
      PreparedScan(fs, ready, name, init, n, net, resume);
      AgreeOutsideCompose(fs, ready, CombineAndMerge(ready, name, n, net, resume).fs,
                          {Output(name), Flag(name)},
                          PartSet(name, 0, n) + {Output(name), Flag(name)});
      CombineAndMerge(ready, name, n, net, resume)
  }

  /** The facts about the prepared state that ProcessFile's contract rests on. */
  lemma PreparedScan(fs: FileSystem, ready: FileSystem, name: string, init: Bytes, n: nat, net: Network, resume: nat)
    requires Output(name) in ready && ready[Output(name)] == init
    requires AgreeOutside(fs, ready, {Output(name), Flag(name)})
    requires resume == FindLastSegment(ready, name, n)
    ensures resume == FindLastSegment(fs, name, n)
    ensures var f := FirstFailure(net, resume, n);
      Resumed(ready, name, n, net, resume, f) == init + Gathered(fs, name, 0, resume) + Payloads(net, resume, f)
  {
    forall j | 0 <= j < n
      ensures Part(name, j) in fs <==> Part(name, j) in ready
    {
      assert AgreeAt(fs, ready, Part(name, j));
    }
    ScanIgnoresOtherPaths(fs, ready, name, n);
    PreparedParts(fs, ready, name, 0, resume);
    var f := FirstFailure(net, resume, n);
    GatheredAbsent(ready, name, f + 1, n);
    DropEmptyTail(init, Gathered(fs, name, 0, resume), Payloads(net, resume, f), Gathered(ready, name, f + 1, n));
  }

  /** Preparing touches no scratch file. */
  lemma PreparedParts(fs: FileSystem, ready: FileSystem, name: string, lo: nat, hi: nat)
    requires AgreeOutside(fs, ready, {Output(name), Flag(name)})
    ensures Gathered(ready, name, lo, hi) == Gathered(fs, name, lo, hi)
  {
    forall j | lo <= j < hi
      ensures Contents(ready, Part(name, j)) == Contents(fs, Part(name, j))
    {
      assert AgreeAt(fs, ready, Part(name, j));
    }
    GatheredFrame(ready, fs, name, lo, hi);
  }

  /**
    processFile as evidently intended: a fresh start (no flag) fetches from
    segment `0`, and only a download interrupted with its flag on disk resumes
    at the scan's index. With a flag on disk it is ProcessFile.
   */
  function ProcessFileFixed(fs: FileSystem, name: string, init: Bytes, n: nat, net: Network): (r: Run)
    ensures r.skipped <==> AlreadyComplete(fs, name)
    ensures r.skipped ==> r.fs == fs && r.log == [] && r.error.None?
    ensures Flag(name) in fs ==> r == ProcessFile(fs, name, init, n, net)
    ensures Flag(name) !in fs && !r.skipped ==> FreshRun(fs, r, name, init, n, net)
  {
    if Flag(name) in fs then
      ProcessFile(fs, name, init, n, net)
    else if AlreadyComplete(fs, name) then
      Run(fs, true, 0, [], None)
    else
      FreshStart(fs, name, init, n, net)
  }

  /**
    A fresh start fetches from segment `0`: the destination becomes the init
    bytes and the payloads up to the first undelivered segment `f`, followed
    only on failure by stale scratch files above `f`, and the cleanup is that
    of ProcessFile.
   */
  ghost predicate FreshRun(fs: FileSystem, r: Run, name: string, init: Bytes, n: nat, net: Network) {
    var f := FirstFailure(net, 0, n);
    && !r.skipped && r.resume == 0
    && (r.error.None? <==> f == n)
    && (r.error.Some? ==> r.error == Some(net(f, RetryLimit).error))
    && Output(name) in r.fs
    && r.fs[Output(name)] == init + Payloads(net, 0, f) + Gathered(fs, name, f + 1, n)
    && (forall j :: 0 <= j < n ==> Part(name, j) !in r.fs)
    && (Flag(name) in r.fs <==> r.error.Some?)
    && AgreeOutside(fs, r.fs, PartSet(name, 0, n) + {Output(name), Flag(name)})
    && (n > 0 ==> |r.log| > 0 && r.log[0] == Fetch(0, 0))
  }

  /** The corrected non-skipped branch for a destination without a flag. */
  function FreshStart(fs: FileSystem, name: string, init: Bytes, n: nat, net: Network): (r: Run)
    requires Flag(name) !in fs && Output(name) !in fs
    ensures FreshRun(fs, r, name, init, n, net)
  {
    var ready := Prepare(fs, name, init);
    PreparedFresh(fs, ready, name, init, n, net);
    AgreeOutsideCompose(fs, ready, CombineAndMerge(ready, name, n, net, 0).fs,
                        {Output(name), Flag(name)},
                        PartSet(name, 0, n) + {Output(name), Flag(name)});
    CombineAndMerge(ready, name, n, net, 0)
  }

  /** The facts about a freshly prepared state that ProcessFileFixed's contract rests on. */
  lemma PreparedFresh(fs: FileSystem, ready: FileSystem, name: string, init: Bytes, n: nat, net: Network)
    requires Output(name) in ready && ready[Output(name)] == init
    requires AgreeOutside(fs, ready, {Output(name), Flag(name)})
    ensures var f := FirstFailure(net, 0, n);
      Resumed(ready, name, n, net, 0, f) == init + Payloads(net, 0, f) + Gathered(fs, name, f + 1, n)
  {
    var f := FirstFailure(net, 0, n);
    assert Gathered(ready, name, 0, 0) == [];
    PreparedParts(fs, ready, name, f + 1, n);
  }

  /**
    A fresh start over a stale scratch file: neither the destination nor its
    flag exists, scratch file `1` of two is left on disk from an earlier
    download, scratch file `0` is not, and both segments can be delivered.
    The code as written resumes at segment `1`, never fetches segment `0`,
    deletes the flag and leaves a destination without segment `0`'s bytes;
    the corrected coordinator fetches both segments.
   */
  lemma StaleScratchBreaksFreshRun(fs: FileSystem, name: string, init: Bytes, net: Network)
    requires StaleFreshStart(fs, name, net) && Payload(net, 0) != []
    ensures Contents(ProcessFile(fs, name, init, 2, net).fs, Output(name))
            != Contents(ProcessFileFixed(fs, name, init, 2, net).fs, Output(name))
  {
    StaleScratchAsWritten(fs, name, init, net);
    StaleScratchFixed(fs, name, init, net);
  }

  /** The situation of StaleScratchBreaksFreshRun. */
  ghost predicate StaleFreshStart(fs: FileSystem, name: string, net: Network) {
    && Flag(name) !in fs && Output(name) !in fs
    && Part(name, 0) !in fs && Part(name, 1) in fs
    && Deliverable(net, 0) && Deliverable(net, 1)
  }

  /** What the code as written does in that situation. */
  lemma StaleScratchAsWritten(fs: FileSystem, name: string, init: Bytes, net: Network)
    requires StaleFreshStart(fs, name, net)
    ensures var written := ProcessFile(fs, name, init, 2, net);
      && !written.skipped && written.resume == 1 && written.error.None? && Flag(name) !in written.fs
      && Contents(written.fs, Output(name)) == init + Payload(net, 1)
  {
    assert FindLastSegment(fs, name, 2) == 1;
    assert FirstFailure(net, 1, 2) == 2;
    assert Payloads(net, 1, 2) == Payload(net, 1);
    assert Gathered(fs, name, 0, 1) == [];
  }

  /** What the corrected coordinator does in that situation. */
  lemma StaleScratchFixed(fs: FileSystem, name: string, init: Bytes, net: Network)
    requires StaleFreshStart(fs, name, net)
    ensures var fixed := ProcessFileFixed(fs, name, init, 2, net);
      && fixed.error.None? && Flag(name) !in fixed.fs
      && Contents(fixed.fs, Output(name)) == init + Payload(net, 0) + Payload(net, 1)
  {
    assert FirstFailure(net, 0, 2) == 2;
    assert Payloads(net, 0, 2) == Payload(net, 0) + Payload(net, 1);
    assert Gathered(fs, name, 3, 2) == [];
  }
}
