/**
  What one run of the coordinator leaves for the next: a finished download
  is skipped, a download that ran out of attempts starts again from segment
  `0`, and a download cut off while fetching resumes to the same bytes a
  clean run produces.
 */
module Recovery {

  import opened Wrappers
  import opened Paths
  import opened Disk
  import opened Progress
  import opened Reassembly
  import opened Fetcher
  import opened Coordinator

  /**
    A run that ends without an error leaves a complete destination: the next
    run, with any init bytes and any network, skips it and fetches nothing.
   */
  lemma SecondRunSkips(fs: FileSystem, name: string, init: Bytes, n: nat, net: Network,
                       init2: Bytes, n2: nat, net2: Network)
    ensures var r := ProcessFile(fs, name, init, n, net);
      r.error.None? ==> ProcessFile(r.fs, name, init2, n2, net2) == Run(r.fs, true, 0, [], None)
  {
    var r := ProcessFile(fs, name, init, n, net);
    if r.error.Some? {
      return;
    }
    if !r.skipped {
      assert Flag(name) !in r.fs && Output(name) in r.fs;
    }
    assert AlreadyComplete(r.fs, name);
  }

  /**
    A run that ran out of attempts keeps its flag but has merged away every
    scratch file, so the next run is not skipped, finds nothing to resume
    from and fetches from segment `0`: its destination is the new init bytes
    followed by the new payloads.
   */
  lemma ExhaustedRunRestarts(fs: FileSystem, name: string, init: Bytes, n: nat, net: Network,
                             init2: Bytes, net2: Network)
    ensures var r := ProcessFile(fs, name, init, n, net);
      var r2 := ProcessFile(r.fs, name, init2, n, net2);
      r.error.Some? ==>
      && !r2.skipped && r2.resume == 0
      && Output(name) in r2.fs
      && r2.fs[Output(name)] == init2 + Payloads(net2, 0, FirstFailure(net2, 0, n))
  {
    var r := ProcessFile(fs, name, init, n, net);
    if r.error.Some? {
      RestartFromNothing(r.fs, name, init2, n, net2);
    }
  }

  /** With the flag on disk and no scratch file below `n`, a run starts from segment `0`. */
  lemma RestartFromNothing(fs: FileSystem, name: string, init: Bytes, n: nat, net: Network)
    requires Flag(name) in fs
    requires forall j :: 0 <= j < n ==> Part(name, j) !in fs
    ensures var r := ProcessFile(fs, name, init, n, net);
      && !r.skipped && r.resume == 0
      && Output(name) in r.fs
      && r.fs[Output(name)] == init + Payloads(net, 0, FirstFailure(net, 0, n))
  {
    assert FindLastSegment(fs, name, n) == 0;
    assert Gathered(fs, name, 0, 0) == [];
    assert init + [] == init;
  }

  /**
    A download cut off while fetching segment `k - 1`: its flag is on disk,
    scratch files `0` .. `k - 2` hold their payloads, scratch file `k - 1`
    holds whatever part of its body arrived, and nothing later was written.
   */
  ghost predicate CutOffWhileFetching(fs: FileSystem, name: string, n: nat, net: Network, k: nat) {
    && Flag(name) in fs
    && 1 <= k <= n
    && (forall j :: 0 <= j < k ==> Part(name, j) in fs)
    && (forall j :: 0 <= j < k - 1 ==> Contents(fs, Part(name, j)) == Payload(net, j))
    && (forall j :: k <= j < n ==> Part(name, j) !in fs)
  }

  /**
    Resuming a download cut off while fetching produces what a run from
    scratch produces: the scan finds segment `k - 1`, which is fetched again
    because its scratch file may be cut short, and when every remaining
    segment is delivered the destination is the init bytes and all payloads
    in order, with no flag and no scratch file left.
   */
  lemma ResumeMatchesFreshRun(fs: FileSystem, name: string, init: Bytes, n: nat, net: Network, k: nat)
    requires CutOffWhileFetching(fs, name, n, net, k)
    requires forall j :: k - 1 <= j < n ==> Deliverable(net, j)
    ensures var r := ProcessFile(fs, name, init, n, net);
      && !r.skipped && r.resume == k - 1 && r.log[0] == Fetch(k - 1, 0)
      && r.error.None? && Flag(name) !in r.fs
      && r.fs[Output(name)] == init + Payloads(net, 0, n)
      && (forall j :: 0 <= j < n ==> Part(name, j) !in r.fs)
  {
    ResumeAfterContiguousPrefix(fs, name, n, k);
    var f := FirstFailure(net, k - 1, n);
    assert f == n;
    ResumedBytes(fs, name, init, n, net, k);
  }

  /** The bytes a resume at `k - 1` assembles are the whole download's. */
  lemma ResumedBytes(fs: FileSystem, name: string, init: Bytes, n: nat, net: Network, k: nat)
    requires 1 <= k <= n
    requires forall j :: 0 <= j < k - 1 ==> Contents(fs, Part(name, j)) == Payload(net, j)
    ensures init + Gathered(fs, name, 0, k - 1) + Payloads(net, k - 1, n) == init + Payloads(net, 0, n)
  {
    GatheredPayloads(fs, name, net, 0, k - 1);
    PayloadsSplit(net, 0, k - 1, n);
  }

  /**
    The flag is deleted when the last segment has been fetched, before the
    merge starts. A run cut off during the merge, after the first `k`
    scratch files were appended, therefore leaves a destination without a
    flag: every later run skips it, and the scratch files from `k` on stay
    on disk unmerged.
   */
  lemma CutOffWhileMergingIsFinal(fs: FileSystem, name: string, n: nat, net: Network, resume: nat, k: nat,
                                  init2: Bytes, n2: nat, net2: Network)
    requires Flag(name) in fs && Output(name) in fs && resume <= k <= n
    requires FirstFailure(net, resume, n) == n
    ensures var fetched := Combine(fs, name, resume, n, net);
      var cut := MergeSegments(fetched.fs, name, k);
      && ProcessFile(cut, name, init2, n2, net2) == Run(cut, true, 0, [], None)
      && (forall j :: k <= j < n ==> Part(name, j) in cut && cut[Part(name, j)] == Payload(net, j))
  {
    var fetched := Combine(fs, name, resume, n, net);
    var cut := MergeSegments(fetched.fs, name, k);
    assert AgreeAt(fetched.fs, cut, Flag(name));
    assert AgreeAt(fs, fetched.fs, Output(name));
    forall j | k <= j < n
      ensures Part(name, j) in cut && cut[Part(name, j)] == Payload(net, j)
    {
      assert Part(name, j) !in PartSet(name, 0, k);
      assert AgreeAt(fetched.fs, cut, Part(name, j));
    }
  }
}
