/**
  The segment fetcher: every segment is downloaded into its scratch file,
  strictly one after another, and every segment gets a first attempt plus
  up to `RetryLimit` retries. The network is an oracle: `net(i, k)` is the
  reply to attempt `k` (counting from `0`) at segment `i`.
 */
module Fetcher {

  import opened Wrappers
  import opened Paths
  import opened Disk

  /** Retries allowed after the first attempt of one segment. */
  const RetryLimit: nat := 99

  datatype TransportError = TransportError(message: string)

  /** A completed response body, or a transport error before any body arrived. */
  datatype Reply = Received(data: Bytes) | Failed(error: TransportError)

  type Network = (nat, nat) -> Reply

  /** One GET issued: attempt `attempt` at segment `segment`. */
  datatype Fetch = Fetch(segment: nat, attempt: nat)

  /** What a stretch of fetching leaves behind. */
  datatype Step = Step(fs: FileSystem, log: seq<Fetch>, error: Option<TransportError>)

  /**
    The first attempt from `from` on, within the retry budget, at which
    segment `i` is delivered; `None` when every remaining attempt fails.
   */
  function FirstReceipt(net: Network, i: nat, from: nat): (r: Option<nat>)
    ensures r.Some? ==> from <= r.value <= RetryLimit && net(i, r.value).Received?
    ensures forall k :: from <= k <= RetryLimit && (r.None? || k < r.value) ==> net(i, k).Failed?
    decreases RetryLimit + 1 - from
  {
    if from > RetryLimit then None
    else if net(i, from).Received? then Some(from)
    else FirstReceipt(net, i, from + 1)
  }

  predicate Deliverable(net: Network, i: nat) {
    FirstReceipt(net, i, 0).Some?
  }

  /** The body of the first attempt from `from` on that delivers one, or nothing. */
  function Delivered(net: Network, i: nat, from: nat): Bytes
    decreases RetryLimit + 1 - from
  {
    if from > RetryLimit then []
    else match net(i, from)
      case Received(data) => data
      case Failed(_) => Delivered(net, i, from + 1)
  }

  /** The bytes segment `i` ends up with when its download succeeds. */
  function Payload(net: Network, i: nat): Bytes {
    Delivered(net, i, 0)
  }

  lemma {:induction false} DeliveredAtFirstReceipt(net: Network, i: nat, from: nat)
    ensures match FirstReceipt(net, i, from)
      case Some(k) => Delivered(net, i, from) == net(i, k).data
      case None => Delivered(net, i, from) == []
    decreases RetryLimit + 1 - from
  {
    if from <= RetryLimit && net(i, from).Failed? {
      DeliveredAtFirstReceipt(net, i, from + 1);
    }
  }

  /** The payloads of segments `lo` .. `hi - 1`, in order. */
  function Payloads(net: Network, lo: nat, hi: nat): Bytes
    decreases hi - lo
  {
    if lo >= hi then [] else Payload(net, lo) + Payloads(net, lo + 1, hi)
  }

  /** The first segment from `lo` on that cannot be delivered, or `hi` when all can. */
  function FirstFailure(net: Network, lo: nat, hi: nat): (f: nat)
    ensures lo <= hi ==> lo <= f
    ensures f <= hi
    ensures forall j :: lo <= j < f ==> Deliverable(net, j)
    ensures f < hi ==> !Deliverable(net, f)
    decreases hi - lo
  {
    if lo >= hi then hi
    else if !Deliverable(net, lo) then lo
    else FirstFailure(net, lo + 1, hi)
  }

  /**
    The fetch after `a`: a failed attempt is retried at the same segment, a
    successful one is followed by the first attempt at the next segment.
   */
  predicate Follows(net: Network, a: Fetch, b: Fetch) {
    match net(a.segment, a.attempt)
    case Failed(_) => b == Fetch(a.segment, a.attempt + 1)
    case Received(_) => b == Fetch(a.segment + 1, 0)
  }

  /** Every fetch of `log` starts right after the one before it ended. */
  ghost predicate Chain(net: Network, log: seq<Fetch>) {
    forall j, k :: 0 <= j < |log| && 0 <= k < |log| && k == j + 1 ==> Follows(net, log[j], log[k])
  }

  lemma ChainAppend(net: Network, a: seq<Fetch>, b: seq<Fetch>)
    requires Chain(net, a) && Chain(net, b)
    requires |a| > 0 && |b| > 0 ==> Follows(net, a[|a| - 1], b[0])
    ensures Chain(net, a + b)
  {
    forall j, k | 0 <= j < |a + b| && 0 <= k < |a + b| && k == j + 1
      ensures Follows(net, (a + b)[j], (a + b)[k])
    {
      if k < |a| {
        assert Follows(net, a[j], a[k]);
      } else if k == |a| {
      } else {
        assert Follows(net, b[j - |a|], b[k - |a|]);
      }
    }
  }

  /**
    Downloads segment `i` starting at attempt `retry`. Every attempt first
    truncates the scratch file; a delivered body replaces it, a transport
    error leaves it empty and is retried while fewer than `RetryLimit`
    retries have been made. After the last failure the error is returned
    and the empty scratch file stays on disk.
   */
  function DownloadSegment(fs: FileSystem, name: string, i: nat, net: Network, retry: nat): (r: Step)
    requires retry <= RetryLimit
    ensures 1 <= |r.log| <= RetryLimit + 1 - retry
    ensures forall k :: 0 <= k < |r.log| ==> r.log[k] == Fetch(i, retry + k)
    ensures Chain(net, r.log)
    ensures match FirstReceipt(net, i, retry)
      case Some(k) =>
        && r.error.None?
        && |r.log| == k - retry + 1
        && r.fs == fs[Part(name, i) := net(i, k).data]
      case None =>
        && r.error == Some(net(i, RetryLimit).error)
        && |r.log| == RetryLimit + 1 - retry
        && r.fs == fs[Part(name, i) := []]
    decreases RetryLimit - retry
  {
    var part := Part(name, i);
    var truncated := fs[part := []];
    match net(i, retry)
    case Received(data) => Step(truncated[part := data], [Fetch(i, retry)], None)
    case Failed(e) =>
      if retry < RetryLimit then
        var rest := DownloadSegment(truncated, name, i, net, retry + 1);
        assert truncated[part := []] == truncated;
        ChainAppend(net, [Fetch(i, retry)], rest.log);
        Step(rest.fs, [Fetch(i, retry)] + rest.log, rest.error)
      else
        Step(truncated, [Fetch(i, retry)], Some(e))
  }

  /**
    A segment's download succeeds exactly when one of its `RetryLimit + 1`
    attempts is answered with a body; otherwise all of them are made.
   */
  lemma DeliveredIff(fs: FileSystem, name: string, i: nat, net: Network)
    ensures var s := DownloadSegment(fs, name, i, net, 0);
      && (s.error.None? <==> exists k :: 0 <= k <= RetryLimit && net(i, k).Received?)
      && (s.error.Some? ==> |s.log| == RetryLimit + 1 && s.fs[Part(name, i)] == [])
  {
    var s := DownloadSegment(fs, name, i, net, 0);
    match FirstReceipt(net, i, 0)
    case Some(k) =>
      assert net(i, k).Received?;
    case None =>
      forall k | 0 <= k <= RetryLimit
        ensures !net(i, k).Received?
      {
        assert net(i, k).Failed?;
      }
  }

  /**
    What fetching from segment `i` does to the disk, with `f` the first
    segment from `i` on that cannot be delivered (`n` when all can):
    - it fails exactly when some segment is not delivered, and then with the
      error of that segment's last attempt;
    - scratch files `i` .. `f - 1` hold the delivered payloads, and a failed
      segment's scratch file is left on disk, empty;
    - the flag is deleted exactly when all segments were delivered;
    - nothing but the flag and the scratch files `i` .. `f` changes.
   */
  ghost predicate CombinedFiles(fs: FileSystem, r: Step, name: string, i: nat, n: nat, net: Network) {
    var f := FirstFailure(net, i, n);
    && (r.error.None? <==> f == n)
    && (r.error.Some? ==> r.error == Some(net(f, RetryLimit).error))
    && (forall j :: i <= j < f ==> Part(name, j) in r.fs && r.fs[Part(name, j)] == Payload(net, j))
    && (f < n ==> Part(name, f) in r.fs && r.fs[Part(name, f)] == [])
    && (Flag(name) in r.fs <==> f < n)
    && AgreeOutside(fs, r.fs, PartSet(name, i, if f < n then f + 1 else n) + {Flag(name)})
  }

  /**
    The order of the fetches made from segment `i`: they start with the first
    attempt at segment `i`, each starts right after the one before it ended,
    they stay within the retry budget, never go past the first undelivered
    segment `f`, and end with the last attempt at `f` or with a delivery of
    segment `n - 1`.
   */
  ghost predicate CombinedLog(log: seq<Fetch>, i: nat, n: nat, net: Network) {
    var f := FirstFailure(net, i, n);
    && (i < n ==> |log| > 0 && log[0] == Fetch(i, 0))
    && (i >= n ==> log == [])
    && Chain(net, log)
    && (forall k :: 0 <= k < |log| ==>
          i <= log[k].segment <= f && log[k].segment < n && log[k].attempt <= RetryLimit)
    && (|log| > 0 ==>
          var last := log[|log| - 1];
          && (f < n ==> last == Fetch(f, RetryLimit))
          && (f == n ==> last.segment == n - 1 && net(last.segment, last.attempt).Received?))
  }

  /** A delivered segment `i` followed by fetching from `i + 1` is fetching from `i`: the disk. */
  lemma CombineStepFiles(fs: FileSystem, s: Step, rest: Step, name: string, i: nat, n: nat, net: Network)
    requires i < n && Deliverable(net, i)
    requires s.fs == fs[Part(name, i) := Payload(net, i)]
    requires CombinedFiles(s.fs, rest, name, i + 1, n, net)
    ensures CombinedFiles(fs, Step(rest.fs, s.log + rest.log, rest.error), name, i, n, net)
  {
    var f := FirstFailure(net, i, n);
    assert f == FirstFailure(net, i + 1, n);
    var x := if f < n then f + 1 else n;
    var part := Part(name, i);
    assert part !in PartSet(name, i + 1, x) + {Flag(name)};
    assert AgreeAt(s.fs, rest.fs, part);
    assert AgreeOutside(fs, s.fs, {part});
    assert part in PartSet(name, i, x);
    assert PartSet(name, i + 1, x) <= PartSet(name, i, x);
    AgreeOutsideTrans(fs, s.fs, rest.fs, {part}, PartSet(name, i + 1, x) + {Flag(name)});
    AgreeOutsideWiden(fs, rest.fs, {part} + (PartSet(name, i + 1, x) + {Flag(name)}),
                      PartSet(name, i, x) + {Flag(name)});
  }

  /** A delivered segment `i` followed by fetching from `i + 1` is fetching from `i`: the fetches. */
  lemma CombineStepLog(first: seq<Fetch>, rest: seq<Fetch>, i: nat, n: nat, net: Network)
    requires i < n && Deliverable(net, i)
    requires |first| == FirstReceipt(net, i, 0).value + 1
    requires forall m :: 0 <= m < |first| ==> first[m] == Fetch(i, m)
    requires Chain(net, first)
    requires CombinedLog(rest, i + 1, n, net)
    ensures CombinedLog(first + rest, i, n, net)
  {
    var k := FirstReceipt(net, i, 0).value;
    var f := FirstFailure(net, i, n);
    assert f == FirstFailure(net, i + 1, n);
    assert first[|first| - 1] == Fetch(i, k);
    ChainAppend(net, first, rest);
    var log := first + rest;
    forall m | 0 <= m < |log|
      ensures i <= log[m].segment <= f && log[m].segment < n && log[m].attempt <= RetryLimit
    {
      if m >= |first| {
        assert log[m] == rest[m - |first|];
      }
    }
  }

  /** A segment that cannot be delivered ends fetching from it: the disk. */
  lemma CombineFailFiles(fs: FileSystem, s: Step, name: string, i: nat, n: nat, net: Network)
    requires i < n && Flag(name) in fs && !Deliverable(net, i)
    requires s.fs == fs[Part(name, i) := []] && s.error == Some(net(i, RetryLimit).error)
    ensures CombinedFiles(fs, s, name, i, n, net)
  {
    var part := Part(name, i);
    assert FirstFailure(net, i, n) == i;
    assert part in PartSet(name, i, i + 1);
    forall p {:trigger AgreeAt(fs, s.fs, p)} | p !in PartSet(name, i, i + 1) + {Flag(name)}
      ensures AgreeAt(fs, s.fs, p)
    {
    }
  }

  /** A segment that cannot be delivered ends fetching from it: the fetches. */
  lemma CombineFailLog(log: seq<Fetch>, i: nat, n: nat, net: Network)
    requires i < n && !Deliverable(net, i)
    requires |log| == RetryLimit + 1
    requires forall k :: 0 <= k < |log| ==> log[k] == Fetch(i, k)
    requires Chain(net, log)
    ensures CombinedLog(log, i, n, net)
  {
    assert FirstFailure(net, i, n) == i;
    assert log[|log| - 1] == Fetch(i, RetryLimit);
  }

  /**
    Fetches segments `i`, `i + 1`, ... one at a time. Reaching `n` deletes
    the flag and reports success; a segment whose attempts are exhausted
    stops the loop with its error and the flag still on disk.
   */
  function Combine(fs: FileSystem, name: string, i: nat, n: nat, net: Network): (r: Step)
    requires Flag(name) in fs
    ensures CombinedFiles(fs, r, name, i, n, net)
    ensures CombinedLog(r.log, i, n, net)
    decreases n - i
  {
    if i >= n then
      Step(fs - {Flag(name)}, [], None)
    else
      var s := DownloadSegment(fs, name, i, net, 0);
      DeliveredAtFirstReceipt(net, i, 0);
      if s.error.Some? then
        CombineFailFiles(fs, s, name, i, n, net);
        CombineFailLog(s.log, i, n, net);
        s
      else
        var rest := Combine(s.fs, name, i + 1, n, net);
        CombineStepFiles(fs, s, rest, name, i, n, net);
        CombineStepLog(s.log, rest.log, i, n, net);
        Step(rest.fs, s.log + rest.log, rest.error)
  }
}
