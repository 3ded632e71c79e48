/**
  The resume-point scan: which segment a restarted download continues from,
  read off the scratch files alone.
 */
module Progress {

  import opened Paths
  import opened Disk

  /**
    Scans the scratch files of segments `n - 1` down to `0` and yields the
    first index whose file exists, or `0` when none does. The result is the
    greatest existing index below `n`; it is never `n` unless `n` is `0`.
   */
  function FindLastSegment(fs: FileSystem, name: string, n: nat): (r: nat)
    ensures r == 0 || (r < n && Part(name, r) in fs)
    ensures n > 0 ==> r < n
    ensures forall j :: r < j < n ==> Part(name, j) !in fs
    decreases n
  {
    if n == 0 then 0
    else if Part(name, n - 1) in fs then n - 1
    else FindLastSegment(fs, name, n - 1)
  }

  /** The scan looks at nothing but the existence of the scratch files below `n`. */
  lemma ScanIgnoresOtherPaths(a: FileSystem, b: FileSystem, name: string, n: nat)
    requires forall j :: 0 <= j < n ==> (Part(name, j) in a <==> Part(name, j) in b)
    ensures FindLastSegment(a, name, n) == FindLastSegment(b, name, n)
  {
  }

  /**
    When segments `0 .. k - 1` were completed in order and nothing after them,
    the scan resumes at `k - 1`: the last completed segment is fetched again.
   */
  lemma ResumeAfterContiguousPrefix(fs: FileSystem, name: string, n: nat, k: nat)
    requires 1 <= k <= n
    requires forall j :: 0 <= j < k ==> Part(name, j) in fs
    requires forall j :: k <= j < n ==> Part(name, j) !in fs
    ensures FindLastSegment(fs, name, n) == k - 1
  {
  }
}
