/**
  The final merge: every scratch file that exists is appended to the
  destination in ascending segment order and deleted once consumed.
 */
module Reassembly {

  import opened Paths
  import opened Disk

  /**
    The bytes of the existing scratch files `lo` .. `hi - 1`, in ascending
    order; a missing file contributes nothing. This is the reference the
    merge is measured against.
   */
  function Gathered(fs: FileSystem, name: string, lo: nat, hi: nat): Bytes
    decreases hi - lo
  {
    if lo >= hi then [] else Contents(fs, Part(name, lo)) + Gathered(fs, name, lo + 1, hi)
  }

  lemma {:induction false} GatheredSplit(fs: FileSystem, name: string, lo: nat, mid: nat, hi: nat)
    requires lo <= mid <= hi
    ensures Gathered(fs, name, lo, hi) == Gathered(fs, name, lo, mid) + Gathered(fs, name, mid, hi)
    decreases mid - lo
  {
    if lo < mid {
      GatheredSplit(fs, name, lo + 1, mid, hi);
      ConsSplit(Gathered(fs, name, lo, hi), Contents(fs, Part(name, lo)), Gathered(fs, name, lo + 1, hi),
                Gathered(fs, name, lo, mid), Gathered(fs, name, lo + 1, mid), Gathered(fs, name, mid, hi));
    } else {
      assert Gathered(fs, name, lo, mid) == [];
    }
  }

  lemma {:induction false} GatheredFrame(a: FileSystem, b: FileSystem, name: string, lo: nat, hi: nat)
    requires forall j :: lo <= j < hi ==> Contents(a, Part(name, j)) == Contents(b, Part(name, j))
    ensures Gathered(a, name, lo, hi) == Gathered(b, name, lo, hi)
    decreases hi - lo
  {
    if lo < hi {
      GatheredFrame(a, b, name, lo + 1, hi);
    }
  }

  lemma {:induction false} GatheredAbsent(fs: FileSystem, name: string, lo: nat, hi: nat)
    requires forall j :: lo <= j < hi ==> Part(name, j) !in fs
    ensures Gathered(fs, name, lo, hi) == []
    decreases hi - lo
  {
    if lo < hi {
      GatheredAbsent(fs, name, lo + 1, hi);
    }
  }

  /** One iteration of the merge loop: consume scratch file `i` if it exists. */
  function MergeOne(fs: FileSystem, name: string, i: nat): (r: FileSystem)
    ensures Contents(r, Output(name)) == Contents(fs, Output(name)) + Contents(fs, Part(name, i))
    ensures Part(name, i) !in r
    ensures Output(name) in fs ==> Output(name) in r
    ensures AgreeOutside(fs, r, {Output(name), Part(name, i)})
  {
    var part := Part(name, i);
    if part in fs then
      fs[Output(name) := Contents(fs, Output(name)) + fs[part]] - {part}
    else
      fs
  }

  /**
    What the merge loop from index `i` promises: `r` is `fs` with the existing
    scratch files `i` .. `n - 1` appended to the destination in order and
    deleted, and nothing else changed.
   */
  ghost predicate MergedFrom(fs: FileSystem, r: FileSystem, name: string, i: nat, n: nat) {
    && Contents(r, Output(name)) == Contents(fs, Output(name)) + Gathered(fs, name, i, n)
    && (forall j :: i <= j < n ==> Part(name, j) !in r)
    && (Output(name) in fs ==> Output(name) in r)
    && AgreeOutside(fs, r, PartSet(name, i, n) + {Output(name)})
  }

  /** One loop iteration followed by the rest of the loop is the loop from `i`. */
  lemma MergeStep(fs: FileSystem, r: FileSystem, name: string, i: nat, n: nat)
    requires i < n
    requires MergedFrom(MergeOne(fs, name, i), r, name, i + 1, n)
    ensures MergedFrom(fs, r, name, i, n)
  {
    var next := MergeOne(fs, name, i);
    var out, part := Output(name), Part(name, i);
    GatheredFrame(fs, next, name, i + 1, n);
    assert part !in PartSet(name, i + 1, n) + {out};
    assert AgreeAt(next, r, part);
    assert Contents(r, out) == Contents(fs, out) + Gathered(fs, name, i, n);
    assert part in PartSet(name, i, n);
    assert PartSet(name, i + 1, n) <= PartSet(name, i, n);
    AgreeOutsideTrans(fs, next, r, {out, part}, PartSet(name, i + 1, n) + {out});
    AgreeOutsideWiden(fs, r, {out, part} + (PartSet(name, i + 1, n) + {out}), PartSet(name, i, n) + {out});
  }

  /** The merge loop from index `i` on: consumes scratch files `i` .. `n - 1`. */
  function MergeSegmentsFrom(fs: FileSystem, name: string, i: nat, n: nat): (r: FileSystem)
    ensures Contents(r, Output(name)) == Contents(fs, Output(name)) + Gathered(fs, name, i, n)
    ensures forall j :: i <= j < n ==> Part(name, j) !in r
    ensures Output(name) in fs ==> Output(name) in r
    ensures AgreeOutside(fs, r, PartSet(name, i, n) + {Output(name)})
    decreases n - i
  {
    if i >= n then fs
    else
      var r := MergeSegmentsFrom(MergeOne(fs, name, i), name, i + 1, n);
      MergeStep(fs, r, name, i, n);
      r
  }

  /**
    Appends the existing scratch files `0 .. n - 1` to the destination in
    ascending order, skipping missing ones, and deletes each one consumed.
    Afterwards no scratch file below `n` remains, and no path other than
    those scratch files and the destination has changed.
   */
  function MergeSegments(fs: FileSystem, name: string, n: nat): (r: FileSystem)
    ensures Contents(r, Output(name)) == Contents(fs, Output(name)) + Gathered(fs, name, 0, n)
    ensures forall j :: 0 <= j < n ==> Part(name, j) !in r
    ensures Output(name) in fs ==> Output(name) in r
    ensures AgreeOutside(fs, r, PartSet(name, 0, n) + {Output(name)})
  {
    MergeSegmentsFrom(fs, name, 0, n)
  }
}
