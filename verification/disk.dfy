/**
  The filesystem as the downloader sees it: a finite map from path to the
  bytes stored there. A path absent from the map is a file that does not
  exist; every write is an atomic update of one entry.
 */
module Disk {

  import opened Paths

  newtype byte = x: int | 0 <= x < 256

  type Bytes = seq<byte>

  type FileSystem = map<Path, Bytes>

  /** The bytes of `p`, or nothing when `p` does not exist. */
  function Contents(fs: FileSystem, p: Path): Bytes {
    if p in fs then fs[p] else []
  }

  /** `a` and `b` agree on whether `p` exists and, if it does, on its bytes. */
  predicate AgreeAt(a: FileSystem, b: FileSystem, p: Path) {
    (p in a <==> p in b) && (p in a ==> a[p] == b[p])
  }

  /** Nothing outside `touched` differs between `a` and `b`. */
  ghost predicate AgreeOutside(a: FileSystem, b: FileSystem, touched: set<Path>) {
    forall p {:trigger AgreeAt(a, b, p)} :: p !in touched ==> AgreeAt(a, b, p)
  }

  /** The scratch files of segments `lo` .. `hi - 1`. */
  function PartSet(name: string, lo: nat, hi: nat): set<Path> {
    set j: nat | lo <= j < hi :: Part(name, j)
  }

  lemma AgreeOutsideTrans(a: FileSystem, b: FileSystem, c: FileSystem, s: set<Path>, t: set<Path>)
    requires AgreeOutside(a, b, s) && AgreeOutside(b, c, t)
    ensures AgreeOutside(a, c, s + t)
  {
    forall p | p !in s + t
      ensures AgreeAt(a, c, p)
    {
      assert AgreeAt(a, b, p) && AgreeAt(b, c, p);
    }
  }

  /** A change confined to `s` followed by one confined to `t`, with `s` inside `t`. */
  lemma AgreeOutsideCompose(a: FileSystem, b: FileSystem, c: FileSystem, s: set<Path>, t: set<Path>)
    requires AgreeOutside(a, b, s) && AgreeOutside(b, c, t) && s <= t
    ensures AgreeOutside(a, c, t)
  {
    forall p | p !in t
      ensures AgreeAt(a, c, p)
    {
      assert p !in s;
      assert AgreeAt(a, b, p) && AgreeAt(b, c, p);
    }
  }

  lemma AgreeOutsideWiden(a: FileSystem, b: FileSystem, s: set<Path>, t: set<Path>)
    requires AgreeOutside(a, b, s) && s <= t
    ensures AgreeOutside(a, b, t)
  {
    forall p | p !in t
      ensures AgreeAt(a, b, p)
    {
      assert p !in s;
    }
  }

  /** A scratch file outside the range a change was confined to is untouched by it. */
  lemma PartOutsideAgrees(a: FileSystem, b: FileSystem, name: string, lo: nat, hi: nat, j: nat)
    requires AgreeOutside(a, b, PartSet(name, lo, hi) + {Flag(name)})
    requires j < lo || hi <= j
    ensures AgreeAt(a, b, Part(name, j))
  {
    assert Part(name, j) !in PartSet(name, lo, hi);
  }

  /*
    Regrouping facts about concatenation. They are stated over plain
    variables so that a caller passing large terms (`Gathered`, `Payloads`)
    gets the fact without the solver unfolding those terms.
   */

  lemma DropEmptyTail(a: Bytes, b: Bytes, c: Bytes, d: Bytes)
    requires d == []
    ensures a + b + c + d == a + b + c
  {
  }

  /** The step of splitting a concatenation `head + rest` whose tail splits. */
  lemma ConsSplit(whole: Bytes, head: Bytes, rest: Bytes, left: Bytes, leftRest: Bytes, right: Bytes)
    requires whole == head + rest && rest == leftRest + right && left == head + leftRest
    ensures whole == left + right
  {
  }

  lemma ConcatAssoc(a: Bytes, b: Bytes, c: Bytes, d: Bytes)
    ensures a + (b + (c + d)) == a + b + c + d
  {
  }

  /** Substitutes the two pieces of `rest` into `whole == below + rest`. */
  lemma Assemble(whole: Bytes, below: Bytes, rest: Bytes, delivered: Bytes, tail: Bytes, above: Bytes)
    requires whole == below + rest && rest == delivered + tail && tail == above
    ensures whole == below + (delivered + above)
  {
  }
}
