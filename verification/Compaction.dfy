/** How _compact (broker/src/dynamic.c:120-203) goes through its lists: the occupied ones are
    moved, their bytes written back, and the free entries removed one by one by start address
    while occupied entries already have their new starts. */
module Compaction {
  import opened Partitions
  import opened Protocol
  import opened Dynamic

  /** list_filter: the indices below j of the partitions with that free flag. */
  function Indices(ps: seq<Part>, free: bool, j: nat): seq<nat>
    requires j <= |ps|
  {
    if j == 0 then []
    else Indices(ps, free, j - 1) + (if ps[j - 1].free == free then [j - 1] else [])
  }

  lemma {:induction false} IndicesInRange(ps: seq<Part>, free: bool, j: nat)
    requires j <= |ps|
    ensures forall r :: 0 <= r < |Indices(ps, free, j)| ==>
      Indices(ps, free, j)[r] < j && ps[Indices(ps, free, j)[r]].free == free
  {
    if j > 0 { IndicesInRange(ps, free, j - 1); }
  }

  lemma {:induction false} IndicesIncrease(ps: seq<Part>, free: bool, j: nat)
    requires j <= |ps|
    ensures forall q, r :: 0 <= q < r < |Indices(ps, free, j)| ==> Indices(ps, free, j)[q] < Indices(ps, free, j)[r]
  {
    if j > 0 {
      IndicesIncrease(ps, free, j - 1);
      IndicesInRange(ps, free, j - 1);
    }
  }

  lemma {:induction false} IndexOf(ps: seq<Part>, free: bool, j: nat, k: nat) returns (r: nat)
    requires k < j <= |ps| && ps[k].free == free
    ensures r < |Indices(ps, free, j)| && Indices(ps, free, j)[r] == k
  {
    if k == j - 1 { r := |Indices(ps, free, j)| - 1; } else { r := IndexOf(ps, free, j - 1, k); }
  }

  /** Where the walk over the filtered list stands before its r-th element. */
  function Stop(ps: seq<Part>, free: bool, r: nat): nat
    requires r <= |Indices(ps, free, |ps|)|
  {
    if r < |Indices(ps, free, |ps|)| then Indices(ps, free, |ps|)[r] else |ps|
  }

  lemma LastStop(ps: seq<Part>, free: bool)
    ensures Stop(ps, free, |Indices(ps, free, |ps|)|) == |ps|
  {
  }

  lemma StopInRange(ps: seq<Part>, free: bool, r: nat)
    requires r <= |Indices(ps, free, |ps|)|
    ensures Stop(ps, free, r) <= |ps|
    ensures r < |Indices(ps, free, |ps|)| ==> Stop(ps, free, r) < |ps| && ps[Stop(ps, free, r)].free == free
  {
    IndicesInRange(ps, free, |ps|);
  }

  /** Between two stops everything has the other flag. */
  lemma Gap(ps: seq<Part>, free: bool, r: nat, k: nat)
    requires r <= |Indices(ps, free, |ps|)|
    requires (if r == 0 then 0 else Indices(ps, free, |ps|)[r - 1] + 1) <= k < Stop(ps, free, r)
    ensures k < |ps| && ps[k].free != free
  {
    StopInRange(ps, free, r);
    IndicesIncrease(ps, free, |ps|);
    if ps[k].free == free {
      var q := IndexOf(ps, free, |ps|, k);
    }
  }

  // ---- Moving the occupied partitions ----

  /** The list when the occupied ones among the first j have been moved. */
  function Shifted(cfg: Config, ps: seq<Part>, j: nat): (r: seq<Part>)
    ensures |r| == |ps|
    ensures forall i :: 0 <= i < |ps| ==> r[i] == if i < j && !ps[i].free then Moved(cfg, ps, i) else ps[i]
  {
    seq(|ps|, i requires 0 <= i < |ps| => if i < j && !ps[i].free then Moved(cfg, ps, i) else ps[i])
  }

  lemma {:induction false} SizeOverGap(ps: seq<Part>, a: nat, b: nat)
    requires a <= b <= |ps| && forall k :: a <= k < b ==> ps[k].free
    ensures OccupiedSize(ps, a) == OccupiedSize(ps, b)
  {
    if a < b { SizeOverGap(ps, a, b - 1); }
  }

  lemma {:induction false} BytesOverGap(cfg: Config, ps: seq<Part>, bytes: seq<byte>, a: nat, b: nat)
    requires Layout(cfg, ps) && |bytes| == cfg.total
    requires a <= b <= |ps| && forall k :: a <= k < b ==> ps[k].free
    ensures CompactBytes(cfg, ps, bytes, a) == CompactBytes(cfg, ps, bytes, b)
  {
    if a < b { BytesOverGap(cfg, ps, bytes, a, b - 1); }
  }

  /** Nothing is occupied before the first stop. */
  lemma FirstStop(cfg: Config, ps: seq<Part>, bytes: seq<byte>)
    requires Layout(cfg, ps) && |bytes| == cfg.total
    ensures Stop(ps, false, 0) <= |ps|
    ensures OccupiedSize(ps, Stop(ps, false, 0)) == 0
    ensures Shifted(cfg, ps, Stop(ps, false, 0)) == ps
    ensures CompactBytes(cfg, ps, bytes, Stop(ps, false, 0)) == bytes
  {
    var b := Stop(ps, false, 0);
    StopInRange(ps, false, 0);
    forall k | 0 <= k < b ensures ps[k].free { Gap(ps, false, 0, k); }
    SizeOverGap(ps, 0, b);
    BytesOverGap(cfg, ps, bytes, 0, b);
  }

  lemma ShiftedOverGap(cfg: Config, ps: seq<Part>, a: nat, b: nat)
    requires a < b <= |ps| && !ps[a].free && forall k :: a < k < b ==> ps[k].free
    ensures Shifted(cfg, ps, b) == Shifted(cfg, ps, a)[a := Moved(cfg, ps, a)]
  {
  }

  /** From one occupied partition to the next. */
  /** Between two occupied partitions, one after the other, everything is free. */
  lemma StopsApart(ps: seq<Part>, r: nat)
    requires r < |Indices(ps, false, |ps|)|
    ensures var a, b := Stop(ps, false, r), Stop(ps, false, r + 1);
      a < b && forall k :: a < k < b ==> k < |ps| && ps[k].free
  {
    var a, b := Stop(ps, false, r), Stop(ps, false, r + 1);
    StopInRange(ps, false, r);
    StopInRange(ps, false, r + 1);
    IndicesIncrease(ps, false, |ps|);
    forall k | a < k < b ensures k < |ps| && ps[k].free { Gap(ps, false, r + 1, k); }
  }

  lemma NextStop(cfg: Config, ps: seq<Part>, bytes: seq<byte>, r: nat)
    requires Layout(cfg, ps) && |bytes| == cfg.total && r < |Indices(ps, false, |ps|)|
    ensures var a, b := Stop(ps, false, r), Stop(ps, false, r + 1);
      && a < |ps| && !ps[a].free && b <= |ps|
      && OccupiedSize(ps, b) == OccupiedSize(ps, a) + ps[a].size
      && Shifted(cfg, ps, b) == Shifted(cfg, ps, a)[a := Moved(cfg, ps, a)]
      && CompactBytes(cfg, ps, bytes, b) == CompactBytes(cfg, ps, bytes, a + 1)
  {
    hide Layout, Shifted, CompactBytes;
    var a, b := Stop(ps, false, r), Stop(ps, false, r + 1);
    StopInRange(ps, false, r);
    StopInRange(ps, false, r + 1);
    StopsApart(ps, r);
    hide Stop, Indices;
    SizeOverGap(ps, a + 1, b);
    BytesOverGap(cfg, ps, bytes, a + 1, b);
    ShiftedOverGap(cfg, ps, a, b);
  }

  // ---- Removing the free entries ----

  /** The entries of xs at occupied indices below j. */
  function Kept<T>(xs: seq<T>, ps: seq<Part>, j: nat): (r: seq<T>)
    requires |xs| == |ps| && j <= |ps|
    ensures |r| == Rank(ps, j)
  {
    if j == 0 then [] else Kept(xs, ps, j - 1) + (if ps[j - 1].free then [] else [xs[j - 1]])
  }

  /** The list when the free entries below j have been removed. */
  function Sift<T>(xs: seq<T>, ps: seq<Part>, j: nat): (r: seq<T>)
    requires |xs| == |ps| && j <= |ps|
    ensures |r| == Rank(ps, j) + |ps| - j
  {
    Kept(xs, ps, j) + xs[j..]
  }

  lemma {:induction false} SiftOverGap<T>(xs: seq<T>, ps: seq<Part>, a: nat, b: nat)
    requires |xs| == |ps| && a <= b <= |ps| && forall k :: a <= k < b ==> !ps[k].free
    ensures Sift(xs, ps, a) == Sift(xs, ps, b)
  {
    if a < b {
      SiftOverGap(xs, ps, a, b - 1);
      assert xs[b - 1..] == [xs[b - 1]] + xs[b..];
      assert Kept(xs, ps, b) == Kept(xs, ps, b - 1) + [xs[b - 1]];
    }
  }

  lemma SiftStep<T>(xs: seq<T>, ps: seq<Part>, j: nat)
    requires |xs| == |ps| && j < |ps| && ps[j].free
    ensures Sift(xs, ps, j + 1) == Drop(Sift(xs, ps, j), Rank(ps, j))
    ensures Sift(xs, ps, j)[Rank(ps, j)] == xs[j]
  {
    DropMiddle(Kept(xs, ps, j), xs[j], xs[j + 1..]);
    assert xs[j..] == [xs[j]] + xs[j + 1..];
  }

  lemma DropMiddle<T>(a: seq<T>, x: T, b: seq<T>)
    ensures Drop(a + ([x] + b), |a|) == a + b && (a + ([x] + b))[|a|] == x
  {
  }

  /** Nothing is free before the first stop. */
  lemma FirstFreeStop<T>(xs: seq<T>, ps: seq<Part>)
    requires |xs| == |ps|
    ensures Stop(ps, true, 0) <= |ps| && Sift(xs, ps, Stop(ps, true, 0)) == xs
  {
    StopInRange(ps, true, 0);
    forall k | 0 <= k < Stop(ps, true, 0) ensures !ps[k].free { Gap(ps, true, 0, k); }
    SiftOverGap(xs, ps, 0, Stop(ps, true, 0));
  }

  /** Removing one free entry leads to the next stop. */
  lemma FreeStep<T>(xs: seq<T>, ps: seq<Part>, r: nat)
    requires |xs| == |ps| && r < |Indices(ps, true, |ps|)|
    ensures var a, b := Stop(ps, true, r), Stop(ps, true, r + 1);
      && a < |ps| && ps[a].free && b <= |ps|
      && Sift(xs, ps, a)[Rank(ps, a)] == xs[a]
      && Sift(xs, ps, b) == Drop(Sift(xs, ps, a), Rank(ps, a))
  {
    var a, b := Stop(ps, true, r), Stop(ps, true, r + 1);
    StopInRange(ps, true, r);
    StopInRange(ps, true, r + 1);
    IndicesIncrease(ps, true, |ps|);
    SiftStep(xs, ps, a);
    forall k | a + 1 <= k < b ensures !ps[k].free { Gap(ps, true, r + 1, k); }
    SiftOverGap(xs, ps, a + 1, b);
  }

  lemma SiftAll<T>(xs: seq<T>, ps: seq<Part>)
    requires |xs| == |ps|
    ensures Sift(xs, ps, |ps|) == Kept(xs, ps, |ps|)
  {
  }

  lemma {:induction false} KeptFrom<T>(xs: seq<T>, ps: seq<Part>, j: nat, r: nat) returns (k: nat)
    requires |xs| == |ps| && j <= |ps| && r < Rank(ps, j)
    ensures k < j && !ps[k].free && Kept(xs, ps, j)[r] == xs[k]
  {
    if r < Rank(ps, j - 1) { k := KeptFrom(xs, ps, j - 1, r); } else { k := j - 1; }
  }

  /** The first entry with a free partition's start is that free partition: the occupied ones
      before it have moved to smaller addresses, and those after it come later in the list. */
  lemma FreeFoundByStart(cfg: Config, ps: seq<Part>, j: nat)
    requires Layout(cfg, ps) && j < |ps| && ps[j].free
    ensures IndexAtStart(Sift(Shifted(cfg, ps, |ps|), ps, j), ps[j].start) == Rank(ps, j)
  {
    var xs := Shifted(cfg, ps, |ps|);
    var s := Sift(xs, ps, j);
    var i := IndexAtStart(s, ps[j].start);
    SiftStep(xs, ps, j);
    if i < Rank(ps, j) {
      var k := KeptFrom(xs, ps, j, i);
      MovedLeft(cfg, ps, k);
      Ordered(ps, cfg.total, k, j);
    }
  }

  /** What is left when every free entry is gone. */
  lemma {:induction false} KeptIsPacked(cfg: Config, xs: seq<Part>, ps: seq<Part>, j: nat)
    requires |xs| == |ps| && j <= |ps|
    requires forall i :: 0 <= i < j && !ps[i].free ==> xs[i] == Moved(cfg, ps, i)
    ensures Kept(xs, ps, j) == Packed(cfg, ps, j)
  {
    if j > 0 { KeptIsPacked(cfg, xs, ps, j - 1); }
  }

  /** With every free entry gone, the moved occupied ones are left. */
  lemma SiftedIsPacked(cfg: Config, ps: seq<Part>)
    ensures Sift(Shifted(cfg, ps, |ps|), ps, |ps|) == Packed(cfg, ps, |ps|)
  {
    SiftAll(Shifted(cfg, ps, |ps|), ps);
    KeptIsPacked(cfg, Shifted(cfg, ps, |ps|), ps, |ps|);
  }

  lemma ShiftedFree(cfg: Config, ps: seq<Part>, k: nat)
    requires k < |ps| && ps[k].free
    ensures Shifted(cfg, ps, |ps|)[k] == ps[k]
  {
  }

  /** The new hole goes after the last occupied partition, which is the last of the list. */
  lemma LastFoundByStart(cfg: Config, ps: seq<Part>)
    requires Layout(cfg, ps) && Packed(cfg, ps, |ps|) != []
    ensures var p := Packed(cfg, ps, |ps|);
      && IndexAtStart(p, p[|p| - 1].start) == |p| - 1
      && p[|p| - 1].position + p[|p| - 1].size == OccupiedSize(ps, |ps|)
      && p[|p| - 1].start == cfg.base + p[|p| - 1].position
  {
    var p := Packed(cfg, ps, |ps|);
    PackedTiling(cfg, ps, |ps|);
    var i := IndexAtStart(p, p[|p| - 1].start);
    if i < |p| - 1 { Ordered(p, OccupiedSize(ps, |ps|), i, |p| - 1); }
  }

  lemma {:induction false} KeptAt<T>(xs: seq<T>, ps: seq<Part>, j: nat)
    requires |xs| == |ps| && j <= |ps|
    ensures |Indices(ps, false, j)| == Rank(ps, j)
    ensures forall r :: 0 <= r < Rank(ps, j) ==>
      Indices(ps, false, j)[r] < |xs| && Kept(xs, ps, j)[r] == xs[Indices(ps, false, j)[r]]
  {
    if j > 0 { KeptAt(xs, ps, j - 1); }
  }

  lemma {:induction false} KeptIn<T>(xs: seq<T>, ps: seq<Part>, j: nat)
    requires |xs| == |ps| && j <= |ps|
    ensures forall x :: x in Kept(xs, ps, j) ==> x in xs
  {
    if j > 0 { KeptIn(xs, ps, j - 1); }
  }

  /** The last occupied partition ends up last in the list. */
  lemma LastKept<T>(xs: seq<T>, ps: seq<Part>)
    requires |xs| == |ps|
    ensures var n := |ps|; var i := Indices(ps, false, n);
      |i| == |Kept(xs, ps, n)| && (i != [] ==> i[|i| - 1] < n && Kept(xs, ps, n)[|i| - 1] == xs[i[|i| - 1]])
  {
    KeptAt(xs, ps, |ps|);
  }

  lemma SomethingPacked(cfg: Config, ps: seq<Part>)
    requires HasOccupied(ps)
    ensures Packed(cfg, ps, |ps|) != [] && Indices(ps, false, |ps|) != []
  {
    var k :| 0 <= k < |ps| && !ps[k].free;
    PackedAt(cfg, ps, k, |ps|);
    var r := IndexOf(ps, false, |ps|, k);
  }

  /** Moving changes nobody's flag and nobody's size. */
  lemma ShiftedFlags(cfg: Config, ps: seq<Part>)
    ensures var xs := Shifted(cfg, ps, |ps|);
      Indices(xs, true, |ps|) == Indices(ps, true, |ps|) && FreeSize(xs, |ps|) == FreeSize(ps, |ps|)
  {
    SameFlags(Shifted(cfg, ps, |ps|), ps, |ps|);
  }

  lemma {:induction false} SameFlags(xs: seq<Part>, ps: seq<Part>, j: nat)
    requires |xs| == |ps| && j <= |ps|
    requires forall i :: 0 <= i < |ps| ==> xs[i].free == ps[i].free && xs[i].size == ps[i].size
    ensures Indices(xs, true, j) == Indices(ps, true, j) && FreeSize(xs, j) == FreeSize(ps, j)
  {
    if j > 0 { SameFlags(xs, ps, j - 1); }
  }

  // ---- The sum of the free sizes ----

  function SumSizes(ps: seq<Part>, indices: seq<nat>, r: nat): nat
    requires r <= |indices| && forall q :: 0 <= q < |indices| ==> indices[q] < |ps|
  {
    if r == 0 then 0 else SumSizes(ps, indices, r - 1) + ps[indices[r - 1]].size
  }

  lemma {:induction false} SumIsFreeSize(ps: seq<Part>, j: nat)
    requires j <= |ps|
    ensures forall q :: 0 <= q < |Indices(ps, true, j)| ==> Indices(ps, true, j)[q] < |ps|
    ensures SumSizes(ps, Indices(ps, true, j), |Indices(ps, true, j)|) == FreeSize(ps, j)
  {
    IndicesInRange(ps, true, j);
    if j > 0 {
      SumIsFreeSize(ps, j - 1);
      SumPrefix(ps, Indices(ps, true, j - 1), Indices(ps, true, j), |Indices(ps, true, j - 1)|);
    }
  }

  lemma {:induction false} SumPrefix(ps: seq<Part>, a: seq<nat>, b: seq<nat>, r: nat)
    requires r <= |a| <= |b| && a == b[..|a|] && forall q :: 0 <= q < |b| ==> b[q] < |ps|
    ensures forall q :: 0 <= q < |a| ==> a[q] < |ps|
    ensures SumSizes(ps, a, r) == SumSizes(ps, b, r)
  {
    assert forall q :: 0 <= q < |a| ==> a[q] == b[q];
    if r > 0 { SumPrefix(ps, a, b, r - 1); }
  }
}
