/** Dynamic partitions (broker/src/dynamic.c) on lists of partitions. */
module Dynamic {
  import opened Partitions
  import opened Protocol

  ghost predicate NoFreeNeighbours(ps: seq<Part>) {
    forall i, j :: 0 <= i < |ps| && j == i + 1 && j < |ps| ==> !(ps[i].free && ps[j].free)
  }

  ghost predicate DynamicInv(cfg: Config, ps: seq<Part>) {
    Layout(cfg, ps) && NoFreeNeighbours(ps)
  }

  // ---- Merging after a victim ----

  /** The first partition that is free and has a free next one, or the length of the list. */
  function FirstPair(ps: seq<Part>, i: nat): (r: nat)
    requires i <= |ps|
    ensures i <= r <= |ps|
    ensures r < |ps| ==> r + 1 < |ps| && ps[r].free && ps[r + 1].free
    ensures forall k, l :: i <= k < r && l == k + 1 && l < |ps| ==> !(ps[k].free && ps[l].free)
    decreases |ps| - i
  {
    if i == |ps| then i
    else if i + 1 < |ps| && ps[i].free && ps[i + 1].free then i
    else FirstPair(ps, i + 1)
  }

  /** _consolidate: one pair, or one triple, becomes one partition. */
  function Merge(ps: seq<Part>): seq<Part> {
    var i := FirstPair(ps, 0);
    if i == |ps| then ps
    else if i + 2 < |ps| && ps[i + 2].free then Fuse(Fuse(ps, i, ps[i]), i, Fuse(ps, i, ps[i])[i])
    else Fuse(ps, i, ps[i])
  }

  /** Free neighbours, if any, are among the partitions from lo to hi. */
  ghost predicate FreeRun(ps: seq<Part>, lo: int, hi: int) {
    forall i, j :: 0 <= i < |ps| && j == i + 1 && j < |ps| && ps[i].free && ps[j].free ==> lo <= i && j <= hi
  }

  lemma FuseShrinksRun(ps: seq<Part>, i: nat, hi: nat)
    requires i < hi < |ps| && ps[i].free && ps[i + 1].free && FreeRun(ps, i, hi)
    ensures FreeRun(Fuse(ps, i, ps[i]), i, hi - 1)
  {
    FuseIndex(ps, i, ps[i]);
    var f := Fuse(ps, i, ps[i]);
    forall k, l | 0 <= k < |f| && l == k + 1 && l < |f|
      ensures f[k].free && f[l].free ==> i <= k && l <= hi - 1
    {
      var d := if l <= i then 0 else 1;
      assert ps[k + d].free == f[k].free && ps[l + d].free == f[l].free;
    }
  }

  lemma FuseKeeps(cfg: Config, ps: seq<Part>, i: nat)
    requires Layout(cfg, ps) && i + 1 < |ps| && ps[i].free && ps[i + 1].free
    ensures Layout(cfg, Fuse(ps, i, ps[i])) && OccupiedCount(Fuse(ps, i, ps[i])) == OccupiedCount(ps)
  {
    FuseLayout(cfg, ps, i, ps[i]);
    FuseCount(ps, i, ps[i]);
  }

  /** When the free neighbours are at most three in a row, merging one pair or one triple is
      enough. */
  lemma MergeRestores(cfg: Config, ps: seq<Part>, lo: nat, hi: nat)
    requires Layout(cfg, ps) && lo <= hi < |ps| && hi <= lo + 2
    requires FreeRun(ps, lo, hi) && forall k :: lo <= k <= hi ==> ps[k].free
    ensures DynamicInv(cfg, Merge(ps)) && OccupiedCount(Merge(ps)) == OccupiedCount(ps)
  {
    var i := FirstPair(ps, 0);
    if lo < hi {
      assert ps[lo].free && ps[lo + 1].free;
      assert i == lo;
      var f := Fuse(ps, i, ps[i]);
      FuseKeeps(cfg, ps, i);
      FuseShrinksRun(ps, i, hi);
      FuseIndex(ps, i, ps[i]);
      if i + 2 < |ps| && ps[i + 2].free {
        assert ps[i + 1].free && ps[i + 2].free;
        FuseKeeps(cfg, f, i);
        FuseShrinksRun(f, i, hi - 1);
      }
    }
  }

  /** Freeing one partition makes at most three free ones in a row. */
  lemma EvictRun(ps: seq<Part>, v: nat)
    requires NoFreeNeighbours(ps) && v < |ps| && !ps[v].free
    ensures var (lo, hi) := RunAround(ps, v);
      && lo <= v <= hi < |ps| && hi <= lo + 2
      && FreeRun(Evict(ps, v), lo, hi) && forall k :: lo <= k <= hi ==> Evict(ps, v)[k].free
  {
    var (lo, hi) := RunAround(ps, v);
    var e := Evict(ps, v);
    forall i, j | 0 <= i < |e| && j == i + 1 && j < |e| && e[i].free && e[j].free
      ensures lo <= i && j <= hi
    {
      assert !(ps[i].free && ps[j].free);
    }
  }

  /** Partition v with its free neighbours. */
  function RunAround(ps: seq<Part>, v: nat): (nat, nat)
    requires v < |ps|
  {
    (if v > 0 && ps[v - 1].free then v - 1 else v, if v + 1 < |ps| && ps[v + 1].free then v + 1 else v)
  }

  /** What a turn that kills does to the list. */
  function EvictDynamic(cfg: Config, ps: seq<Part>, v: nat): (r: seq<Part>)
    requires DynamicInv(cfg, ps) && v < |ps| && !ps[v].free
    ensures DynamicInv(cfg, r) && OccupiedCount(r) == OccupiedCount(ps) - 1
  {
    EvictLayout(cfg, ps, v);
    EvictCount(ps, v);
    EvictRun(ps, v);
    var (lo, hi) := RunAround(ps, v);
    MergeRestores(cfg, Evict(ps, v), lo, hi);
    Merge(Evict(ps, v))
  }

  /** A memory that is not one whole partition has an occupied one. */
  lemma EmptyIsWhole(cfg: Config, ps: seq<Part>)
    requires DynamicInv(cfg, ps)
    ensures HasOccupied(ps) || (|ps| == 1 && ps[0].size == cfg.total)
  {
    if |ps| > 1 {
      var i, j := 0, 1;
      assert !(ps[i].free && ps[j].free);
      var o := if ps[i].free then j else i;
      assert !ps[o].free;
    }
  }

  lemma PairIsFuse(ps: seq<Part>, i: nat)
    requires i + 1 < |ps|
    ensures Drop(ps[i := ps[i].(size := ps[i].size + ps[i + 1].size)], i + 1) == Fuse(ps, i, ps[i])
  {
  }

  lemma TripleIsFuse(ps: seq<Part>, i: nat)
    requires i + 2 < |ps|
    ensures var grown := ps[i := ps[i].(size := ps[i].size + ps[i + 1].size + ps[i + 2].size)];
      Drop(Drop(grown, i + 2), i + 1) == Fuse(Fuse(ps, i, ps[i]), i, Fuse(ps, i, ps[i])[i])
  {
  }

  // ---- Compaction ----

  /** Bytes in the occupied, and in the free, partitions among the first j. */
  function OccupiedSize(ps: seq<Part>, j: nat): nat
    requires j <= |ps|
  {
    if j == 0 then 0 else OccupiedSize(ps, j - 1) + (if ps[j - 1].free then 0 else ps[j - 1].size)
  }

  function FreeSize(ps: seq<Part>, j: nat): nat
    requires j <= |ps|
  {
    if j == 0 then 0 else FreeSize(ps, j - 1) + (if ps[j - 1].free then ps[j - 1].size else 0)
  }

  /** Partition k at the place compaction gives it. */
  function Moved(cfg: Config, ps: seq<Part>, k: nat): Part
    requires k < |ps|
  {
    ps[k].(position := OccupiedSize(ps, k), start := cfg.base + OccupiedSize(ps, k))
  }

  /** The occupied ones among the first j partitions, moved together. */
  function Packed(cfg: Config, ps: seq<Part>, j: nat): seq<Part>
    requires j <= |ps|
  {
    if j == 0 then []
    else Packed(cfg, ps, j - 1) + (if ps[j - 1].free then [] else [Moved(cfg, ps, j - 1)])
  }

  /** _compact on the list: the occupied partitions without gaps, then one hole. */
  function Compact(cfg: Config, ps: seq<Part>): seq<Part> {
    var used := OccupiedSize(ps, |ps|);
    Packed(cfg, ps, |ps|) + [NewPart(used, cfg.base + used, FreeSize(ps, |ps|))]
  }

  function Overwrite(bytes: seq<byte>, at: nat, data: seq<byte>): (r: seq<byte>)
    requires at + |data| <= |bytes|
    ensures |r| == |bytes|
  {
    bytes[..at] + data + bytes[at + |data|..]
  }

  /** The message bytes of an occupied partition. */
  function DataOf(p: Part, bytes: seq<byte>): seq<byte>
    requires p.message.Some? && p.position + p.message.value.dataSize <= |bytes|
  {
    bytes[p.position..p.position + p.message.value.dataSize]
  }

  /** _compact on the cache: every message is written at its partition's new place, from a
      copy taken before anything was written. */
  function CompactBytes(cfg: Config, ps: seq<Part>, bytes: seq<byte>, j: nat): (r: seq<byte>)
    requires Layout(cfg, ps) && |bytes| == cfg.total && j <= |ps|
    ensures |r| == |bytes|
  {
    if j == 0 then bytes
    else
      var r := CompactBytes(cfg, ps, bytes, j - 1);
      if ps[j - 1].free then r
      else
        InMemory(ps, cfg.total, j - 1);
        MovedLeft(cfg, ps, j - 1);
        Overwrite(r, OccupiedSize(ps, j - 1), DataOf(ps[j - 1], bytes))
  }

  /** What lies before partition k is the occupied part and the free part. */
  lemma {:induction false} Parts(ps: seq<Part>, total: nat, k: nat)
    requires Tiling(ps, total) && k <= |ps|
    ensures OccupiedSize(ps, k) + FreeSize(ps, k) == if k < |ps| then ps[k].position else total
  {
    if k > 0 { Parts(ps, total, k - 1); }
  }

  /** Partitions only move towards the start of the memory. */
  lemma MovedLeft(cfg: Config, ps: seq<Part>, k: nat)
    requires Layout(cfg, ps) && k < |ps|
    ensures OccupiedSize(ps, k) <= ps[k].position
  {
    Parts(ps, cfg.total, k);
  }

  lemma {:induction false} OccupiedSizeMono(ps: seq<Part>, k: nat, j: nat)
    requires k < j <= |ps| && !ps[k].free
    ensures OccupiedSize(ps, k) + ps[k].size <= OccupiedSize(ps, j)
  {
    if k + 1 < j { OccupiedSizeMono(ps, k, j - 1); }
  }

  /** How many of the first k partitions are occupied: the index of partition k once packed. */
  function Rank(ps: seq<Part>, k: nat): nat
    requires k <= |ps|
  {
    if k == 0 then 0 else Rank(ps, k - 1) + (if ps[k - 1].free then 0 else 1)
  }

  lemma {:induction false} PackedLength(cfg: Config, ps: seq<Part>, j: nat)
    requires j <= |ps|
    ensures |Packed(cfg, ps, j)| == Rank(ps, j)
  {
    if j > 0 { PackedLength(cfg, ps, j - 1); }
  }

  /** Compaction keeps the partitions' order, sizes, times and messages. */
  lemma {:induction false} PackedAt(cfg: Config, ps: seq<Part>, k: nat, j: nat)
    requires k < j <= |ps| && !ps[k].free
    ensures Rank(ps, k) < |Packed(cfg, ps, j)| && Packed(cfg, ps, j)[Rank(ps, k)] == Moved(cfg, ps, k)
  {
    PackedLength(cfg, ps, j - 1);
    if k < j - 1 { PackedAt(cfg, ps, k, j - 1); }
  }

  /** Every packed partition comes from an occupied one. */
  lemma {:induction false} PackedFrom(cfg: Config, ps: seq<Part>, j: nat, r: nat) returns (k: nat)
    requires j <= |ps| && r < |Packed(cfg, ps, j)|
    ensures k < j && !ps[k].free && Rank(ps, k) == r && Packed(cfg, ps, j)[r] == Moved(cfg, ps, k)
  {
    PackedLength(cfg, ps, j - 1);
    if r < |Packed(cfg, ps, j - 1)| { k := PackedFrom(cfg, ps, j - 1, r); } else { k := j - 1; }
  }

  lemma {:induction false} RankMono(ps: seq<Part>, k: nat, j: nat)
    requires k < j <= |ps| && !ps[k].free
    ensures Rank(ps, k) < Rank(ps, j)
  {
    if k + 1 < j { RankMono(ps, k, j - 1); }
  }

  /** The packed partitions leave no gap. */
  lemma {:induction false} PackedTiling(cfg: Config, ps: seq<Part>, j: nat)
    requires Layout(cfg, ps) && j <= |ps|
    ensures var p := Packed(cfg, ps, j);
      if p == [] then OccupiedSize(ps, j) == 0 else Tiling(p, OccupiedSize(ps, j)) && Based(p, cfg.base)
  {
    if j > 0 { PackedTiling(cfg, ps, j - 1); }
  }

  ghost predicate HasFree(ps: seq<Part>) {
    exists i :: 0 <= i < |ps| && ps[i].free
  }

  lemma {:induction false} FreeSizePositive(ps: seq<Part>, total: nat, j: nat)
    requires Tiling(ps, total) && j <= |ps|
    ensures FreeSize(ps, j) > 0 <==> exists i :: 0 <= i < j && ps[i].free
  {
    if j > 0 { FreeSizePositive(ps, total, j - 1); }
  }

  /** Compaction leaves one free partition, the last one, which reaches to the end of the memory
      and has the size of all that was free. That is a well-formed memory exactly when there
      was something free: otherwise the partition has size zero. */
  lemma CompactInv(cfg: Config, ps: seq<Part>)
    requires Layout(cfg, ps)
    ensures var c := Compact(cfg, ps); var hole := c[|c| - 1];
      && hole.free && hole.size == FreeSize(ps, |ps|) && hole.position + hole.size == cfg.total
      && (forall i :: 0 <= i < |c| - 1 ==> !c[i].free)
      && (hole.size > 0 <==> HasFree(ps))
    ensures Tiling(Compact(cfg, ps), cfg.total) <==> HasFree(ps)
    ensures HasFree(ps) ==> DynamicInv(cfg, Compact(cfg, ps))
    ensures HasFree(ps) ==> HasHole(Compact(cfg, ps), FreeSize(ps, |ps|))
  {
    var c, n := Compact(cfg, ps), |ps|;
    Parts(ps, cfg.total, n);
    FreeSizePositive(ps, cfg.total, n);
    assert c[|c| - 1].size == FreeSize(ps, n) && CanHold(c[|c| - 1], FreeSize(ps, n));
    forall i | 0 <= i < |c| - 1 ensures !c[i].free { var k := PackedFrom(cfg, ps, n, i); }
    if HasFree(ps) {
      PackedTiling(cfg, ps, n);
      CompactOccupants(cfg, ps);
    }
  }

  lemma CompactOccupants(cfg: Config, ps: seq<Part>)
    requires Layout(cfg, ps)
    ensures Filled(Compact(cfg, ps)) && DistinctIds(Compact(cfg, ps))
  {
    var c, n := Compact(cfg, ps), |ps|;
    forall i | 0 <= i < |c| && !c[i].free
      ensures c[i].message.Some? && c[i].message.value.dataSize <= c[i].size
    {
      var k := PackedFrom(cfg, ps, n, i);
    }
    forall i, j | 0 <= i < j < |c| && !c[i].free && !c[j].free
      ensures c[i].message.value.id != c[j].message.value.id
    {
      var k := PackedFrom(cfg, ps, n, i);
      var l := PackedFrom(cfg, ps, n, j);
      if l < k { RankMono(ps, l, k); }
    }
  }

  lemma {:induction false} CompactCount(cfg: Config, ps: seq<Part>, j: nat)
    requires j <= |ps|
    ensures OccupiedCount(Packed(cfg, ps, j)) == OccupiedCount(ps[..j])
  {
    if j > 0 {
      CompactCount(cfg, ps, j - 1);
      assert ps[..j] == ps[..j - 1] + [ps[j - 1]];
      OccupiedConcat(ps[..j - 1], [ps[j - 1]]);
      var last := if ps[j - 1].free then [] else [Moved(cfg, ps, j - 1)];
      OccupiedConcat(Packed(cfg, ps, j - 1), last);
      assert OccupiedCount(last) == OccupiedCount([ps[j - 1]]);
    }
  }

  /** Where a message goes, it fits. */
  lemma MovedFits(cfg: Config, ps: seq<Part>, k: nat)
    requires Layout(cfg, ps) && k < |ps| && !ps[k].free
    ensures OccupiedSize(ps, k) + ps[k].message.value.dataSize <= cfg.total
    ensures ps[k].position + ps[k].message.value.dataSize <= cfg.total
  {
    InMemory(ps, cfg.total, k);
    MovedLeft(cfg, ps, k);
  }

  /** The bytes of a message after compaction: written when its partition was reached, and
      not touched by the messages written later. */
  lemma {:induction false} CompactKeepsBytes(cfg: Config, ps: seq<Part>, bytes: seq<byte>, k: nat, j: nat)
    requires Layout(cfg, ps) && |bytes| == cfg.total && k < j <= |ps| && !ps[k].free
    requires OccupiedSize(ps, k) + ps[k].message.value.dataSize <= cfg.total
    requires ps[k].position + ps[k].message.value.dataSize <= cfg.total
    ensures var at, n := OccupiedSize(ps, k), ps[k].message.value.dataSize;
      CompactBytes(cfg, ps, bytes, j)[at..at + n] == DataOf(ps[k], bytes)
  {
    var at, n := OccupiedSize(ps, k), ps[k].message.value.dataSize;
    var r := CompactBytes(cfg, ps, bytes, j - 1);
    hide Overwrite;
    if k == j - 1 {
      OverwriteHere(r, at, DataOf(ps[k], bytes));
    } else {
      CompactKeepsBytes(cfg, ps, bytes, k, j - 1);
      if !ps[j - 1].free {
        OccupiedSizeMono(ps, k, j - 1);
        MovedFits(cfg, ps, j - 1);
        OverwriteElsewhere(r, OccupiedSize(ps, j - 1), DataOf(ps[j - 1], bytes), at, n);
      }
    }
  }

  lemma OverwriteHere(bytes: seq<byte>, at: nat, data: seq<byte>)
    requires at + |data| <= |bytes|
    ensures Overwrite(bytes, at, data)[at..at + |data|] == data
  {
  }

  lemma OverwriteElsewhere(bytes: seq<byte>, at: nat, data: seq<byte>, x: nat, n: nat)
    requires at + |data| <= |bytes| && x + n <= |bytes| && (x + n <= at || at + |data| <= x)
    ensures Overwrite(bytes, at, data)[x..x + n] == bytes[x..x + n]
  {
  }

  lemma MergeOccupied(ps: seq<Part>)
    ensures Occupied(Merge(ps)) == Occupied(ps)
    ensures HasFree(ps) ==> HasFree(Merge(ps))
  {
    var i := FirstPair(ps, 0);
    if i < |ps| {
      var f := Fuse(ps, i, ps[i]);
      FuseOccupied(ps, i, ps[i]);
      FuseIndex(ps, i, ps[i]);
      assert f[i].free;
      if i + 2 < |ps| && ps[i + 2].free {
        FuseOccupied(f, i, f[i]);
        FuseIndex(f, i, f[i]);
        assert Merge(ps)[i].free;
      }
    }
  }

  /** The occupied partitions after compaction are the old ones at their new places. */
  lemma CompactOccupied(cfg: Config, ps: seq<Part>)
    ensures forall p :: p in Occupied(Compact(cfg, ps)) <==>
      exists k :: 0 <= k < |ps| && !ps[k].free && p == Moved(cfg, ps, k)
  {
    var c, n := Compact(cfg, ps), |ps|;
    forall p | p in Occupied(c)
      ensures exists k :: 0 <= k < |ps| && !ps[k].free && p == Moved(cfg, ps, k)
    {
      var i :| 0 <= i < |c| && c[i] == p;
      var k := PackedFrom(cfg, ps, n, i);
    }
    forall k | 0 <= k < |ps| && !ps[k].free
      ensures Moved(cfg, ps, k) in Occupied(c)
    {
      PackedAt(cfg, ps, k, n);
      assert c[Rank(ps, k)] == Moved(cfg, ps, k);
    }
  }

  /** Taking the front of a hole leaves no two free neighbours. */
  lemma OccupyNeighbours(ps: seq<Part>, h: nat, want: nat, m: Message, now: nat)
    requires NoFreeNeighbours(ps) && h < |ps| && ps[h].free && want <= ps[h].size
    ensures NoFreeNeighbours(Occupy(if ps[h].size == want then ps else Cut(ps, h, want), h, m, now))
  {
    if ps[h].size != want {
      var c := Cut(ps, h, want);
      var o := Occupy(c, h, m, now);
      CutIndex(ps, h, want);
      forall i, j | 0 <= i < |o| && j == i + 1 && j < |o| && i != h && j != h
        ensures !(o[i].free && o[j].free)
      {
        var d := if i < h then 0 else 1;
        assert ps[j - d].free == o[j].free && (ps[i - d].free || !o[i].free);
        assert !(ps[i - d].free && ps[j - d].free);
      }
    }
  }
}
