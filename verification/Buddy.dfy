/** The buddy system of broker/src/buddy.c on lists of partitions. */
module Buddy {
  import opened Arithmetic
  import opened Partitions
  import opened Protocol

  /** Every block is a power of two in size, starts at a multiple of its size and is not
      smaller than the configured minimum. */
  ghost predicate Blocks(cfg: Config, ps: seq<Part>) {
    forall i :: 0 <= i < |ps| ==> IsPow2(ps[i].size) && Aligned(ps[i].position, ps[i].size) && ps[i].size >= cfg.minSize
  }

  ghost predicate Shape(cfg: Config, ps: seq<Part>) {
    Layout(cfg, ps) && Blocks(cfg, ps)
  }

  function BuddyPosition(p: Part): nat { Xor(p.position, p.size) }

  predicate FreeBuddies(p: Part, q: Part) {
    p.free && q.free && p.size == q.size && q.position == BuddyPosition(p)
  }

  /** No two free partitions are buddies of equal size, except maybe with partition v. */
  ghost predicate CoalescedBut(ps: seq<Part>, v: int) {
    forall i, j :: 0 <= i < |ps| && 0 <= j < |ps| && i != v && j != v ==> !FreeBuddies(ps[i], ps[j])
  }

  ghost predicate Coalesced(ps: seq<Part>) { CoalescedBut(ps, -1) }

  /** main.c rounds both configured sizes to powers of two in this mode. */
  ghost predicate BuddyConfig(cfg: Config) {
    IsPow2(cfg.total) && IsPow2(cfg.minSize) && cfg.minSize <= cfg.total <= 0x8000_0000
  }

  ghost predicate BuddyInv(cfg: Config, ps: seq<Part>) {
    BuddyConfig(cfg) && Shape(cfg, ps) && Coalesced(ps)
  }

  function Smaller(a: nat, b: nat): nat { if a < b then a else b }

  // ---- Where a buddy is ----

  /** A buddy of the same size is the next or the previous entry of the list, and the two
      together are an aligned block. */
  lemma BuddyIsNeighbour(cfg: Config, ps: seq<Part>, v: nat, b: nat)
    requires Shape(cfg, ps) && v < |ps| && b < |ps|
    requires ps[b].position == BuddyPosition(ps[v]) && ps[b].size == ps[v].size
    ensures b == v + 1 || v == b + 1
    ensures IsPow2(2 * ps[v].size) && Aligned(ps[Smaller(v, b)].position, 2 * ps[v].size)
  {
    var s := ps[v].size;
    XorAligned(ps[v].position, s);
    if v < b {
      Ordered(ps, cfg.total, v, b);
      if v + 1 < b { Ordered(ps, cfg.total, v + 1, b); }
    } else if b < v {
      Ordered(ps, cfg.total, b, v);
      if b + 1 < v { Ordered(ps, cfg.total, b + 1, v); }
    }
  }

  lemma BuddiesBothWays(p: Part, q: Part)
    requires IsPow2(p.size) && Aligned(p.position, p.size)
    requires FreeBuddies(p, q)
    ensures FreeBuddies(q, p)
  {
    XorInvolutive(p.position, p.size);
  }

  // ---- Merging upwards from a victim ----

  /** _consolidate_buddy from partition v: while its buddy is free and as big, absorb it. */
  function Consolidate(cfg: Config, ps: seq<Part>, v: nat): (r: seq<Part>)
    requires Shape(cfg, ps) && v < |ps| && ps[v].free
    ensures Shape(cfg, r) && |r| <= |ps|
    decreases |ps|
  {
    var b := IndexAtPosition(ps, BuddyPosition(ps[v]));
    if b < |ps| && ps[b].free && ps[b].size == ps[v].size then
      BuddyIsNeighbour(cfg, ps, v, b);
      FuseShape(cfg, ps, v, b);
      Consolidate(cfg, Fuse(ps, Smaller(v, b), ps[v]), Smaller(v, b))
    else ps
  }

  lemma FuseShape(cfg: Config, ps: seq<Part>, v: nat, b: nat)
    requires Shape(cfg, ps) && v < |ps| && b < |ps| && ps[v].free && ps[b].free
    requires ps[b].position == BuddyPosition(ps[v]) && ps[b].size == ps[v].size
    requires b == v + 1 || v == b + 1
    ensures Shape(cfg, Fuse(ps, Smaller(v, b), ps[v]))
  {
    var l := Smaller(v, b);
    BuddyIsNeighbour(cfg, ps, v, b);
    FuseLayout(cfg, ps, l, ps[v]);
    FuseIndex(ps, l, ps[v]);
    hide Layout, BuddyPosition;
  }

  /** The list once partition v has taken over its buddy b, which is still in it. */
  function Grown(ps: seq<Part>, v: nat, b: nat): seq<Part>
    requires v < |ps| && b < |ps|
  {
    ps[v := ps[v].(position := Smaller(ps[v].position, ps[b].position),
                   start := Smaller(ps[v].start, ps[b].start), size := ps[v].size + ps[b].size)]
  }

  /** Removing the first entry with the buddy's start removes the buddy, never the survivor,
      even when the survivor has just taken that start. */
  lemma BuddyFoundByStart(cfg: Config, ps: seq<Part>, v: nat, b: nat)
    requires Layout(cfg, ps) && v < |ps| && b < |ps| && (b == v + 1 || v == b + 1)
    ensures IndexAtStart(Grown(ps, v, b), ps[b].start) == b
  {
    var g := Grown(ps, v, b);
    assert g[b].start == ps[b].start;
    var r := IndexAtStart(g, ps[b].start);
    NeighbourStarts(cfg, ps, Smaller(v, b));
    if r < b && r != v { SamePlace(ps, cfg.total, r, b); }
  }

  lemma AbsorbIsFuse(ps: seq<Part>, v: nat, b: nat)
    requires v < |ps| && b < |ps| && (b == v + 1 || v == b + 1)
    requires ps[Smaller(v, b)].position < ps[Smaller(v, b) + 1].position
    requires ps[Smaller(v, b)].start < ps[Smaller(v, b) + 1].start
    ensures Drop(Grown(ps, v, b), b) == Fuse(ps, Smaller(v, b), ps[v])
  {
  }

  lemma NeighbourStarts(cfg: Config, ps: seq<Part>, l: nat)
    requires Layout(cfg, ps) && l + 1 < |ps|
    ensures ps[l].position < ps[l + 1].position && ps[l].start < ps[l + 1].start
  {
    Ordered(ps, cfg.total, l, l + 1);
  }

  /** Merging one victim upwards is enough: if only the victim may have a free buddy before,
      nobody has one afterwards. */
  lemma {:induction false} ConsolidateCoalesces(cfg: Config, ps: seq<Part>, v: nat)
    requires Shape(cfg, ps) && v < |ps| && ps[v].free && CoalescedBut(ps, v)
    ensures Coalesced(Consolidate(cfg, ps, v))
    ensures OccupiedCount(Consolidate(cfg, ps, v)) == OccupiedCount(ps)
    decreases |ps|
  {
    var b := IndexAtPosition(ps, BuddyPosition(ps[v]));
    if b < |ps| && ps[b].free && ps[b].size == ps[v].size {
      BuddyIsNeighbour(cfg, ps, v, b);
      FuseShape(cfg, ps, v, b);
      var l := Smaller(v, b);
      var f := Fuse(ps, l, ps[v]);
      FuseIndex(ps, l, ps[v]);
      assert CoalescedBut(f, l) by {
        forall i, j | 0 <= i < |f| && 0 <= j < |f| && i != l && j != l
          ensures !FreeBuddies(f[i], f[j])
        {
          var i', j' := if i < l then i else i + 1, if j < l then j else j + 1;
          assert f[i] == ps[i'] && f[j] == ps[j'] && i' != v && j' != v;
        }
      }
      FuseCount(ps, l, ps[v]);
      ConsolidateCoalesces(cfg, f, l);
    } else {
      NoBuddyLeft(cfg, ps, v);
    }
  }

  lemma NoBuddyLeft(cfg: Config, ps: seq<Part>, v: nat)
    requires Shape(cfg, ps) && v < |ps| && CoalescedBut(ps, v)
    requires var b := IndexAtPosition(ps, BuddyPosition(ps[v]));
      b == |ps| || !ps[b].free || ps[b].size != ps[v].size
    ensures Coalesced(ps)
  {
    var b := IndexAtPosition(ps, BuddyPosition(ps[v]));
    forall i, j | 0 <= i < |ps| && 0 <= j < |ps| && FreeBuddies(ps[i], ps[j])
      ensures false
    {
      BuddiesBothWays(ps[i], ps[j]);
      var o := if i == v then j else i;
      assert ps[o].position == BuddyPosition(ps[v]) && b <= o;
      SamePlace(ps, cfg.total, b, o);
    }
  }

  /** What one turn of the eviction loop does to the list. */
  function EvictBuddy(cfg: Config, ps: seq<Part>, v: nat): (r: seq<Part>)
    requires BuddyInv(cfg, ps) && v < |ps| && !ps[v].free
    ensures BuddyInv(cfg, r) && OccupiedCount(r) == OccupiedCount(ps) - 1
  {
    var e := Evict(ps, v);
    EvictLayout(cfg, ps, v);
    EvictCount(ps, v);
    assert CoalescedBut(e, v) by { EvictCoalescedBut(ps, v); }
    ConsolidateCoalesces(cfg, e, v);
    Consolidate(cfg, e, v)
  }

  lemma EvictCoalescedBut(ps: seq<Part>, v: nat)
    requires v < |ps| && Coalesced(ps)
    ensures CoalescedBut(Evict(ps, v), v)
  {
    var e := Evict(ps, v);
    forall i, j | 0 <= i < |e| && 0 <= j < |e| && i != v && j != v ensures !FreeBuddies(e[i], e[j]) {
      assert e[i] == ps[i] && e[j] == ps[j];
    }
  }

  // ---- Splitting a hole down to size ----

  /** _break_buddys: halve partition h until it has the wanted size. */
  function Split(ps: seq<Part>, h: nat, want: nat): (r: seq<Part>)
    requires h < |ps| && IsPow2(ps[h].size) && IsPow2(want) && want <= ps[h].size
    ensures h < |r| && r[h] == ps[h].(size := want)
    decreases ps[h].size
  {
    if ps[h].size == want then ps
    else
      SmallerPow2(want, ps[h].size);
      var c := Cut(ps, h, ps[h].size / 2);
      assert c[h] == ps[h].(size := ps[h].size / 2);
      Split(c, h, want)
  }

  lemma SplitDone(ps: seq<Part>, h: nat, want: nat)
    requires h < |ps| && IsPow2(ps[h].size) && IsPow2(want) && want <= ps[h].size
    ensures ps[h].size == want ==> Split(ps, h, want) == ps
  {
  }

  lemma CutShape(cfg: Config, ps: seq<Part>, h: nat)
    requires Shape(cfg, ps) && h < |ps| && ps[h].free && ps[h].size > 1 && ps[h].size / 2 >= cfg.minSize
    ensures Shape(cfg, Cut(ps, h, ps[h].size / 2))
  {
    var s := ps[h].size / 2;
    CutLayout(cfg, ps, h, s);
    CutIndex(ps, h, s);
    HalvesAligned(ps[h].position, ps[h].size);
    hide Layout, IsPow2, Aligned, Cut;
    var c := Cut(ps, h, s);
    forall i | 0 <= i < |c| ensures IsPow2(c[i].size) && Aligned(c[i].position, c[i].size) && c[i].size >= cfg.minSize {
      if i < h { assert c[i] == ps[i]; } else if i > h + 1 { assert c[i] == ps[i - 1]; }
    }
  }

  lemma HalvesAligned(p: nat, s: nat)
    requires IsPow2(s) && s > 1 && Aligned(p, s)
    ensures IsPow2(s / 2) && Aligned(p, s / 2) && Aligned(p + s / 2, s / 2)
  {
    AlignedToSmaller(p, s / 2, s);
    Pow2Aligned(s / 2, s / 2);
    AlignedSum(p, s / 2, s / 2);
  }

  /** The only free buddy of a right half is the left half it was cut from. */
  lemma CutCoalescedBut(cfg: Config, ps: seq<Part>, h: nat)
    requires Shape(cfg, ps) && h < |ps| && ps[h].free && ps[h].size > 1 && ps[h].size / 2 >= cfg.minSize
    requires CoalescedBut(ps, h)
    ensures CoalescedBut(Cut(ps, h, ps[h].size / 2), h)
  {
    var s := ps[h].size / 2;
    var c := Cut(ps, h, s);
    CutShape(cfg, ps, h);
    CutIndex(ps, h, s);
    assert BuddyPosition(c[h + 1]) == c[h].position by { RightHalfBuddy(ps[h].position, s); }
    assert Tiling(c, cfg.total);
    assert forall i :: 0 <= i < |c| ==> IsPow2(c[i].size) && Aligned(c[i].position, c[i].size);
    hide Shape, Tiling, BuddyPosition, IsPow2, Aligned;
    forall i, j | 0 <= i < |c| && 0 <= j < |c| && i != h && j != h
      ensures !FreeBuddies(c[i], c[j])
    {
      if i == h + 1 || j == h + 1 {
        if FreeBuddies(c[i], c[j]) {
          BuddiesBothWays(c[i], c[j]);
          SamePlace(c, cfg.total, if i == h + 1 then j else i, h);
        }
      } else {
        var i', j' := if i < h then i else i - 1, if j < h then j else j - 1;
        assert c[i] == ps[i'] && c[j] == ps[j'];
      }
    }
  }

  lemma RightHalfBuddy(p: nat, s: nat)
    requires IsPow2(s) && IsPow2(2 * s) && Aligned(p, 2 * s)
    ensures Xor(p + s, s) == p
  {
    AlignedToSmaller(p, s, 2 * s);
    XorAligned(p, s);
    XorInvolutive(p, s);
  }

  lemma {:induction false} SplitInv(cfg: Config, ps: seq<Part>, h: nat, want: nat)
    requires Shape(cfg, ps) && h < |ps| && ps[h].free && CoalescedBut(ps, h)
    requires IsPow2(want) && cfg.minSize <= want <= ps[h].size
    ensures Shape(cfg, Split(ps, h, want)) && CoalescedBut(Split(ps, h, want), h)
    ensures OccupiedCount(Split(ps, h, want)) == OccupiedCount(ps)
    decreases ps[h].size
  {
    if ps[h].size != want {
      SmallerPow2(want, ps[h].size);
      var c := Cut(ps, h, ps[h].size / 2);
      CutShape(cfg, ps, h);
      CutCoalescedBut(cfg, ps, h);
      CutCount(ps, h, ps[h].size / 2);
      CutIndex(ps, h, ps[h].size / 2);
      SplitInv(cfg, c, h, want);
    }
  }

  // ---- A fully coalesced empty memory is one block ----

  lemma EmptyIsWhole(cfg: Config, ps: seq<Part>)
    requires BuddyInv(cfg, ps)
    ensures HasOccupied(ps) || (|ps| == 1 && ps[0].size == cfg.total)
  {
    if |ps| > 1 && !HasOccupied(ps) {
      var m := SmallestBlock(ps, 0);
      SmallestHasFreeBuddy(cfg, ps, m);
    }
  }

  lemma {:induction false} SmallestBlock(ps: seq<Part>, i: nat) returns (m: nat)
    requires i < |ps|
    ensures m < |ps| && forall j :: 0 <= j < |ps| ==> ps[m].size <= ps[j].size
    decreases ps[i].size
  {
    if j :| 0 <= j < |ps| && ps[j].size < ps[i].size {
      m := SmallestBlock(ps, j);
    } else {
      m := i;
    }
  }

  /** In a list of at least two blocks, the buddy of a smallest block is a block of the list. */
  lemma SmallestHasFreeBuddy(cfg: Config, ps: seq<Part>, m: nat)
    requires BuddyConfig(cfg) && Shape(cfg, ps) && |ps| > 1 && m < |ps|
    requires forall j :: 0 <= j < |ps| ==> ps[m].size <= ps[j].size
    ensures exists b :: 0 <= b < |ps| && ps[b].size == ps[m].size && ps[b].position == BuddyPosition(ps[m])
  {
    var p, s := ps[m].position, ps[m].size;
    XorAligned(p, s);
    if Aligned(p, 2 * s) {
      NotTheLast(cfg, ps, m);
      RightNeighbourSize(cfg, ps, m);
      assert ps[m + 1].position == BuddyPosition(ps[m]);
    } else {
      AlignedZero(2 * s);
      LeftNeighbourSize(cfg, ps, m);
      assert ps[m - 1].position == BuddyPosition(ps[m]);
    }
  }

  lemma NotTheLast(cfg: Config, ps: seq<Part>, m: nat)
    requires BuddyConfig(cfg) && Shape(cfg, ps) && |ps| > 1 && m < |ps|
    requires forall j :: 0 <= j < |ps| ==> ps[m].size <= ps[j].size
    requires IsPow2(2 * ps[m].size) && Aligned(ps[m].position, 2 * ps[m].size)
    ensures m < |ps| - 1
  {
    var p, s := ps[m].position, ps[m].size;
    if m == |ps| - 1 {
      Ordered(ps, cfg.total, 0, m);
      SmallerPow2(s, cfg.total);
      Pow2Aligned(2 * s, cfg.total);
      AlignedSum(cfg.total, p, 2 * s);
      HalfNotAligned(s);
    }
  }

  lemma RightNeighbourSize(cfg: Config, ps: seq<Part>, m: nat)
    requires Shape(cfg, ps) && m + 1 < |ps| && ps[m].size <= ps[m + 1].size
    requires IsPow2(2 * ps[m].size) && Aligned(ps[m].position, 2 * ps[m].size)
    ensures ps[m + 1].size == ps[m].size && ps[m + 1].position == ps[m].position + ps[m].size
  {
    var p, s, t := ps[m].position, ps[m].size, ps[m + 1].size;
    assert ps[m + 1].position == p + s;
    if s < t {
      SmallerPow2(s, t);
      AlignedToSmaller(p + s, 2 * s, t);
      AlignedSum(p + s, p, 2 * s);
      HalfNotAligned(s);
    }
  }

  lemma LeftNeighbourSize(cfg: Config, ps: seq<Part>, m: nat)
    requires Shape(cfg, ps) && 0 < m < |ps| && ps[m].size <= ps[m - 1].size
    requires IsPow2(2 * ps[m].size) && !Aligned(ps[m].position, 2 * ps[m].size)
    ensures ps[m - 1].size == ps[m].size && ps[m - 1].position + ps[m].size == ps[m].position
  {
    var q, s, t := ps[m - 1].position, ps[m].size, ps[m - 1].size;
    assert ps[m].position == q + t;
    if s < t {
      SmallerPow2(s, t);
      AlignedToSmaller(q, 2 * s, t);
      Pow2Aligned(2 * s, t);
      AlignedSum(q, t, 2 * s);
    }
  }

  lemma HalfNotAligned(s: nat)
    requires IsPow2(s)
    ensures IsPow2(2 * s) && !Aligned(s, 2 * s)
  {
    if s > 1 { HalfNotAligned(s / 2); }
  }

  // ---- Merging and splitting leave the messages alone ----

  lemma {:induction false} ConsolidateOccupied(cfg: Config, ps: seq<Part>, v: nat)
    requires Shape(cfg, ps) && v < |ps| && ps[v].free
    ensures Occupied(Consolidate(cfg, ps, v)) == Occupied(ps)
    decreases |ps|
  {
    var b := IndexAtPosition(ps, BuddyPosition(ps[v]));
    if b < |ps| && ps[b].free && ps[b].size == ps[v].size {
      BuddyIsNeighbour(cfg, ps, v, b);
      FuseShape(cfg, ps, v, b);
      FuseOccupied(ps, Smaller(v, b), ps[v]);
      ConsolidateOccupied(cfg, Fuse(ps, Smaller(v, b), ps[v]), Smaller(v, b));
    }
  }

  lemma {:induction false} SplitOccupied(ps: seq<Part>, h: nat, want: nat)
    requires h < |ps| && IsPow2(ps[h].size) && IsPow2(want) && want <= ps[h].size && ps[h].free
    ensures Occupied(Split(ps, h, want)) == Occupied(ps)
    decreases ps[h].size
  {
    if ps[h].size != want {
      SmallerPow2(want, ps[h].size);
      CutIndex(ps, h, ps[h].size / 2);
      CutOccupied(ps, h, ps[h].size / 2);
      SplitOccupied(Cut(ps, h, ps[h].size / 2), h, want);
    }
  }

  lemma OccupyCoalesces(cfg: Config, ps: seq<Part>, h: nat, m: Message, now: nat)
    requires h < |ps| && CoalescedBut(ps, h) && Blocks(cfg, ps)
    ensures Coalesced(Occupy(ps, h, m, now)) && Blocks(cfg, Occupy(ps, h, m, now))
  {
    var o := Occupy(ps, h, m, now);
    forall i, j | 0 <= i < |o| && 0 <= j < |o| ensures !FreeBuddies(o[i], o[j]) {
      if i != h && j != h { assert o[i] == ps[i] && o[j] == ps[j]; }
    }
  }
}
