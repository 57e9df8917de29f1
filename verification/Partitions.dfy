/** The list of regions both allocators work on, as a value: what a partition holds, how a
    list of partitions covers the memory, and the steps the allocators have in common
    (broker/src/mem_utils.c, broker/include/constants.h:37-45). */
module Partitions {
  import opened Protocol

  datatype Message = Message(operation: Operation, id: nat, correlationalId: nat, dataSize: nat)

  /** start is an address: the cache's own address plus position. */
  datatype Part = Part(position: nat, start: nat, size: nat, free: bool,
                       created: nat, accessed: nat, message: Option<Message>)

  /** What the configuration file fixes, and the address malloc gave the cache. */
  datatype Config = Config(buddy: bool, base: nat, total: nat, minSize: nat, bestFit: bool, lru: bool, frequency: int)

  /** The time create_partition writes, (uint32_t) -1. */
  const NEVER: nat := 0xFFFF_FFFF

  function NewPart(position: nat, start: nat, size: nat): Part {
    Part(position, start, size, true, NEVER, NEVER, None)
  }

  function Max(a: nat, b: nat): nat { if a > b then a else b }

  // ---- How a list covers the memory ----

  /** The partitions, in list order, are neighbours that exactly cover [0, total). */
  ghost predicate Tiling(ps: seq<Part>, total: nat) {
    && |ps| > 0
    && ps[0].position == 0
    && ps[|ps| - 1].position + ps[|ps| - 1].size == total
    && (forall i, j :: 0 <= i < |ps| && j == i + 1 && j < |ps| ==> ps[i].position + ps[i].size == ps[j].position)
    && (forall i :: 0 <= i < |ps| ==> ps[i].size >= 1)
  }

  ghost predicate Based(ps: seq<Part>, base: nat) {
    forall i :: 0 <= i < |ps| ==> ps[i].start == base + ps[i].position
  }

  /** An occupied partition has a message that fits in it. */
  ghost predicate Filled(ps: seq<Part>) {
    forall i :: 0 <= i < |ps| && !ps[i].free ==> ps[i].message.Some? && ps[i].message.value.dataSize <= ps[i].size
  }

  ghost predicate DistinctIds(ps: seq<Part>) {
    forall i, j :: 0 <= i < j < |ps| && !ps[i].free && !ps[j].free && ps[i].message.Some? && ps[j].message.Some?
      ==> ps[i].message.value.id != ps[j].message.value.id
  }

  ghost predicate Layout(cfg: Config, ps: seq<Part>) {
    Tiling(ps, cfg.total) && Based(ps, cfg.base) && Filled(ps) && DistinctIds(ps)
  }

  lemma {:induction false} Ordered(ps: seq<Part>, total: nat, i: nat, j: nat)
    requires Tiling(ps, total) && i < j < |ps|
    ensures ps[i].position + ps[i].size <= ps[j].position
    decreases j - i
  {
    if i + 1 < j { Ordered(ps, total, i + 1, j); }
  }

  lemma InMemory(ps: seq<Part>, total: nat, i: nat)
    requires Tiling(ps, total) && i < |ps|
    ensures ps[i].position + ps[i].size <= total
  {
    if i < |ps| - 1 { Ordered(ps, total, i, |ps| - 1); }
  }

  /** Positions tell partitions apart, and so do start addresses. */
  lemma SamePlace(ps: seq<Part>, total: nat, i: nat, j: nat)
    requires Tiling(ps, total) && i < |ps| && j < |ps| && ps[i].position == ps[j].position
    ensures i == j
  {
    if i < j { Ordered(ps, total, i, j); }
    if j < i { Ordered(ps, total, j, i); }
  }

  // ---- Looking for a hole and for a victim ----

  predicate CanHold(p: Part, n: nat) { p.free && p.size >= n }

  ghost predicate HasHole(ps: seq<Part>, n: nat) {
    exists i :: 0 <= i < |ps| && CanHold(ps[i], n)
  }

  /** find_partition may return partition i: the first that fits, or one of the smallest. */
  ghost predicate IsHole(cfg: Config, ps: seq<Part>, n: nat, i: nat) {
    && i < |ps| && CanHold(ps[i], n)
    && (if cfg.bestFit then forall j :: 0 <= j < |ps| && CanHold(ps[j], n) ==> ps[i].size <= ps[j].size
        else forall j :: 0 <= j < i ==> !CanHold(ps[j], n))
  }

  /** What the replacement algorithm sorts by. */
  function Age(cfg: Config, p: Part): nat { if cfg.lru then p.accessed else p.created }

  /** choose_victim may pick partition v. */
  ghost predicate IsVictim(cfg: Config, ps: seq<Part>, v: nat) {
    && v < |ps| && !ps[v].free
    && forall j :: 0 <= j < |ps| && !ps[j].free ==> Age(cfg, ps[v]) <= Age(cfg, ps[j])
  }

  ghost predicate HasOccupied(ps: seq<Part>) {
    exists i :: 0 <= i < |ps| && !ps[i].free
  }

  function OccupiedCount(ps: seq<Part>): nat {
    if ps == [] then 0 else (if ps[0].free then 0 else 1) + OccupiedCount(ps[1..])
  }

  lemma {:induction false} OccupiedConcat(a: seq<Part>, b: seq<Part>)
    ensures OccupiedCount(a + b) == OccupiedCount(a) + OccupiedCount(b)
  {
    if a == [] {
      assert a + b == b;
    } else {
      assert (a + b)[1..] == a[1..] + b;
      OccupiedConcat(a[1..], b);
    }
  }

  /** An occupied count of zero means nobody is occupied. */
  lemma {:induction false} OccupiedNone(ps: seq<Part>)
    ensures OccupiedCount(ps) > 0 <==> HasOccupied(ps)
  {
    if ps != [] {
      OccupiedNone(ps[1..]);
      if HasOccupied(ps[1..]) {
        var i :| 0 <= i < |ps[1..]| && !ps[1..][i].free;
        assert !ps[i + 1].free;
      }
      if HasOccupied(ps) && ps[0].free {
        var i :| 0 <= i < |ps| && !ps[i].free;
        assert !ps[1..][i - 1].free;
      }
    }
  }

  /** A list with an occupied partition has a victim, whatever the algorithm. */
  lemma {:induction false} VictimExists(cfg: Config, ps: seq<Part>) returns (v: nat)
    requires HasOccupied(ps)
    ensures IsVictim(cfg, ps, v)
  {
    var i :| 0 <= i < |ps| && !ps[i].free;
    v := LeastAge(cfg, ps, i);
  }

  lemma {:induction false} LeastAge(cfg: Config, ps: seq<Part>, i: nat) returns (v: nat)
    requires i < |ps| && !ps[i].free
    ensures IsVictim(cfg, ps, v)
    decreases Age(cfg, ps[i])
  {
    if IsVictim(cfg, ps, i) {
      v := i;
    } else {
      var j :| 0 <= j < |ps| && !ps[j].free && Age(cfg, ps[j]) < Age(cfg, ps[i]);
      v := LeastAge(cfg, ps, j);
    }
  }

  lemma {:induction false} HoleExists(cfg: Config, ps: seq<Part>, n: nat) returns (h: nat)
    requires HasHole(ps, n)
    ensures IsHole(cfg, ps, n, h)
  {
    var i :| 0 <= i < |ps| && CanHold(ps[i], n);
    if cfg.bestFit { h := SmallestHole(ps, n, i, cfg); } else { h := FirstHole(ps, n, 0, cfg); }
  }

  lemma {:induction false} SmallestHole(ps: seq<Part>, n: nat, i: nat, cfg: Config) returns (h: nat)
    requires i < |ps| && CanHold(ps[i], n) && cfg.bestFit
    ensures IsHole(cfg, ps, n, h)
    decreases ps[i].size
  {
    if IsHole(cfg, ps, n, i) {
      h := i;
    } else {
      var j :| 0 <= j < |ps| && CanHold(ps[j], n) && ps[j].size < ps[i].size;
      h := SmallestHole(ps, n, j, cfg);
    }
  }

  lemma {:induction false} FirstHole(ps: seq<Part>, n: nat, k: nat, cfg: Config) returns (h: nat)
    requires k <= |ps| && HasHole(ps, n) && !cfg.bestFit
    requires forall j :: 0 <= j < k ==> !CanHold(ps[j], n)
    ensures IsHole(cfg, ps, n, h)
    decreases |ps| - k
  {
    var i :| 0 <= i < |ps| && CanHold(ps[i], n);
    if CanHold(ps[k], n) { h := k; } else { h := FirstHole(ps, n, k + 1, cfg); }
  }

  // ---- Locating a partition in the list ----

  /** _list_find_index: the first partition with that start, or the length of the list. */
  function IndexAtStart(ps: seq<Part>, start: nat): (i: nat)
    ensures i <= |ps| && (i < |ps| ==> ps[i].start == start)
    ensures forall j :: 0 <= j < i ==> ps[j].start != start
  {
    if ps == [] || ps[0].start == start then 0 else 1 + IndexAtStart(ps[1..], start)
  }

  /** list_find with _partition_at_position. */
  function IndexAtPosition(ps: seq<Part>, position: nat): (i: nat)
    ensures i <= |ps| && (i < |ps| ==> ps[i].position == position)
    ensures forall j :: 0 <= j < i ==> ps[j].position != position
  {
    if ps == [] || ps[0].position == position then 0 else 1 + IndexAtPosition(ps[1..], position)
  }

  /** list_remove */
  function Drop<T>(s: seq<T>, i: nat): (r: seq<T>)
    requires i < |s|
    ensures |r| == |s| - 1
  {
    s[..i] + s[i + 1..]
  }

  /** list_add_in_index */
  function InsertAt<T>(s: seq<T>, i: nat, x: T): (r: seq<T>)
    requires i <= |s|
    ensures |r| == |s| + 1
  {
    s[..i] + [x] + s[i..]
  }

  // ---- Steps on the list ----

  /** The victim is marked free and its message is gone. */
  function Evict(ps: seq<Part>, v: nat): seq<Part>
    requires v < |ps|
  {
    ps[v := ps[v].(free := true, message := None)]
  }

  /** Partition i keeps its first n bytes and a new free partition gets the rest. */
  function Cut(ps: seq<Part>, i: nat, n: nat): seq<Part>
    requires i < |ps| && n <= ps[i].size
  {
    var p := ps[i];
    ps[..i] + [p.(size := n), NewPart(p.position + n, p.start + n, p.size - n)] + ps[i + 1..]
  }

  /** Neighbours i and i + 1 become one partition, which keeps the attributes of q. */
  function Fuse(ps: seq<Part>, i: nat, q: Part): seq<Part>
    requires i + 1 < |ps|
  {
    ps[..i] + [q.(position := ps[i].position, start := ps[i].start, size := ps[i].size + ps[i + 1].size)] + ps[i + 2..]
  }

  function Occupy(ps: seq<Part>, i: nat, m: Message, now: nat): seq<Part>
    requires i < |ps|
  {
    ps[i := ps[i].(free := false, created := now, accessed := now, message := Some(m))]
  }

  lemma EvictLayout(cfg: Config, ps: seq<Part>, v: nat)
    requires Layout(cfg, ps) && v < |ps|
    ensures Layout(cfg, Evict(ps, v))
  {
  }

  lemma CutIndex(ps: seq<Part>, i: nat, n: nat)
    requires i < |ps| && n <= ps[i].size
    ensures var c := Cut(ps, i, n);
      && |c| == |ps| + 1
      && c[i] == ps[i].(size := n)
      && c[i + 1] == NewPart(ps[i].position + n, ps[i].start + n, ps[i].size - n)
      && (forall k :: 0 <= k < i ==> c[k] == ps[k])
      && (forall k :: i + 1 < k <= |ps| ==> c[k] == ps[k - 1])
  {
  }

  lemma CutTiling(ps: seq<Part>, total: nat, i: nat, n: nat)
    requires Tiling(ps, total) && i < |ps| && 0 < n < ps[i].size
    ensures Tiling(Cut(ps, i, n), total)
  {
    CutIndex(ps, i, n);
    var c := Cut(ps, i, n);
    assert c[|c| - 1].position + c[|c| - 1].size == total;
    forall k, l | 0 <= k < |c| && l == k + 1 && l < |c|
      ensures c[k].position + c[k].size == c[l].position
    {
      if k < i - 1 {
        assert ps[k].position + ps[k].size == ps[l].position;
      } else if k > i + 1 {
        assert ps[k - 1].position + ps[k - 1].size == ps[l - 1].position;
      }
    }
  }

  lemma CutOccupants(ps: seq<Part>, i: nat, n: nat)
    requires Filled(ps) && DistinctIds(ps) && i < |ps| && n <= ps[i].size
    requires ps[i].free || (ps[i].message.Some? && ps[i].message.value.dataSize <= n)
    ensures Filled(Cut(ps, i, n)) && DistinctIds(Cut(ps, i, n))
  {
    CutIndex(ps, i, n);
    var c := Cut(ps, i, n);
    forall k, l | 0 <= k < l < |c| && !c[k].free && !c[l].free
      ensures c[k].message.value.id != c[l].message.value.id
    {
      assert k != i + 1 && l != i + 1;
      var k', l' := if k <= i then k else k - 1, if l <= i then l else l - 1;
      assert c[k].message == ps[k'].message && c[l].message == ps[l'].message;
      assert !ps[k'].free && !ps[l'].free;
    }
  }

  lemma CutLayout(cfg: Config, ps: seq<Part>, i: nat, n: nat)
    requires Layout(cfg, ps) && i < |ps| && 0 < n < ps[i].size
    requires ps[i].free || (ps[i].message.Some? && ps[i].message.value.dataSize <= n)
    ensures Layout(cfg, Cut(ps, i, n))
  {
    CutTiling(ps, cfg.total, i, n);
    CutOccupants(ps, i, n);
    assert Based(Cut(ps, i, n), cfg.base) by { CutIndex(ps, i, n); }
  }

  lemma FuseIndex(ps: seq<Part>, i: nat, q: Part)
    requires i + 1 < |ps|
    ensures var f := Fuse(ps, i, q);
      && |f| == |ps| - 1
      && f[i] == q.(position := ps[i].position, start := ps[i].start, size := ps[i].size + ps[i + 1].size)
      && (forall k :: 0 <= k < i ==> f[k] == ps[k])
      && (forall k :: i < k < |ps| - 1 ==> f[k] == ps[k + 1])
  {
  }

  lemma FuseTiling(ps: seq<Part>, total: nat, i: nat, q: Part)
    requires Tiling(ps, total) && i + 1 < |ps|
    ensures Tiling(Fuse(ps, i, q), total)
  {
    FuseIndex(ps, i, q);
    var f := Fuse(ps, i, q);
    assert ps[i].position + ps[i].size == ps[i + 1].position;
    assert f[|f| - 1].position + f[|f| - 1].size == total;
    forall k, l | 0 <= k < |f| && l == k + 1 && l < |f|
      ensures f[k].position + f[k].size == f[l].position
    {
      if k < i {
        assert ps[k].position + ps[k].size == ps[l].position;
      } else {
        assert ps[k + 1].position + ps[k + 1].size == ps[l + 1].position;
      }
    }
  }

  lemma FuseLayout(cfg: Config, ps: seq<Part>, i: nat, q: Part)
    requires Layout(cfg, ps) && i + 1 < |ps| && ps[i].free && ps[i + 1].free && q.free
    ensures Layout(cfg, Fuse(ps, i, q))
  {
    FuseTiling(ps, cfg.total, i, q);
    FuseIndex(ps, i, q);
  }

  lemma OccupyLayout(cfg: Config, ps: seq<Part>, i: nat, m: Message, now: nat)
    requires Layout(cfg, ps) && i < |ps| && m.dataSize <= ps[i].size
    requires forall j :: 0 <= j < |ps| && j != i && !ps[j].free ==> ps[j].message.value.id != m.id
    ensures Layout(cfg, Occupy(ps, i, m, now))
  {
  }

  lemma CountAround(ps: seq<Part>, i: nat, j: nat)
    requires i <= j <= |ps|
    ensures OccupiedCount(ps) == OccupiedCount(ps[..i]) + OccupiedCount(ps[i..j]) + OccupiedCount(ps[j..])
  {
    assert ps == ps[..i] + ps[i..] && ps[i..] == ps[i..j] + ps[j..];
    OccupiedConcat(ps[..i], ps[i..]);
    OccupiedConcat(ps[i..j], ps[j..]);
  }

  lemma CountOne(p: Part)
    ensures OccupiedCount([p]) == if p.free then 0 else 1
  {
  }

  lemma CountTwo(p: Part, q: Part)
    ensures OccupiedCount([p, q]) == OccupiedCount([p]) + OccupiedCount([q])
  {
    assert [p, q] == [p] + [q];
    OccupiedConcat([p], [q]);
  }

  lemma EvictCount(ps: seq<Part>, v: nat)
    requires v < |ps| && !ps[v].free
    ensures OccupiedCount(Evict(ps, v)) == OccupiedCount(ps) - 1
  {
    var e := Evict(ps, v);
    CountAround(ps, v, v + 1);
    CountAround(e, v, v + 1);
    CountOne(ps[v]);
    CountOne(e[v]);
    assert e[..v] == ps[..v] && e[v + 1..] == ps[v + 1..];
    assert ps[v..v + 1] == [ps[v]] && e[v..v + 1] == [e[v]];
  }

  lemma FuseCount(ps: seq<Part>, i: nat, q: Part)
    requires i + 1 < |ps| && ps[i].free && ps[i + 1].free && q.free
    ensures OccupiedCount(Fuse(ps, i, q)) == OccupiedCount(ps)
  {
    var f := Fuse(ps, i, q);
    CountAround(ps, i, i + 2);
    CountAround(f, i, i + 1);
    CountOne(ps[i]);
    CountOne(ps[i + 1]);
    CountTwo(ps[i], ps[i + 1]);
    CountOne(f[i]);
    assert f[..i] == ps[..i] && f[i + 1..] == ps[i + 2..];
    assert ps[i..i + 2] == [ps[i], ps[i + 1]] && f[i..i + 1] == [f[i]];
  }

  lemma CutCount(ps: seq<Part>, i: nat, n: nat)
    requires i < |ps| && n <= ps[i].size
    ensures OccupiedCount(Cut(ps, i, n)) == OccupiedCount(ps)
  {
    var c := Cut(ps, i, n);
    CountAround(ps, i, i + 1);
    CountAround(c, i, i + 2);
    CountOne(ps[i]);
    CountOne(c[i]);
    CountOne(c[i + 1]);
    CountTwo(c[i], c[i + 1]);
    assert c[..i] == ps[..i] && c[i + 2..] == ps[i + 1..];
    assert ps[i..i + 1] == [ps[i]] && c[i..i + 2] == [c[i], c[i + 1]];
  }

  // ---- What the steps do to the occupied partitions ----

  function Occupied(ps: seq<Part>): set<Part> {
    set p | p in ps && !p.free
  }

  lemma EvictOccupied(ps: seq<Part>, total: nat, v: nat)
    requires Tiling(ps, total) && v < |ps| && !ps[v].free
    ensures Occupied(Evict(ps, v)) == Occupied(ps) - {ps[v]}
  {
    var e := Evict(ps, v);
    forall p | p in Occupied(e) ensures p in Occupied(ps) - {ps[v]} {
      var i :| 0 <= i < |e| && e[i] == p;
      assert i != v && ps[i] == p;
      if ps[i] == ps[v] { SamePlace(ps, total, i, v); }
    }
    forall p | p in Occupied(ps) - {ps[v]} ensures p in Occupied(e) {
      var i :| 0 <= i < |ps| && ps[i] == p;
      assert e[i] == p;
    }
  }

  lemma FuseOccupied(ps: seq<Part>, i: nat, q: Part)
    requires i + 1 < |ps| && ps[i].free && ps[i + 1].free && q.free
    ensures Occupied(Fuse(ps, i, q)) == Occupied(ps)
  {
    assert ps == ps[..i] + [ps[i], ps[i + 1]] + ps[i + 2..];
  }

  lemma CutOccupied(ps: seq<Part>, i: nat, n: nat)
    requires i < |ps| && n <= ps[i].size && ps[i].free
    ensures Occupied(Cut(ps, i, n)) == Occupied(ps)
  {
    assert ps == ps[..i] + [ps[i]] + ps[i + 1..];
  }

  lemma OccupyOccupied(ps: seq<Part>, i: nat, m: Message, now: nat)
    requires i < |ps| && ps[i].free
    ensures Occupied(Occupy(ps, i, m, now)) == Occupied(ps) + {Occupy(ps, i, m, now)[i]}
  {
    var o := Occupy(ps, i, m, now);
    assert ps == ps[..i] + [ps[i]] + ps[i + 1..];
    assert o == ps[..i] + [o[i]] + ps[i + 1..];
  }
}
