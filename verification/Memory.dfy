/** The broker's memory as the program keeps it: partition objects updated through pointers
    while they are in one shared list, and one byte array (broker/src/mem_utils.c, buddy.c,
    dynamic.c, mem.c). Every method is tied to the functions on values of the other files. */
module Memory {
  import opened Arithmetic
  import opened Partitions
  import opened Protocol
  import Buddy
  import Dynamic
  import Cache
  import Compaction
  import Runs

  class Partition {
    var position: nat
    var start: nat
    var size: nat
    var free: bool
    var creationTime: nat
    var accessTime: nat
    var message: Option<Message>

    /** create_partition */
    constructor (position: nat, start: nat, size: nat)
      ensures Value() == NewPart(position, start, size)
    {
      this.position, this.start, this.size := position, start, size;
      free, creationTime, accessTime, message := true, NEVER, NEVER, None;
    }

    function Value(): Part
      reads this
    {
      Part(position, start, size, free, creationTime, accessTime, message)
    }
  }

  function Values(objects: seq<Partition>): (r: seq<Part>)
    reads objects
    ensures |r| == |objects|
    ensures forall i :: 0 <= i < |objects| ==> r[i] == objects[i].Value()
  {
    seq(|objects|, i requires 0 <= i < |objects| reads objects => objects[i].Value())
  }

  ghost predicate Distinct<T>(s: seq<T>) {
    forall i, j :: 0 <= i < j < |s| ==> s[i] != s[j]
  }

  ghost predicate Among(s: seq<Partition>, t: seq<Partition>) {
    forall p :: p in s ==> p in t
  }

  lemma AmongTwice(r: seq<Partition>, s: seq<Partition>, t: seq<Partition>)
    requires Among(r, s) && Among(s, t)
    ensures Among(r, t)
  {
  }

  lemma AmongAll(s: seq<Partition>)
    ensures Among(s, s)
  {
  }

  class BrokerMemory {
    const cfg: Config
    const cache: array<byte>
    var partitions: seq<Partition>
    var time: nat

    /** Everything saved so far; what is cached must agree with it. */
    ghost var past: Runs.Past

    ghost function View(): seq<Part>
      reads this, partitions
    {
      Values(partitions)
    }

    ghost function Store(): Cache.Store
      reads this, partitions, cache
    {
      Cache.Store(View(), cache[..], time)
    }

    ghost predicate Valid()
      reads this, partitions, cache
    {
      && Distinct(partitions) && cache.Length == cfg.total
      && Cache.ConfigOk(cfg) && Cache.Inv(cfg, View())
    }

    ghost function World(): Runs.World
      reads this, partitions, cache
    {
      Runs.World(Store(), past)
    }

    /** The invariant of the whole memory: the allocator's, and every cached message's bytes
        are the ones it was saved with. */
    ghost predicate Sound()
      reads this, partitions, cache
    {
      Valid() && Runs.WorldOk(cfg, World())
    }

    /** _init_memory */
    constructor (cfg: Config)
      requires Cache.ConfigOk(cfg)
      ensures this.cfg == cfg && Sound() && Runs.IsInit(cfg, World())
      ensures fresh(cache) && forall p :: p in partitions ==> fresh(p)
    {
      var whole := new Partition(0, cfg.base, cfg.total);
      this.cfg := cfg;
      cache := new byte[cfg.total];
      partitions := [whole];
      time := 0;
      past := Runs.Past(map[], []);
      new;
      Runs.InitOk(cfg, World());
    }

    method GetTime() returns (t: nat)
      modifies this`time
      ensures t == time == old(time) + 1
    {
      time := time + 1;
      t := time;
    }

    method ListFindIndex(start: nat) returns (index: nat)
      ensures index == IndexAtStart(View(), start) && View() == old(View())
    {
      index := 0;
      while index < |partitions| && partitions[index].start != start
        invariant index <= |partitions|
        invariant forall j :: 0 <= j < index ==> partitions[j].start != start
      {
        index := index + 1;
      }
      IndexUnique(View(), start, index);
    }

    /** remove_partition_at: i is the first entry with that start. */
    method RemovePartitionAt(start: nat, ghost i: nat)
      requires Distinct(partitions) && IndexAtStart(View(), start) == i < |partitions|
      modifies this`partitions
      ensures partitions == Drop(old(partitions), i) && View() == Drop(old(View()), i)
      ensures Distinct(partitions) && Among(partitions, old(partitions))
    {
      var index := ListFindIndex(start);
      DistinctDrop(partitions, index);
      ValuesDrop(partitions, index);
      hide Values, Drop, Distinct, IndexAtStart;
      partitions := partitions[..index] + partitions[index + 1..];
    }

    /** add_partition_next_to: i is the first entry with that start. */
    method AddPartitionNextTo(start: nat, partition: Partition, ghost i: nat)
      requires Distinct(partitions) && partition !in partitions && IndexAtStart(View(), start) == i < |partitions|
      modifies this`partitions
      ensures partitions == InsertAt(old(partitions), i + 1, partition)
      ensures View() == InsertAt(old(View()), i + 1, partition.Value())
      ensures Distinct(partitions) && forall p :: p in partitions ==> p in old(partitions) || p == partition
      ensures forall k :: 0 <= k <= i ==> partitions[k] == old(partitions)[k]
    {
      hide Values, InsertAt, Distinct, IndexAtStart;
      var index := ListFindIndex(start);
      DistinctInsert(partitions, index + 1, partition);
      InsertPoints(partitions, index + 1, partition);
      ValuesInsert(partitions, index + 1, partition);
      partitions := partitions[..index + 1] + [partition] + partitions[index + 1..];
    }

    /** find_partition: filter what fits, sort it by size under best fit, take the first. */
    method FindPartition(size: nat) returns (partition: Partition?, ghost h: nat)
      ensures if partition == null then !HasHole(View(), size)
              else IsHole(cfg, View(), size, h) && partitions[h] == partition
      ensures partition != null ==> partition in partitions && partition.free && size <= partition.size
      ensures partition != null && !cfg.bestFit ==>
        forall k :: 0 <= k < h ==> !partitions[k].free || partitions[k].size < size
      ensures partition != null && cfg.bestFit ==>
        forall p :: p in partitions && p.free && size <= p.size ==> partition.size <= p.size
      ensures partition == null ==> forall p :: p in partitions ==> !p.free || p.size < size
      ensures View() == old(View())
    {
      partition, h := null, 0;
      var i := 0;
      while i < |partitions|
        invariant i <= |partitions|
        invariant partition == null ==> forall j :: 0 <= j < i ==> !CanHold(View()[j], size)
        invariant partition != null ==> h < i && partitions[h] == partition && CanHold(View()[h], size)
        invariant partition != null && cfg.bestFit ==> forall j :: 0 <= j < i && CanHold(View()[j], size) ==>
          View()[h].size <= View()[j].size
        invariant partition != null && !cfg.bestFit ==> forall j :: 0 <= j < h ==> !CanHold(View()[j], size)
      {
        var p := partitions[i];
        if p.free && p.size >= size && (partition == null || (cfg.bestFit && p.size < partition.size)) {
          partition, h := p, i;
        }
        i := i + 1;
      }
      forall p | partition == null && p in partitions ensures !p.free || p.size < size {
        var j :| 0 <= j < |partitions| && partitions[j] == p;
        assert !CanHold(View()[j], size);
      }
      forall p | partition != null && cfg.bestFit && p in partitions && p.free && size <= p.size
        ensures partition.size <= p.size
      {
        var j :| 0 <= j < |partitions| && partitions[j] == p;
        assert CanHold(View()[j], size) && View()[h] == partition.Value();
      }
      forall k | partition != null && !cfg.bestFit &&
        0 <= k < h ensures !partitions[k].free || partitions[k].size < size {
        assert !CanHold(View()[k], size);
      }
    }

    /** choose_victim: sort the occupied partitions by age, take the first and free it. */
    method ChooseVictim() returns (victim: Partition, ghost v: nat)
      requires Distinct(partitions) && HasOccupied(View())
      modifies partitions
      ensures IsVictim(cfg, old(View()), v) && partitions[v] == victim
      ensures old(!victim.free) && forall p :: p in partitions && old(!p.free) ==>
        if cfg.lru then victim.accessTime <= p.accessTime else victim.creationTime <= p.creationTime
      ensures View() == Evict(old(View()), v)
    {
      var best: Partition? := null;
      v := 0;
      var i := 0;
      while i < |partitions|
        invariant i <= |partitions|
        invariant best == null ==> forall j :: 0 <= j < i ==> View()[j].free
        invariant best != null ==> v < i && partitions[v] == best && !best.free
        invariant best != null ==> forall j :: 0 <= j < i && !View()[j].free ==>
          Age(cfg, View()[v]) <= Age(cfg, View()[j])
      {
        var p := partitions[i];
        if !p.free &&
          (best == null || (if cfg.lru then p.accessTime < best.accessTime else p.creationTime < best.creationTime)) {
          best, v := p, i;
        }
        i := i + 1;
      }
      victim := best;
      victim.free := true;
      victim.message := None;
      assert View() == Evict(old(View()), v);
    }

    /** memcpy into the cache, at an address. */
    method CopyToCache(start: nat, data: seq<byte>)
      requires cfg.base <= start && start - cfg.base + |data| <= cache.Length
      modifies cache
      ensures cache[..] == Dynamic.Overwrite(old(cache[..]), start - cfg.base, data)
    {
      var at := start - cfg.base;
      var i := 0;
      ghost var before := cache[..];
      OverwriteNone(before, at);
      hide Dynamic.Overwrite;
      assert data[..0] == [];
      while i < |data|
        invariant 0 <= i <= |data|
        invariant cache[..] == Dynamic.Overwrite(before, at, data[..i])
      {
        OverwriteOneMore(before, at, data, i);
        cache[at + i] := data[i];
        i := i + 1;
      }
      assert data[..|data|] == data;
    }

    // ---- Buddy system ----

    /** list_find with _partition_at_position, and _buddy_of. */
    method BuddyOf(partition: Partition) returns (buddy: Partition?, ghost b: nat)
      ensures b == IndexAtPosition(View(), Buddy.BuddyPosition(partition.Value()))
      ensures if b == |partitions| then buddy == null else buddy == partitions[b]
      ensures buddy != null ==> buddy in partitions && buddy.position == Xor(partition.position, partition.size)
      ensures buddy == null ==> forall p :: p in partitions ==> p.position != Xor(partition.position, partition.size)
      ensures View() == old(View())
    {
      var position := Xor(partition.position, partition.size);
      b := 0;
      var i := 0;
      while i < |partitions| && partitions[i].position != position
        invariant i <= |partitions|
        invariant forall j :: 0 <= j < i ==> partitions[j].position != position
      {
        i := i + 1;
      }
      PositionUnique(View(), position, i);
      b := i;
      buddy := if i < |partitions| then partitions[i] else null;
    }

    /** One turn of _consolidate_buddy: the partition takes over its buddy, whose entry is
        removed by its start, which by then may also be the survivor's. */
    method Absorb(partition: Partition, buddy: Partition, ghost v: nat, ghost b: nat)
      requires Distinct(partitions) && v < |partitions| && partitions[v] == partition
      requires b < |partitions| && partitions[b] == buddy && (b == v + 1 || v == b + 1)
      requires Layout(cfg, View())
      modifies this`partitions, partition
      ensures Distinct(partitions) && Among(partitions, old(partitions))
      ensures |partitions| == |old(partitions)| - 1 && partition.free == old(partition.free)
      ensures partitions[Buddy.Smaller(v, b)] == partition
      ensures View() == Fuse(old(View()), Buddy.Smaller(v, b), old(View())[v])
    {
      ghost var ps := View();
      partition.position := Buddy.Smaller(partition.position, buddy.position);
      partition.start := Buddy.Smaller(partition.start, buddy.start);
      partition.size := partition.size + buddy.size;
      assert View() == Buddy.Grown(ps, v, b);
      Buddy.BuddyFoundByStart(cfg, ps, v, b);
      Buddy.NeighbourStarts(cfg, ps, Buddy.Smaller(v, b));
      Buddy.AbsorbIsFuse(ps, v, b);
      hide Layout;
      RemovePartitionAt(buddy.start, b);
    }

    /** _consolidate_buddy */
    method ConsolidateBuddy(partition: Partition, ghost v: nat)
      requires Distinct(partitions) && v < |partitions| && partitions[v] == partition
      requires Buddy.Shape(cfg, View()) && partition.free
      modifies this`partitions, partitions
      ensures Distinct(partitions) && Among(partitions, old(partitions))
      ensures View() == Buddy.Consolidate(cfg, old(View()), v)
    {
      assert View()[v].free && partition in partitions;
      hide Distinct, Values, IndexAtPosition, Buddy.Shape, Buddy.Consolidate, Buddy.BuddyPosition;
      AmongAll(partitions);
      ghost var at: nat := v;
      var buddy, b := BuddyOf(partition);
      while buddy != null && buddy.free && buddy.size == partition.size
        invariant Distinct(partitions) && Among(partitions, old(partitions))
        invariant at < |partitions| && partitions[at] == partition && View()[at].free
        invariant Buddy.Shape(cfg, View())
        invariant Buddy.Consolidate(cfg, View(), at) == Buddy.Consolidate(cfg, old(View()), v)
        invariant b == IndexAtPosition(View(), Buddy.BuddyPosition(partition.Value()))
        invariant if b == |partitions| then buddy == null else buddy == partitions[b]
        decreases |partitions|
      {
        ghost var before := partitions;
        at := AbsorbBuddy(partition, buddy, at, b);
        AmongTwice(partitions, before, old(partitions));
        buddy, b := BuddyOf(partition);
      }
      NothingToAbsorb(partition, buddy, at, b);
    }

    lemma NothingToAbsorb(partition: Partition, buddy: Partition?, v: nat, b: nat)
      requires v < |partitions| && partitions[v] == partition && View()[v].free && Buddy.Shape(cfg, View())
      requires b == IndexAtPosition(View(), Buddy.BuddyPosition(partition.Value()))
      requires if b == |partitions| then buddy == null else buddy == partitions[b]
      requires !(buddy != null && buddy.free && buddy.size == partition.size)
      ensures Buddy.Consolidate(cfg, View(), v) == View()
    {
      hide Buddy.Shape, Buddy.BuddyPosition;
      assert View()[v] == partition.Value();
      if b < |partitions| { assert View()[b] == partitions[b].Value(); }
    }

    /** One turn of that loop. */
    method AbsorbBuddy(partition: Partition, buddy: Partition, ghost v: nat, ghost b: nat) returns (ghost at: nat)
      requires Distinct(partitions) && v < |partitions| && partitions[v] == partition && View()[v].free
      requires b < |partitions| && partitions[b] == buddy && buddy.free && buddy.size == partition.size
      requires Buddy.Shape(cfg, View()) && b == IndexAtPosition(View(), Buddy.BuddyPosition(partition.Value()))
      modifies this`partitions, partition
      ensures Distinct(partitions) && Among(partitions, old(partitions))
      ensures at < |partitions| < |old(partitions)| && partitions[at] == partition && View()[at].free
      ensures Buddy.Shape(cfg, View()) && Buddy.Consolidate(cfg, View(), at) == Buddy.Consolidate(cfg, old(View()), v)
    {
      hide Layout, Distinct, Values, Fuse, Drop, IndexAtPosition, Buddy.Blocks;
      ghost var ps := View();
      Buddy.BuddyIsNeighbour(cfg, ps, v, b);
      Buddy.FuseShape(cfg, ps, v, b);
      Absorb(partition, buddy, v, b);
      at := Buddy.Smaller(v, b);
      hide Buddy.Shape;
      assert View()[at] == partition.Value();
    }

    method Halve(partition: Partition, ghost h: nat)
      requires Distinct(partitions) && h < |partitions| && partitions[h] == partition
      requires Layout(cfg, View()) && partition.size % 2 == 0
      modifies this`partitions, partition
      ensures Distinct(partitions) && forall p :: p in partitions ==> p in old(partitions) || fresh(p)
      ensures h < |partitions| && partitions[h] == partition
      ensures View() == Cut(old(View()), h, old(partition.size) / 2)
    {
      ghost var ps := View();
      InsertIsCut(ps, h, ps[h].size / 2);
      hide Values, Distinct, Layout, Cut, InsertAt;
      SplitOff(partition, partition.size / 2, partition.size / 2, h);
    }

    /** The partition keeps size bytes, and a new one of rest bytes goes after it. */
    method SplitOff(partition: Partition, size: nat, rest: nat, ghost h: nat)
      requires Distinct(partitions) && h < |partitions| && partitions[h] == partition && Layout(cfg, View())
      modifies this`partitions, partition
      ensures Distinct(partitions) && forall p :: p in partitions ==> p in old(partitions) || fresh(p)
      ensures h < |partitions| && partitions[h] == partition
      ensures View() == InsertAt(old(View())[h := old(View())[h].(size := size)], h + 1,
        NewPart(old(partition.position) + size, old(partition.start) + size, rest))
    {
      ghost var ps := View();
      assert ps[h] == partition.Value();
      ResizePartition(partition, size, h);
      StartIsIndex(cfg, ps, View(), h);
      hide *;
      InsertNew(partition.start, partition.position + size, partition.start + size, rest, h);
    }

    /** A new free partition goes after the one with that start. */
    method InsertNew(start: nat, position: nat, newStart: nat, size: nat, ghost i: nat)
      requires Distinct(partitions) && IndexAtStart(View(), start) == i < |partitions|
      modifies this`partitions
      ensures Distinct(partitions) && forall p :: p in partitions ==> p in old(partitions) || fresh(p)
      ensures View() == InsertAt(old(View()), i + 1, NewPart(position, newStart, size))
      ensures i < |partitions| && forall k :: 0 <= k <= i ==> partitions[k] == old(partitions)[k]
    {
      hide Values, Distinct, InsertAt, IndexAtStart;
      var right := new Partition(position, newStart, size);
      AddPartitionNextTo(start, right, i);
    }

    method ResizePartition(partition: Partition, size: nat, ghost h: nat)
      requires Distinct(partitions) && h < |partitions| && partitions[h] == partition
      modifies partition
      ensures View() == old(View())[h := old(View())[h].(size := size)]
    {
      partition.size := size;
      assert View() == old(View())[h := old(View())[h].(size := size)];
    }

    /** _break_buddys: halve the partition until it has the wanted size. */
    method BreakBuddys(partition: Partition, size: nat, ghost h: nat)
      requires Distinct(partitions) && h < |partitions| && partitions[h] == partition && partition.free
      requires Buddy.Shape(cfg, View()) && IsPow2(size) && cfg.minSize <= size <= partition.size
      modifies this`partitions, partition
      ensures Distinct(partitions) && forall p :: p in partitions ==> p in old(partitions) || fresh(p)
      ensures h < |partitions| && partitions[h] == partition
      ensures View() == Buddy.Split(old(View()), h, size)
    {
      hide Layout;
      while partition.size != size
        invariant Distinct(partitions) && forall p :: p in partitions ==> p in old(partitions) || fresh(p)
        invariant h < |partitions| && partitions[h] == partition && partition.free && size <= partition.size
        invariant Buddy.Shape(cfg, View())
        invariant Buddy.Split(View(), h, size) == Buddy.Split(old(View()), h, size)
        decreases partition.size
      {
        ghost var ps := View();
        SmallerPow2(size, partition.size);
        Buddy.CutShape(cfg, ps, h);
        CutIndex(ps, h, ps[h].size / 2);
        Halve(partition, h);
      }
    }

    /** A victim is freed and merged upwards. */
    method KillBuddy() returns (ghost v: nat)
      requires Valid() && cfg.buddy && HasOccupied(View())
      modifies this`partitions, partitions
      ensures Distinct(partitions) && Among(partitions, old(partitions))
      ensures IsVictim(cfg, old(View()), v) && View() == Buddy.EvictBuddy(cfg, old(View()), v)
    {
      hide Values, Buddy.Consolidate;
      ghost var ps := View();
      var victim: Partition;
      victim, v := ChooseVictim();
      EvictBuddyIs(cfg, ps, v);
      assert View()[v] == victim.Value();
      hide *;
      ConsolidateBuddy(victim, v);
    }

    /** The loop of save_to_cache_buddy_system. */
    method MakeRoomBuddy(size: nat, ghost n: nat)
      returns (partition: Partition, ghost steps: seq<Cache.Step>, ghost h: nat)
      requires Valid() && cfg.buddy && size == Cache.Wanted(cfg, n) <= cfg.total
      modifies this`partitions, partitions
      ensures Valid() && Among(partitions, old(partitions))
      ensures Cache.RoomOk(cfg, Cache.StartOf(old(Store()))) && Cache.Legal(cfg, Cache.StartOf(old(Store())), n, steps)
      ensures Cache.After(cfg, Cache.StartOf(old(Store())), n, steps) == Cache.Room(View(), cache[..], 0)
      ensures IsHole(cfg, View(), size, h) && h < |partitions| && partitions[h] == partition
      ensures partition in old(partitions)
    {
      hide Values, Distinct, Cache.Inv, Cache.ConfigOk, Cache.Wanted, Cache.Legal, Cache.After, Buddy.EvictBuddy,
        IsVictim, IsHole, HasHole, OccupiedCount;
      ghost var r := Cache.StartOf(Store());
      Cache.NoSteps(cfg, r, n);
      steps := [];
      var found: Partition?;
      found, h := FindPartition(size);
      while found == null
        invariant Valid() && Among(partitions, old(partitions))
        invariant Cache.Legal(cfg, r, n, steps) && Cache.After(cfg, r, n, steps) == Cache.Room(View(), cache[..], 0)
        invariant found == null ==> !HasHole(View(), size)
        invariant found != null ==> IsHole(cfg, View(), size, h) && h < |partitions| && partitions[h] == found
        decreases OccupiedCount(View())
      {
        ghost var before := Cache.Room(View(), cache[..], 0);
        Cache.VictimWhenStuck(cfg, View(), size);
        assert forall i :: 0 <= i < |partitions| ==> partitions[i] in old(partitions);
        ghost var v := KillBuddy();
        ghost var st := Cache.Kill(v);
        Cache.StepDecreases(cfg, before, n, st);
        Cache.Snoc(cfg, r, n, steps, st);
        steps := steps + [st];
        found, h := FindPartition(size);
      }
      partition := found;
    }

    /** The end of both save functions: the partition takes the message and the time, and the
        payload is copied to its start. */
    method Fill(partition: Partition, message: Message, data: seq<byte>, ghost h: nat)
      requires Distinct(partitions) && h < |partitions| && partitions[h] == partition
      requires partition.start == cfg.base + partition.position && partition.position + |data| <= cache.Length
      modifies partition, cache, this`time
      ensures View() == Occupy(old(View()), h, message, old(time) + 1) && time == old(time) + 1
      ensures cache[..] == Dynamic.Overwrite(old(cache[..]), old(partition.position), data)
    {
      hide Values;
      partition.message := Some(message);
      var now := GetTime();
      partition.creationTime := now;
      partition.accessTime := now;
      partition.free := false;
      CopyToCache(partition.start, data);
      assert View() == Occupy(old(View()), h, message, now);
    }

    /** The second half of save_to_cache_buddy_system: break the hole and fill it. */
    method StoreInBuddy(partition: Partition, size: nat, data: seq<byte>, message: Message, ghost h: nat)
      requires Distinct(partitions) && h < |partitions| && partitions[h] == partition && partition.free
      requires Buddy.Shape(cfg, View()) && IsPow2(size) && cfg.minSize <= size <= partition.size && IsPow2(cfg.minSize)
      requires cfg.buddy && size == Cache.Reserved(cfg, message.dataSize)
      requires partition.start == cfg.base + partition.position && partition.position + |data| <= cache.Length
      modifies this`partitions, this`time, partition, cache
      ensures Distinct(partitions) && forall p :: p in partitions ==> p in old(partitions) || fresh(p)
      ensures h < |partitions| && partitions[h] == partition
      ensures View() == Occupy(Cache.Place(cfg, old(View()), h, message.dataSize), h, message, old(time) + 1)
      ensures time == old(time) + 1 && cache[..] == Dynamic.Overwrite(old(cache[..]), old(partition.position), data)
    {
      hide Values, Buddy.Split, Layout;
      ghost var ps := View();
      Buddy.SplitDone(ps, h, size);
      if partition.size != size {
        BreakBuddys(partition, size, h);
      }
      assert View() == Cache.Place(cfg, ps, h, message.dataSize);
      Fill(partition, message, data, h);
    }

    /** save_to_cache_buddy_system */
    method SaveToCacheBuddySystem(data: seq<byte>, message: Message)
      returns (partition: Partition, ghost steps: seq<Cache.Step>, ghost h: nat)
      requires Valid() && cfg.buddy && 1 <= message.dataSize == |data| <= cfg.total
      requires forall p :: p in Occupied(View()) ==> p.message.Some? && p.message.value.id != message.id
      modifies this`partitions, this`time, partitions, cache
      ensures Cache.LegalSave(cfg, old(Store()), message.dataSize, steps, h)
      ensures Store() == Cache.Save(cfg, old(Store()), message, data, steps, h)
      ensures Valid() && h < |partitions| && partitions[h] == partition
      ensures forall p :: p in partitions ==> p in old(partitions) || fresh(p)
    {
      hide Values, IsHole, Cache.Legal, Cache.After, Cache.Inv, Layout, Buddy.Shape, Cache.ConfigOk, Cache.Place,
        Occupy, Cache.Wanted, Cache.Reserved, Dynamic.Overwrite;
      ghost var s := Store();
      var size := BuddySize(message.dataSize);
      partition, steps, h := MakeRoomBuddy(size, message.dataSize);
      ghost var ps := View();
      Cache.RoomOccupied(cfg, Cache.StartOf(s), message.dataSize, steps, message.id);
      Cache.ChosenHole(cfg, ps, size, h);
      Cache.ReadyToPlace(cfg, ps, h, message, time + 1);
      StoreInBuddy(partition, size, data, message, h);
    }

    /** The desired size, MAX(next_power_of_2(n), TAMANO_MINIMO_PARTICION). */
    method BuddySize(n: nat) returns (size: nat)
      requires Cache.ConfigOk(cfg) && cfg.buddy && 1 <= n <= cfg.total
      ensures size == Cache.Wanted(cfg, n) == Cache.Reserved(cfg, n) && IsPow2(size) && cfg.minSize <= size <= cfg.total
      ensures View() == old(View())
    {
      var rounded := NextPowerOf2(n);
      size := Max(rounded, cfg.minSize);
      Runs.CeilWithin(n, cfg.total);
    }

    // ---- Dynamic partitions ----

    /** The search of _consolidate: the first free partition with a free next one. */
    method FindFreePair() returns (i: nat)
      ensures i == Dynamic.FirstPair(View(), 0)
    {
      hide Values;
      i := 0;
      while i < |partitions| && !(i + 1 < |partitions| && partitions[i].free && partitions[i + 1].free)
        invariant i <= |partitions| && Dynamic.FirstPair(View(), i) == Dynamic.FirstPair(View(), 0)
      {
        i := i + 1;
      }
    }

    /** _consolidate: the first free partition of the pair, or of the triple, takes the sizes
        and the others are removed by their starts. */
    method Consolidate()
      requires Distinct(partitions) && Layout(cfg, View())
      modifies this`partitions, partitions
      ensures Distinct(partitions) && Among(partitions, old(partitions))
      ensures View() == Dynamic.Merge(old(View()))
    {
      hide Values, Layout, Fuse;
      var i := FindFreePair();
      if i < |partitions| {
        if i + 2 < |partitions| && partitions[i + 2].free {
          AbsorbTwo(partitions[i], partitions[i + 1], partitions[i + 2], i);
        } else {
          AbsorbNext(partitions[i], partitions[i + 1], i);
        }
      }
    }

    lemma PairReady(left: Partition, middle: Partition, i: nat)
      requires Distinct(partitions) && Layout(cfg, View())
      requires i + 1 < |partitions| && partitions[i] == left && partitions[i + 1] == middle
      ensures left != middle && var grown := View()[i := View()[i].(size := left.size + middle.size)];
        IndexAtStart(grown, middle.start) == i + 1 && Drop(grown, i + 1) == Fuse(View(), i, View()[i])
    {
      PairByStart(cfg, View(), i);
    }

    lemma TripleReady(left: Partition, middle: Partition, right: Partition, i: nat)
      requires Distinct(partitions) && Layout(cfg, View()) && i + 2 < |partitions|
      requires partitions[i] == left && partitions[i + 1] == middle && partitions[i + 2] == right
      ensures left != middle && left != right
      ensures var grown := View()[i := View()[i].(size := left.size + middle.size + right.size)];
        && IndexAtStart(grown, right.start) == i + 2
        && IndexAtStart(Drop(grown, i + 2), middle.start) == i + 1
        && Drop(Drop(grown, i + 2), i + 1) == Fuse(Fuse(View(), i, View()[i]), i, Fuse(View(), i, View()[i])[i])
    {
      TripleByStart(cfg, View(), i);
    }

    method AbsorbNext(left: Partition, middle: Partition, ghost i: nat)
      requires Distinct(partitions) && Layout(cfg, View())
      requires i + 1 < |partitions| && partitions[i] == left && partitions[i + 1] == middle
      modifies this`partitions, left
      ensures Distinct(partitions) && Among(partitions, old(partitions))
      ensures View() == Fuse(old(View()), i, old(View())[i])
    {
      PairReady(left, middle, i);
      hide *;
      ResizePartition(left, left.size + middle.size, i);
      RemovePartitionAt(middle.start, i + 1);
    }

    method AbsorbTwo(left: Partition, middle: Partition, right: Partition, ghost i: nat)
      requires Distinct(partitions) && Layout(cfg, View()) && i + 2 < |partitions|
      requires partitions[i] == left && partitions[i + 1] == middle && partitions[i + 2] == right
      modifies this`partitions, left
      ensures Distinct(partitions) && Among(partitions, old(partitions))
      ensures View() == Fuse(Fuse(old(View()), i, old(View())[i]), i, Fuse(old(View()), i, old(View())[i])[i])
    {
      hide *;
      TripleReady(left, middle, right, i);
      ResizePartition(left, left.size + middle.size + right.size, i);
      RemoveTwo(right.start, middle.start, i);
    }

    method RemoveTwo(right: nat, middle: nat, ghost i: nat)
      requires Distinct(partitions) && IndexAtStart(View(), right) == i + 2 < |partitions|
      requires IndexAtStart(Drop(View(), i + 2), middle) == i + 1
      modifies this`partitions
      ensures Distinct(partitions) && Among(partitions, old(partitions))
      ensures View() == Drop(Drop(old(View()), i + 2), i + 1)
    {
      hide *;
      ghost var before := partitions;
      RemovePartitionAt(right, i + 2);
      ghost var between := partitions;
      RemovePartitionAt(middle, i + 1);
      AmongTwice(partitions, between, before);
    }

    /** get_occupied_partitions and get_free_partitions */
    method PartitionsWith(free: bool) returns (list: seq<Partition>)
      ensures AreAt(list, partitions, Compaction.Indices(View(), free, |partitions|)) && View() == old(View())
    {
      hide Values;
      list := [];
      var i := 0;
      while i < |partitions|
        invariant i <= |partitions| && AreAt(list, partitions, Compaction.Indices(View(), free, i))
      {
        if partitions[i].free == free { list := list + [partitions[i]]; }
        i := i + 1;
      }
    }

    /** One turn of the first loop of _compact: the partition's bytes are copied out and it
        gets its new place. */
    method MoveOne(partition: Partition, start: nat, position: nat, ghost k: nat) returns (data: seq<byte>)
      requires Distinct(partitions) && k < |partitions| && partitions[k] == partition
      requires partition.start == cfg.base + partition.position && partition.message.Some?
      requires partition.position + partition.message.value.dataSize <= cache.Length
      modifies partition
      ensures data == Dynamic.DataOf(old(partition.Value()), cache[..])
      ensures View() == old(View())[k := old(View())[k].(position := position, start := start)]
    {
      hide Values;
      var from := partition.start - cfg.base;
      data := cache[from..from + partition.message.value.dataSize];
      partition.start := start;
      partition.position := position;
      assert View() == old(View())[k := old(View())[k].(position := position, start := start)];
    }

    /** The first loop of _compact. The list is in order of position already, so list_sort
        leaves it as it is. */
    method MoveOccupied(occupied: seq<Partition>) returns (data: seq<seq<byte>>)
      requires Distinct(partitions) && Layout(cfg, View()) && cache.Length == cfg.total
      requires AreAt(occupied, partitions, Compaction.Indices(View(), false, |partitions|))
      modifies partitions
      ensures View() == Compaction.Shifted(cfg, old(View()), |partitions|)
      ensures Copied(data, old(View()), Compaction.Indices(old(View()), false, |partitions|), cache[..])
    {
      hide Values, Layout, Distinct, AreAt, Copied, Compaction.Shifted, Compaction.Indices, Compaction.Stop,
        Dynamic.CompactBytes, Dynamic.DataOf, Dynamic.OccupiedSize;
      ghost var ps, bytes, n := View(), cache[..], |partitions|;
      ghost var indices := Compaction.Indices(ps, false, n);
      Compaction.FirstStop(cfg, ps, bytes);
      AreAtLength(occupied, partitions, ps, false);
      CopiedNone(ps, indices, bytes);
      var start, position := cfg.base, 0;
      data := [];
      var index := 0;
      while index < |occupied|
        invariant index <= |occupied| && Compaction.Stop(ps, false, index) <= n
        invariant position == Dynamic.OccupiedSize(ps, Compaction.Stop(ps, false, index))
        invariant start == cfg.base + position
        invariant View() == Compaction.Shifted(cfg, ps, Compaction.Stop(ps, false, index))
        invariant Copied(data, ps, indices[..index], bytes)
      {
        AtStop(occupied, partitions, ps, false, index);
        var partition := occupied[index];
        ghost var k := Compaction.Stop(ps, false, index);
        Compaction.NextStop(cfg, ps, bytes, index);
        OccupiedFits(cfg, ps, k);
        assert partition == partitions[k] && partition.Value() == View()[k] == ps[k];
        var d := MoveOne(partition, start, position, k);
        CopiedSnoc(data, ps, indices, index, bytes, d);
        data := data + [d];
        start := start + partition.size;
        position := position + partition.size;
        index := index + 1;
      }
      assert indices[..|occupied|] == indices;
    }

    /** The second loop of _compact: the copies are written at the new places. */
    method WriteBack(occupied: seq<Partition>, data: seq<seq<byte>>, ghost ps: seq<Part>)
      requires Layout(cfg, ps) && cache.Length == cfg.total && |partitions| == |ps|
      requires View() == Compaction.Shifted(cfg, ps, |ps|)
      requires AreAt(occupied, partitions, Compaction.Indices(ps, false, |ps|))
      requires Copied(data, ps, Compaction.Indices(ps, false, |ps|), cache[..])
      modifies cache
      ensures cache[..] == Dynamic.CompactBytes(cfg, ps, old(cache[..]), |ps|)
    {
      hide Values, Layout, AreAt, Copied, Compaction.Indices, Compaction.Stop,
        Dynamic.CompactBytes, Dynamic.DataOf, Dynamic.OccupiedSize;
      ghost var bytes := cache[..];
      Compaction.FirstStop(cfg, ps, bytes);
      AreAtLength(occupied, partitions, ps, false);
      CopiedLength(data, ps, Compaction.Indices(ps, false, |ps|), bytes);
      var a := 0;
      while a < |occupied|
        invariant a <= |occupied| && Compaction.Stop(ps, false, a) <= |ps|
        invariant View() == Compaction.Shifted(cfg, ps, |ps|)
        invariant cache[..] == Dynamic.CompactBytes(cfg, ps, bytes, Compaction.Stop(ps, false, a))
      {
        AtStop(occupied, partitions, ps, false, a);
        ghost var k := Compaction.Stop(ps, false, a);
        Compaction.NextStop(cfg, ps, bytes, a);
        CopiedAt(data, ps, Compaction.Indices(ps, false, |ps|), bytes, a);
        WriteStep(cfg, ps, bytes, k);
        var part := occupied[a];
        assert part.Value() == View()[k] == Dynamic.Moved(cfg, ps, k);
        CopyToCache(part.start, data[a]);
        a := a + 1;
      }
    }

    /** The fold of _compact over the free partitions. */
    method SumSizes(list: seq<Partition>) returns (sum: nat)
      requires AreAt(list, partitions, Compaction.Indices(View(), true, |partitions|))
      ensures sum == Dynamic.FreeSize(View(), |partitions|) && View() == old(View())
    {
      hide Values, Compaction.Indices;
      ghost var ps := View();
      ghost var indices := Compaction.Indices(ps, true, |ps|);
      Compaction.SumIsFreeSize(ps, |ps|);
      sum := 0;
      var i := 0;
      while i < |list|
        invariant i <= |list| && sum == Compaction.SumSizes(ps, indices, i)
      {
        sum := sum + list[i].size;
        i := i + 1;
      }
    }

    /** One removal of a free entry by its start. */
    method RemoveOneFree(start: nat, ghost objects: seq<Partition>, ghost ps: seq<Part>, ghost r: nat)
      requires Distinct(partitions) && Layout(cfg, ps) && |objects| == |ps|
      requires StartAt(ps, r, start) && SiftedTo(objects, ps, Compaction.Stop(ps, true, r))
      modifies this`partitions
      ensures Distinct(partitions) && Among(partitions, old(partitions)) && Compaction.Stop(ps, true, r + 1) <= |ps|
      ensures SiftedTo(objects, ps, Compaction.Stop(ps, true, r + 1))
    {
      hide Values, Layout, Compaction.Indices, Compaction.Stop, Drop, Compaction.Sift, Compaction.Shifted;
      Compaction.FreeStep(objects, ps, r);
      Compaction.FreeStep(Compaction.Shifted(cfg, ps, |ps|), ps, r);
      Compaction.FreeFoundByStart(cfg, ps, Compaction.Stop(ps, true, r));
      RemovePartitionAt(start, Dynamic.Rank(ps, Compaction.Stop(ps, true, r)));
    }

    /** The removal of the free entries by their starts. */
    method RemoveFree(starts: seq<nat>, ghost ps: seq<Part>)
      requires Distinct(partitions) && Layout(cfg, ps) && |partitions| == |ps|
      requires View() == Compaction.Shifted(cfg, ps, |ps|)
      requires |starts| == |Compaction.Indices(ps, true, |ps|)| && forall r :: 0 <= r < |starts| ==>
        StartAt(ps, r, starts[r])
      modifies this`partitions
      ensures Distinct(partitions) && Among(partitions, old(partitions))
      ensures partitions == Compaction.Kept(old(partitions), ps, |ps|)
      ensures View() == Dynamic.Packed(cfg, ps, |ps|)
    {
      hide *;
      ghost var objects := partitions;
      SiftedStart(ps);
      var i := 0;
      while i < |starts|
        invariant i <= |starts| == |Compaction.Indices(ps, true, |ps|)| && Distinct(partitions)
        invariant Compaction.Stop(ps, true, i) <= |ps| && SiftedTo(objects, ps, Compaction.Stop(ps, true, i))
      {
        RemoveOneFree(starts[i], objects, ps, i);
        i := i + 1;
      }
      Compaction.LastStop(ps, true);
      SiftedEnd(objects, ps);
    }

    /** The starts that are going to be removed; the removals change none of them. */
    method StartsOf(list: seq<Partition>, ghost ps: seq<Part>) returns (starts: seq<nat>)
      requires |partitions| == |ps| && View() == Compaction.Shifted(cfg, ps, |ps|)
      requires AreAt(list, partitions, Compaction.Indices(ps, true, |ps|))
      ensures |starts| == |Compaction.Indices(ps, true, |ps|)| && forall r :: 0 <= r < |starts| ==>
        StartAt(ps, r, starts[r])
      ensures View() == old(View())
    {
      hide StartAt, AreAt, Compaction.Indices, Compaction.Shifted, Values;
      starts := [];
      for i := 0 to |list|
        invariant |starts| == i && forall r :: 0 <= r < i ==> starts[r] == list[r].start
      {
        starts := starts + [list[i].start];
      }
      AreAtLength(list, partitions, ps, true);
      StartsAtStops(cfg, list, partitions, ps);
    }

    lemma SiftedStart(ps: seq<Part>)
      requires |partitions| == |ps| && View() == Compaction.Shifted(cfg, ps, |ps|)
      ensures Compaction.Stop(ps, true, 0) <= |ps| && SiftedTo(partitions, ps, Compaction.Stop(ps, true, 0))
    {
      hide Values, Compaction.Shifted, Compaction.Stop, Compaction.Sift;
      Compaction.FirstFreeStop(partitions, ps);
      Compaction.FirstFreeStop(Compaction.Shifted(cfg, ps, |ps|), ps);
    }

    lemma SiftedEnd(objects: seq<Partition>, ps: seq<Part>)
      requires |objects| == |ps| && SiftedTo(objects, ps, |ps|)
      ensures Among(partitions, objects) && partitions == Compaction.Kept(objects, ps, |ps|)
      ensures View() == Dynamic.Packed(cfg, ps, |ps|)
    {
      hide Values, Compaction.Shifted, Compaction.Sift, Compaction.Kept, Dynamic.Packed;
      Compaction.SiftAll(objects, ps);
      Compaction.KeptIn(objects, ps, |ps|);
      Compaction.SiftedIsPacked(cfg, ps);
    }

    /** The free entries before the k-th entry are gone. */
    ghost predicate SiftedTo(objects: seq<Partition>, ps: seq<Part>, k: nat)
      requires |objects| == |ps| && k <= |ps|
      reads this, partitions
    {
      && partitions == Compaction.Sift(objects, ps, k)
      && View() == Compaction.Sift(Compaction.Shifted(cfg, ps, |ps|), ps, k)
    }

    /** The end of _compact: the free entries go, and one hole is added after the last
        occupied partition. */
    method ReplaceFree(occupied: seq<Partition>, ghost ps: seq<Part>)
      requires Distinct(partitions) && Layout(cfg, ps) && |partitions| == |ps| && HasOccupied(ps)
      requires View() == Compaction.Shifted(cfg, ps, |ps|)
      requires AreAt(occupied, partitions, Compaction.Indices(ps, false, |ps|))
      modifies this`partitions
      ensures Distinct(partitions) && forall p :: p in partitions ==> p in old(partitions) || fresh(p)
      ensures View() == Dynamic.Compact(cfg, ps)
    {
      hide Values, Layout, AreAt, Distinct, Compaction.Indices, Compaction.Shifted, Compaction.Kept, Dynamic.Packed,
        Dynamic.FreeSize, Dynamic.OccupiedSize, HasOccupied, InsertAt, IndexAtStart, Dynamic.Rank;
      ghost var n := |ps|;
      Compaction.ShiftedFlags(cfg, ps);
      var notOccupied := PartitionsWith(true);
      var freeSize := SumSizes(notOccupied);
      var starts := StartsOf(notOccupied, ps);
      Compaction.SomethingPacked(cfg, ps);
      Compaction.LastKept(partitions, ps);
      AreAtLength(occupied, partitions, ps, false);
      AtIndex(occupied, partitions, Compaction.Indices(ps, false, n), |occupied| - 1);
      var last := occupied[|occupied| - 1];
      RemoveFree(starts, ps);
      Compaction.LastFoundByStart(cfg, ps);
      assert last.Value() == View()[|View()| - 1];
      ghost var hole := NewPart(last.position + last.size, last.start + last.size, freeSize);
      InsertLast(Dynamic.Packed(cfg, ps, n), hole);
      InsertNew(last.start, last.position + last.size, last.start + last.size, freeSize, |partitions| - 1);
    }

    /** _compact: move the occupied partitions together, write their messages back, replace
        the free entries by one hole. */
    method Compact()
      requires Distinct(partitions) && Layout(cfg, View()) && cache.Length == cfg.total && HasOccupied(View())
      modifies this`partitions, partitions, cache
      ensures Distinct(partitions) && forall p :: p in partitions ==> p in old(partitions) || fresh(p)
      ensures View() == Dynamic.Compact(cfg, old(View()))
      ensures cache[..] == Dynamic.CompactBytes(cfg, old(View()), old(cache[..]), |old(partitions)|)
    {
      hide Values, Layout, AreAt, Distinct, Copied, Compaction.Indices, Compaction.Shifted, Dynamic.Compact,
        Dynamic.CompactBytes, HasOccupied;
      ghost var ps := View();
      var occupied := PartitionsWith(false);
      var data := MoveOccupied(occupied);
      WriteBack(occupied, data, ps);
      ReplaceFree(occupied, ps);
    }

    /** choose_victim and _consolidate. */
    method KillDynamic() returns (ghost v: nat)
      requires Valid() && !cfg.buddy && HasOccupied(View())
      modifies this`partitions, partitions
      ensures Distinct(partitions) && Among(partitions, old(partitions))
      ensures IsVictim(cfg, old(View()), v) && View() == Dynamic.EvictDynamic(cfg, old(View()), v)
    {
      hide Values, Dynamic.Merge;
      ghost var ps := View();
      var victim: Partition;
      victim, v := ChooseVictim();
      EvictLayout(cfg, ps, v);
      hide Layout;
      Consolidate();
    }

    /** The cut of find_partition_dynamic: the rest becomes a partition of its own, with a
        32-bit size. */
    method CutHole(partition: Partition, size: nat, ghost h: nat)
      requires Distinct(partitions) && h < |partitions| && partitions[h] == partition
      requires Layout(cfg, View()) && size != partition.size && size <= WORD
      modifies this`partitions, partition
      ensures Distinct(partitions) && forall p :: p in partitions ==> p in old(partitions) || fresh(p)
      ensures h < |partitions| && partitions[h] == partition
      ensures View() == Cache.CutWord(old(View()), h, size)
    {
      ghost var ps := View();
      assert ps[h] == partition.Value();
      var rest := if size <= partition.size then partition.size - size else WORD + partition.size - size;
      InsertIsCutWord(ps, h, size, rest);
      hide Values, Distinct, Layout, Cache.CutWord, InsertAt;
      SplitOff(partition, size, rest, h);
    }

    method Take(partition: Partition, ghost h: nat)
      requires Distinct(partitions) && h < |partitions| && partitions[h] == partition
      modifies partition
      ensures View() == old(View())[h := old(View())[h].(free := false)]
    {
      hide Values;
      partition.free := false;
      assert View() == old(View())[h := old(View())[h].(free := false)];
    }

    /** find_partition_dynamic: the hole found keeps what the message needs and is taken. */
    method FindPartitionDynamic(n: nat) returns (partition: Partition?, ghost h: nat)
      requires Valid() && !cfg.buddy && 1 <= n <= cfg.total
      modifies this`partitions, partitions
      ensures Distinct(partitions) && forall p :: p in partitions ==> p in old(partitions) || fresh(p)
      ensures partition == null ==> !HasHole(old(View()), n) && partitions == old(partitions) && View() == old(View())
      ensures partition != null ==> Taken(cfg, old(View()), View(), h, n) && h < |partitions|
      ensures partition != null ==> partitions[h] == partition
    {
      hide Values, IsHole, HasHole, Distinct, Layout, Cache.CutWord, Dynamic.NoFreeNeighbours;
      ghost var ps := View();
      partition, h := FindPartition(n);
      if partition != null {
        Cache.ChosenHole(cfg, ps, n, h);
        var newSize := Max(n, cfg.minSize);
        SameSizeUncut(ps, h);
        if partition.size != newSize {
          CutHole(partition, newSize, h);
        }
        assert View() == Cache.PlaceAsIs(cfg, ps, h, n);
        Take(partition, h);
      }
    }

    /** One turn of _positive_frecuency that finds no hole. */
    method KillOrCompact(killed: nat, ghost n: nat, ghost room: Cache.Room) returns (kills: nat, ghost st: Cache.Step)
      requires Valid() && !cfg.buddy && Layout(cfg, View()) && HasOccupied(View()) && !HasHole(View(), n)
      requires Cache.RoomOk(cfg, room) && room == Cache.Room(View(), cache[..], killed)
      modifies this`partitions, partitions, cache
      ensures Distinct(partitions) && forall p :: p in partitions ==> p in old(partitions) || fresh(p)
      ensures Cache.LegalStep(cfg, room, n, st) && Cache.Turn(cfg, room, n, st) == Cache.Room(View(), cache[..], kills)
    {
      hide Values, Distinct, Cache.Inv, IsVictim, HasHole, HasOccupied, Layout, Dynamic.EvictDynamic, Dynamic.Compact,
        Dynamic.CompactBytes;
      if cfg.frequency == killed {
        st := Cache.Compaction;
        Compact();
        kills := 0;
      } else {
        ghost var v := KillDynamic();
        st := Cache.Kill(v);
        kills := killed + 1;
      }
    }

    /** _positive_frecuency */
    method PositiveFrequency(n: nat)
      returns (partition: Partition, ghost steps: seq<Cache.Step>, ghost h: nat, ghost room: Cache.Room)
      requires Valid() && !cfg.buddy && cfg.frequency > 0 && 1 <= n <= cfg.total
      modifies this`partitions, partitions, cache
      ensures Distinct(partitions) && forall p :: p in partitions ==> p in old(partitions) || fresh(p)
      ensures Cache.RoomOk(cfg, Cache.StartOf(old(Store()))) && Cache.Legal(cfg, Cache.StartOf(old(Store())), n, steps)
      ensures Cache.After(cfg, Cache.StartOf(old(Store())), n, steps) == room && cache[..] == room.bytes
      ensures Taken(cfg, room.parts, View(), h, n) && partitions[h] == partition
      ensures forall i :: 0 <= i < |steps| ==> (steps[i].Compaction? <==> Cache.KillsSince(steps[..i]) == cfg.frequency)
    {
      hide Values, Distinct, Cache.Inv, Cache.Legal, Cache.After, Taken, IsVictim, HasHole, HasOccupied, OccupiedCount,
        Dynamic.EvictDynamic, Dynamic.Compact, Dynamic.CompactBytes;
      ghost var r := Cache.StartOf(Store());
      Cache.NoSteps(cfg, r, n);
      steps, h, room := [], 0, r;
      var killed := 0;
      var found: Partition? := null;
      while found == null
        invariant Distinct(partitions) && forall p :: p in partitions ==> p in old(partitions) || fresh(p)
        invariant Cache.RoomOk(cfg, room) && Cache.Legal(cfg, r, n, steps) && Cache.After(cfg, r, n, steps) == room
        invariant room.killed == killed && cache[..] == room.bytes
        invariant if found == null then View() == room.parts
                  else Taken(cfg, room.parts, View(), h, n) && h < |partitions| && partitions[h] == found
        decreases if found == null then 1 else 0, OccupiedCount(room.parts), Cache.CompactionDue(cfg, room)
      {
        assert forall i :: 0 <= i < |partitions| ==> partitions[i] in old(partitions) || fresh(partitions[i]);
        found, h := FindPartitionDynamic(n);
        if found == null {
          Cache.VictimWhenStuck(cfg, View(), n);
          Cache.InvLayout(cfg, View());
          ghost var st;
          killed, st := KillOrCompact(killed, n, room);
          Cache.StepDecreases(cfg, room, n, st);
          Cache.Snoc(cfg, r, n, steps, st);
          steps, room := steps + [st], Cache.Turn(cfg, room, n, st);
        }
      }
      Cache.CompactsExactly(cfg, r, n, steps);
      partition := found;
    }

    /** _negative_frecuency: the same loop without compaction. */
    method NegativeFrequency(n: nat)
      returns (partition: Partition, ghost steps: seq<Cache.Step>, ghost h: nat, ghost room: Cache.Room)
      requires Valid() && !cfg.buddy && cfg.frequency < 0 && 1 <= n <= cfg.total
      modifies this`partitions, partitions
      ensures Distinct(partitions) && forall p :: p in partitions ==> p in old(partitions) || fresh(p)
      ensures Cache.RoomOk(cfg, Cache.StartOf(old(Store()))) && Cache.Legal(cfg, Cache.StartOf(old(Store())), n, steps)
      ensures Cache.After(cfg, Cache.StartOf(old(Store())), n, steps) == room && cache[..] == room.bytes
      ensures Taken(cfg, room.parts, View(), h, n) && h < |partitions| && partitions[h] == partition
      ensures forall st :: st in steps ==> st.Kill?
    {
      hide Values, Distinct, Cache.Inv, Cache.Legal, Cache.After, Taken, IsVictim, HasHole, HasOccupied, OccupiedCount,
        Dynamic.EvictDynamic;
      ghost var r := Cache.StartOf(Store());
      Cache.NoSteps(cfg, r, n);
      steps, h, room := [], 0, r;
      var found: Partition? := null;
      while found == null
        invariant Distinct(partitions) && forall p :: p in partitions ==> p in old(partitions) || fresh(p)
        invariant Cache.RoomOk(cfg, room) && Cache.Legal(cfg, r, n, steps) && Cache.After(cfg, r, n, steps) == room
        invariant cache[..] == room.bytes && forall st :: st in steps ==> st.Kill?
        invariant if found == null then View() == room.parts
                  else Taken(cfg, room.parts, View(), h, n) && h < |partitions| && partitions[h] == found
        decreases if found == null then 1 else 0, OccupiedCount(room.parts)
      {
        assert forall i :: 0 <= i < |partitions| ==> partitions[i] in old(partitions) || fresh(partitions[i]);
        found, h := FindPartitionDynamic(n);
        if found == null {
          Cache.VictimWhenStuck(cfg, View(), n);
          ghost var v := KillDynamic();
          ghost var st := Cache.Kill(v);
          Cache.StepDecreases(cfg, room, n, st);
          Cache.Snoc(cfg, r, n, steps, st);
          steps, room := steps + [st], Cache.Turn(cfg, room, n, st);
        }
      }
      partition := found;
    }

    /** save_to_cache_dynamic_partitions. The memory is well-formed afterwards if the hole found
        is not below the configured minimum (and only then: Runs.SavedWellExactly). */
    method SaveToCacheDynamicPartitions(data: seq<byte>, message: Message)
      returns (partition: Partition, ghost steps: seq<Cache.Step>, ghost h: nat)
      requires Valid() && !cfg.buddy && 1 <= message.dataSize == |data| <= cfg.total
      requires forall p :: p in Occupied(View()) ==> p.message.Some? && p.message.value.id != message.id
      modifies this`partitions, this`time, partitions, cache
      ensures Cache.LegalChoice(cfg, old(Store()), message.dataSize, steps, h)
      ensures Store() == Cache.SaveAsIs(cfg, old(Store()), message, data, steps, h)
      ensures Cache.LegalSave(cfg, old(Store()), message.dataSize, steps, h) ==> Valid()
      ensures h < |partitions| && partitions[h] == partition
      ensures forall p :: p in partitions ==> p in old(partitions) || fresh(p)
    {
      hide Values, Distinct, IsHole, Taken, Occupy, Cache.Legal, Cache.After, Cache.Inv, Cache.PlaceAsIs, Layout,
        Dynamic.Overwrite;
      ghost var s := Store();
      ghost var room;
      if cfg.frequency < 0 {
        partition, steps, h, room := NegativeFrequency(message.dataSize);
      } else {
        partition, steps, h, room := PositiveFrequency(message.dataSize);
      }
      Cache.RoomOccupied(cfg, Cache.StartOf(s), message.dataSize, steps, message.id);
      TakenReady(cfg, room.parts, View(), h, message, time + 1);
      assert partition in partitions && partition.Value() == View()[h];
      Fill(partition, message, data, h);
    }

    /** _save_to_cache: the configured allocator saves the message. */
    method SaveToCache(data: seq<byte>, message: Message)
      returns (partition: Partition, ghost steps: seq<Cache.Step>, ghost h: nat)
      requires Valid() && 1 <= message.dataSize == |data| <= cfg.total
      requires forall p :: p in Occupied(View()) ==> p.message.Some? && p.message.value.id != message.id
      modifies this`partitions, this`time, partitions, cache
      ensures Cache.LegalChoice(cfg, old(Store()), message.dataSize, steps, h)
      ensures cfg.buddy ==> Cache.LegalSave(cfg, old(Store()), message.dataSize, steps, h)
      ensures Store() == Cache.SaveAsIs(cfg, old(Store()), message, data, steps, h)
      ensures Cache.LegalSave(cfg, old(Store()), message.dataSize, steps, h) ==> Valid()
      ensures h < |partitions| && partitions[h] == partition
      ensures forall p :: p in partitions ==> p in old(partitions) || fresh(p)
      ensures forall i :: 0 <= i < |steps| ==>
        (steps[i].Compaction? <==> !cfg.buddy && Cache.KillsSince(steps[..i]) == cfg.frequency)
      ensures var ps := Cache.After(cfg, Cache.StartOf(old(Store())), message.dataSize, steps).parts;
        var want := if cfg.buddy then partition.size else message.dataSize;
        && h < |ps| && ps[h].free && want <= ps[h].size && partition.position == ps[h].position
        && (!cfg.bestFit ==> forall k :: 0 <= k < h ==> !ps[k].free || ps[k].size < want)
        && (cfg.bestFit ==> forall k :: 0 <= k < |ps| && ps[k].free && want <= ps[k].size ==> ps[h].size <= ps[k].size)
      ensures !partition.free && partition.message == Some(message)
      ensures partition.creationTime == partition.accessTime == time == old(time) + 1
      ensures partition.position + |data| <= cache.Length
      ensures cache[partition.position..partition.position + |data|] == data
      ensures !cfg.buddy ==> partition.size == Max(message.dataSize, cfg.minSize)
      ensures cfg.buddy ==> IsPow2(partition.size) && |data| <= partition.size
      ensures cfg.buddy ==> cfg.minSize == partition.size || cfg.minSize < partition.size < 2 * |data|
    {
      hide Values, Distinct, Cache.Save, Cache.SaveAsIs, Cache.Inv, Cache.ConfigOk, Cache.Legal, Cache.After, IsHole;
      ghost var s := Store();
      if cfg.buddy {
        partition, steps, h := SaveToCacheBuddySystem(data, message);
        Cache.SaveFits(cfg, s, message, data, steps, h);
      } else {
        partition, steps, h := SaveToCacheDynamicPartitions(data, message);
      }
      Cache.ChoiceMeans(cfg, s, message.dataSize, steps, h);
      Cache.SaveMeans(cfg, s, message, data, steps, h);
      assert partition.Value() == View()[h] == Store().parts[h];
    }

    /** save_message. The guard compares the size of a pointer with the memory's, as the code
        does. It is a step of a run if the hole found is not below the configured minimum,
        as it always is in the buddy system. */
    method SaveMessage(data: seq<byte>, message: Message, pointerSize: nat)
      returns (partition: Partition?, ghost steps: seq<Cache.Step>, ghost h: nat)
      requires Sound() && 1 <= message.dataSize == |data| <= cfg.total
      requires message.id !in past.log
      modifies this`partitions, this`time, this`past, partitions, cache
      ensures forall p :: p in partitions ==> p in old(partitions) || fresh(p)
      ensures pointerSize > cfg.total ==> partition == null && Sound() && World() == old(World())
      ensures pointerSize <= cfg.total ==> (
        && Cache.LegalChoice(cfg, old(Store()), message.dataSize, steps, h)
        && Store() == Cache.SaveAsIs(cfg, old(Store()), message, data, steps, h)
        && h < |partitions| && partitions[h] == partition
        && (cfg.buddy || cfg.minSize <= message.dataSize ==>
          Cache.LegalSave(cfg, old(Store()), message.dataSize, steps, h)))
      ensures pointerSize <= cfg.total ==> forall i :: 0 <= i < |steps| ==>
        (steps[i].Compaction? <==> !cfg.buddy && Cache.KillsSince(steps[..i]) == cfg.frequency)
      ensures pointerSize <= cfg.total ==>
        var ps := Cache.After(cfg, Cache.StartOf(old(Store())), message.dataSize, steps).parts;
        var want := if cfg.buddy then partition.size else message.dataSize;
        && h < |ps| && ps[h].free && want <= ps[h].size && partition.position == ps[h].position
        && (!cfg.bestFit ==> forall k :: 0 <= k < h ==> !ps[k].free || ps[k].size < want)
        && (cfg.bestFit ==> forall k :: 0 <= k < |ps| && ps[k].free && want <= ps[k].size ==> ps[h].size <= ps[k].size)
      ensures partition != null ==> !partition.free && partition.message == Some(message)
      ensures partition != null ==> partition.creationTime == partition.accessTime == time == old(time) + 1
      ensures partition != null ==> partition.position + |data| <= cache.Length
      ensures partition != null ==> cache[partition.position..partition.position + |data|] == data
      ensures partition != null && !cfg.buddy ==> partition.size == Max(message.dataSize, cfg.minSize)
      ensures partition != null && cfg.buddy ==> IsPow2(partition.size) && |data| <= partition.size
      ensures partition != null && cfg.buddy ==>
        cfg.minSize == partition.size || cfg.minSize < partition.size < 2 * |data|
      ensures pointerSize <= cfg.total && Cache.LegalSave(cfg, old(Store()), message.dataSize, steps, h) ==> (
        && Sound() && Runs.LegalOp(cfg, old(World()), Runs.SaveOp(message, data, steps, h))
        && World() == Runs.Apply(cfg, old(World()), Runs.SaveOp(message, data, steps, h)))
    {
      hide Values, Distinct, Cache.LegalSave, Cache.LegalChoice, Cache.Save, Cache.SaveAsIs, Cache.Inv, Cache.ConfigOk,
        Cache.Timely, Cache.Agrees, Cache.After, Cache.Wanted, Cache.KillsSince, IsPow2;
      partition, steps, h := null, [], 0;
      if pointerSize <= cfg.total {
        ghost var w := World();
        NewId(View(), cache[..], past.log, message.id);
        partition, steps, h := SaveToCache(data, message);
        Cache.ChoiceFits(cfg, w.store, message.dataSize, steps, h);
        if Cache.LegalSave(cfg, w.store, message.dataSize, steps, h) {
          Cache.SaveFits(cfg, w.store, message, data, steps, h);
          past := Runs.Apply(cfg, w, Runs.SaveOp(message, data, steps, h)).past;
          assert World() == Runs.Apply(cfg, w, Runs.SaveOp(message, data, steps, h));
        }
      }
    }

    /** get_time, as a step of a run */
    method Tick() returns (now: nat)
      requires Sound()
      modifies this`time
      ensures Sound() && now == time && World() == Runs.Apply(cfg, old(World()), Runs.TickOp)
    {
      hide Values, Distinct, Cache.Inv, Cache.ConfigOk, Cache.Agrees, Cache.Timely;
      ghost var w := World();
      now := GetTime();
      assert World() == Runs.Apply(cfg, w, Runs.TickOp);
    }

    /** The access time new_suscription writes into a partition whose message it sends. */
    method MarkUsed(partition: Partition, now: nat, ghost i: nat)
      requires Sound() && i < |partitions| && partitions[i] == partition && !partition.free && now <= time
      modifies partition`accessTime
      ensures Sound() && partition.message.Some? && partition.accessTime == now
      ensures World() == Runs.Apply(cfg, old(World()), Runs.TouchOp({partition.message.value.id}, now))
    {
      hide Values, Cache.ConfigOk, Cache.Agrees, Cache.Timely;
      ghost var w, ps := World(), View();
      Cache.InvLayout(cfg, ps);
      hide Cache.Inv;
      partition.accessTime := now;
      OneTouched(cfg, ps, i, now);
      assert View() == ps[i := ps[i].(accessed := now)];
      assert World() == Runs.Apply(cfg, w, Runs.TouchOp({partition.message.value.id}, now));
    }
  }

  /** No other cached message has the id. */
  lemma OneTouched(cfg: Config, ps: seq<Part>, i: nat, now: nat)
    requires Layout(cfg, ps) && i < |ps| && !ps[i].free
    ensures ps[i].message.Some?
    ensures Runs.TouchAll(ps, {ps[i].message.value.id}, now) == ps[i := ps[i].(accessed := now)]
  {
    var id := ps[i].message.value.id;
    forall j | 0 <= j < |ps| && j != i ensures Runs.Touch(ps[j], {id}, now) == ps[j] {
      if !ps[j].free { assert ps[j].message.value.id != id; }
    }
  }

  lemma NewId(ps: seq<Part>, bytes: seq<byte>, log: map<nat, seq<byte>>, id: nat)
    requires Cache.Agrees(ps, bytes, log) && id !in log
    ensures forall p :: p in Occupied(ps) ==> p.message.Some? && p.message.value.id != id
  {
  }

  /** What is left to do on a taken hole is what Occupy does. */
  lemma TakenReady(cfg: Config, ps: seq<Part>, qs: seq<Part>, h: nat, m: Message, now: nat)
    requires Cache.ConfigOk(cfg) && Cache.Inv(cfg, ps) && Taken(cfg, ps, qs, h, m.dataSize)
    requires 1 <= m.dataSize <= cfg.total
    requires forall p :: p in Occupied(ps) ==> p.message.Some? && p.message.value.id != m.id
    ensures h < |qs| && h < |ps| && IsHole(cfg, ps, Cache.Wanted(cfg, m.dataSize), h) && !cfg.buddy
    ensures qs[h].position == ps[h].position && qs[h].start == cfg.base + qs[h].position
    ensures ps[h].position + m.dataSize <= cfg.total
    ensures Occupy(qs, h, m, now) == Occupy(Cache.PlaceAsIs(cfg, ps, h, m.dataSize), h, m, now)
    ensures Cache.Reserved(cfg, m.dataSize) <= ps[h].size ==>
      Cache.Inv(cfg, Occupy(Cache.PlaceAsIs(cfg, ps, h, m.dataSize), h, m, now))
  {
    Cache.ChosenHole(cfg, ps, m.dataSize, h);
    InMemory(ps, cfg.total, h);
    if Cache.Reserved(cfg, m.dataSize) <= ps[h].size {
      Cache.ReadyToPlace(cfg, ps, h, m, now);
      Cache.PlaceFits(cfg, ps, h, m.dataSize);
    }
    hide Cache.Inv, Cache.PlaceAsIs;
  }

  /** The hole is cut and taken. */
  ghost predicate Taken(cfg: Config, ps: seq<Part>, qs: seq<Part>, h: nat, n: nat) {
    && IsHole(cfg, ps, n, h) && !cfg.buddy && Max(n, cfg.minSize) <= WORD
    && qs == Cache.PlaceAsIs(cfg, ps, h, n)[h := Cache.PlaceAsIs(cfg, ps, h, n)[h].(free := false)]
  }

  lemma SameSizeUncut(ps: seq<Part>, h: nat)
    requires h < |ps|
    ensures ps[h].size <= WORD ==> Cache.CutWord(ps, h, ps[h].size) == ps
  {
  }

  lemma InsertIsCutWord(ps: seq<Part>, h: nat, n: nat, rest: nat)
    requires h < |ps| && n <= WORD && n != ps[h].size
    requires rest == if n <= ps[h].size then ps[h].size - n else WORD + ps[h].size - n
    ensures InsertAt(ps[h := ps[h].(size := n)], h + 1, NewPart(ps[h].position + n, ps[h].start + n, rest)) ==
      Cache.CutWord(ps, h, n)
  {
  }

  lemma AtIndex(list: seq<Partition>, objects: seq<Partition>, indices: seq<nat>, r: nat)
    requires AreAt(list, objects, indices) && r < |list|
    ensures |indices| == |list| && indices[r] < |objects| && list[r] == objects[indices[r]]
  {
  }

  lemma InsertLast<T>(s: seq<T>, x: T)
    ensures InsertAt(s, |s|, x) == s + [x]
  {
  }

  lemma CopiedLength(data: seq<seq<byte>>, ps: seq<Part>, indices: seq<nat>, bytes: seq<byte>)
    requires Copied(data, ps, indices, bytes)
    ensures |data| == |indices|
  {
  }

  lemma CopiedAt(data: seq<seq<byte>>, ps: seq<Part>, indices: seq<nat>, bytes: seq<byte>, r: nat)
    requires Copied(data, ps, indices, bytes) && r < |data|
    ensures indices[r] < |ps| && ps[indices[r]].message.Some?
    ensures ps[indices[r]].position + ps[indices[r]].message.value.dataSize <= |bytes|
    ensures data[r] == Dynamic.DataOf(ps[indices[r]], bytes)
    ensures |data[r]| == ps[indices[r]].message.value.dataSize
  {
  }

  lemma WriteStep(cfg: Config, ps: seq<Part>, bytes: seq<byte>, k: nat)
    requires Layout(cfg, ps) && |bytes| == cfg.total && k < |ps| && !ps[k].free
    ensures ps[k].message.Some? && ps[k].position + ps[k].message.value.dataSize <= |bytes|
    ensures Dynamic.OccupiedSize(ps, k) + ps[k].message.value.dataSize <= |bytes|
    ensures |Dynamic.DataOf(ps[k], bytes)| == ps[k].message.value.dataSize
    ensures Dynamic.CompactBytes(cfg, ps, bytes, k + 1)
      == Dynamic.Overwrite(Dynamic.CompactBytes(cfg, ps, bytes, k), Dynamic.OccupiedSize(ps, k),
        Dynamic.DataOf(ps[k], bytes))
  {
    Dynamic.MovedFits(cfg, ps, k);
  }

  lemma AreAtLength(list: seq<Partition>, objects: seq<Partition>, ps: seq<Part>, free: bool)
    requires |objects| == |ps| && AreAt(list, objects, Compaction.Indices(ps, free, |ps|))
    ensures |list| == |Compaction.Indices(ps, free, |ps|)| && Compaction.Stop(ps, free, |list|) == |ps|
  {
  }

  lemma AtStop(list: seq<Partition>, objects: seq<Partition>, ps: seq<Part>, free: bool, r: nat)
    requires |objects| == |ps| && AreAt(list, objects, Compaction.Indices(ps, free, |ps|)) && r < |list|
    ensures r < |Compaction.Indices(ps, free, |ps|)|
    ensures Compaction.Stop(ps, free, r) == Compaction.Indices(ps, free, |ps|)[r] < |ps|
    ensures list[r] == objects[Compaction.Stop(ps, free, r)]
  {
  }

  /** The free partitions start where they did before the occupied ones moved. */
  lemma StartsAtStops(cfg: Config, list: seq<Partition>, objects: seq<Partition>, ps: seq<Part>)
    requires |objects| == |ps| && AreAt(list, objects, Compaction.Indices(ps, true, |ps|))
    requires Values(objects) == Compaction.Shifted(cfg, ps, |ps|)
    ensures forall r :: 0 <= r < |list| ==> StartAt(ps, r, list[r].start)
  {
    hide Values, AreAt, Compaction.Shifted, Compaction.Indices, Compaction.Stop;
    forall r | 0 <= r < |list| ensures StartAt(ps, r, list[r].start) {
      AtStop(list, objects, ps, true, r);
      Compaction.StopInRange(ps, true, r);
      Compaction.ShiftedFree(cfg, ps, Compaction.Stop(ps, true, r));
      assert objects[Compaction.Stop(ps, true, r)].Value() == Values(objects)[Compaction.Stop(ps, true, r)];
    }
  }

  /** The r-th free partition starts there. */
  ghost predicate StartAt(ps: seq<Part>, r: nat, start: nat) {
    && r < |Compaction.Indices(ps, true, |ps|)| && Compaction.Stop(ps, true, r) < |ps|
    && ps[Compaction.Stop(ps, true, r)].start == start
  }

  lemma CopiedNone(ps: seq<Part>, indices: seq<nat>, bytes: seq<byte>)
    ensures Copied([], ps, indices[..0], bytes)
  {
  }

  lemma CopiedSnoc(data: seq<seq<byte>>, ps: seq<Part>, indices: seq<nat>, r: nat, bytes: seq<byte>, d: seq<byte>)
    requires r < |indices| && Copied(data, ps, indices[..r], bytes)
    requires indices[r] < |ps| && ps[indices[r]].message.Some?
    requires ps[indices[r]].position + ps[indices[r]].message.value.dataSize <= |bytes|
    requires d == Dynamic.DataOf(ps[indices[r]], bytes)
    ensures Copied(data + [d], ps, indices[..r + 1], bytes)
  {
    assert indices[..r + 1] == indices[..r] + [indices[r]];
  }

  /** list[r] is the object at indices[r]. */
  ghost predicate AreAt(list: seq<Partition>, objects: seq<Partition>, indices: seq<nat>) {
    |list| == |indices| && forall r :: 0 <= r < |list| ==> indices[r] < |objects| && list[r] == objects[indices[r]]
  }

  /** data[r] is the message of the partition at indices[r]. */
  ghost predicate Copied(data: seq<seq<byte>>, ps: seq<Part>, indices: seq<nat>, bytes: seq<byte>) {
    && |data| == |indices|
    && forall r :: 0 <= r < |data| ==>
        && indices[r] < |ps| && ps[indices[r]].message.Some?
        && ps[indices[r]].position + ps[indices[r]].message.value.dataSize <= |bytes|
        && data[r] == Dynamic.DataOf(ps[indices[r]], bytes)
  }

  lemma OccupiedFits(cfg: Config, ps: seq<Part>, k: nat)
    requires Layout(cfg, ps) && k < |ps| && !ps[k].free
    ensures ps[k].message.Some? && ps[k].start == cfg.base + ps[k].position
    ensures ps[k].position + ps[k].message.value.dataSize <= cfg.total
  {
    InMemory(ps, cfg.total, k);
  }

  lemma PairByStart(cfg: Config, ps: seq<Part>, i: nat)
    requires Layout(cfg, ps) && i + 1 < |ps|
    ensures var grown := ps[i := ps[i].(size := ps[i].size + ps[i + 1].size)];
      && IndexAtStart(grown, ps[i + 1].start) == i + 1
      && Drop(grown, i + 1) == Fuse(ps, i, ps[i])
  {
    var grown := ps[i := ps[i].(size := ps[i].size + ps[i + 1].size)];
    StartIsIndex(cfg, ps, grown, i + 1);
    Dynamic.PairIsFuse(ps, i);
  }

  lemma TripleByStart(cfg: Config, ps: seq<Part>, i: nat)
    requires Layout(cfg, ps) && i + 2 < |ps|
    ensures var grown := ps[i := ps[i].(size := ps[i].size + ps[i + 1].size + ps[i + 2].size)];
      && IndexAtStart(grown, ps[i + 2].start) == i + 2
      && IndexAtStart(Drop(grown, i + 2), ps[i + 1].start) == i + 1
      && Drop(Drop(grown, i + 2), i + 1) == Fuse(Fuse(ps, i, ps[i]), i, Fuse(ps, i, ps[i])[i])
  {
    var grown := ps[i := ps[i].(size := ps[i].size + ps[i + 1].size + ps[i + 2].size)];
    StartIsIndex(cfg, ps, grown, i + 2);
    StartIsIndex(cfg, ps, Drop(grown, i + 2), i + 1);
    Dynamic.TripleIsFuse(ps, i);
  }

  lemma {:induction false} PositionUnique(ps: seq<Part>, position: nat, i: nat)
    requires i <= |ps| && (forall j :: 0 <= j < i ==> ps[j].position != position)
    requires i < |ps| ==> ps[i].position == position
    ensures i == IndexAtPosition(ps, position)
  {
  }

  lemma DistinctDrop<T>(s: seq<T>, i: nat)
    requires Distinct(s) && i < |s|
    ensures Distinct(Drop(s, i)) && forall x :: x in Drop(s, i) ==> x in s
  {
  }

  lemma DistinctInsert<T>(s: seq<T>, i: nat, x: T)
    requires Distinct(s) && x !in s && i <= |s|
    ensures Distinct(InsertAt(s, i, x))
  {
  }

  lemma EvictBuddyIs(cfg: Config, ps: seq<Part>, v: nat)
    requires Buddy.BuddyInv(cfg, ps) && v < |ps| && !ps[v].free
    ensures Evict(ps, v)[v].free && Buddy.Shape(cfg, Evict(ps, v))
    ensures Buddy.EvictBuddy(cfg, ps, v) == Buddy.Consolidate(cfg, Evict(ps, v), v)
  {
    EvictLayout(cfg, ps, v);
  }

  lemma OverwriteNone(bytes: seq<byte>, at: nat)
    requires at <= |bytes|
    ensures Dynamic.Overwrite(bytes, at, []) == bytes
  {
  }

  lemma OverwriteOneMore(bytes: seq<byte>, at: nat, data: seq<byte>, i: nat)
    requires i < |data| && at + |data| <= |bytes|
    ensures Dynamic.Overwrite(bytes, at, data[..i])[at + i := data[i]] == Dynamic.Overwrite(bytes, at, data[..i + 1])
  {
    assert data[..i + 1] == data[..i] + [data[i]];
  }

  lemma InsertPoints<T>(s: seq<T>, i: nat, x: T)
    requires i <= |s|
    ensures InsertAt(s, i, x) == s[..i] + [x] + s[i..]
    ensures forall y :: y in InsertAt(s, i, x) <==> y in s || y == x
    ensures forall k :: 0 <= k < i ==> InsertAt(s, i, x)[k] == s[k]
  {
    assert s == s[..i] + s[i..];
  }

  lemma ValuesInsert(objects: seq<Partition>, i: nat, p: Partition)
    requires i <= |objects|
    ensures Values(InsertAt(objects, i, p)) == InsertAt(Values(objects), i, p.Value())
  {
    hide Values;
    var a, b := InsertAt(objects, i, p), InsertAt(Values(objects), i, p.Value());
    forall k | 0 <= k < |b| ensures a[k].Value() == b[k] {
      if k > i { assert a[k] == objects[k - 1] && b[k] == Values(objects)[k - 1]; }
    }
  }

  lemma ValuesDrop(objects: seq<Partition>, i: nat)
    requires i < |objects|
    ensures Drop(objects, i) == objects[..i] + objects[i + 1..]
    ensures Values(Drop(objects, i)) == Drop(Values(objects), i)
  {
    hide Values;
    var a, b := Drop(objects, i), Drop(Values(objects), i);
    forall k | 0 <= k < |b| ensures a[k].Value() == b[k] {
      assert a[k] == objects[if k < i then k else k + 1] && b[k] == Values(objects)[if k < i then k else k + 1];
    }
  }

  lemma InsertIsCut(ps: seq<Part>, h: nat, n: nat)
    requires h < |ps| && n <= ps[h].size
    ensures InsertAt(ps[h := ps[h].(size := n)], h + 1, NewPart(ps[h].position + n, ps[h].start + n, ps[h].size - n)) ==
      Cut(ps, h, n)
  {
  }

  /** A partition is found by its start, also when its size has just been changed. */
  lemma StartIsIndex(cfg: Config, ps: seq<Part>, qs: seq<Part>, h: nat)
    requires Layout(cfg, ps) && h < |ps| && h < |qs|
    requires forall i :: 0 <= i <= h ==> qs[i].start == ps[i].start
    ensures IndexAtStart(qs, ps[h].start) == h
  {
    var r := IndexAtStart(qs, ps[h].start);
    if r < h { SamePlace(ps, cfg.total, r, h); }
  }

  lemma {:induction false} IndexUnique(ps: seq<Part>, start: nat, i: nat)
    requires i <= |ps| && (forall j :: 0 <= j < i ==> ps[j].start != start) && (i < |ps| ==> ps[i].start == start)
    ensures i == IndexAtStart(ps, start)
  {
  }
}
