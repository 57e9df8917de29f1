/** Saving messages in the broker's cache (broker/src/mem.c, buddy.c, dynamic.c), and what
    holds over whole runs of saves and replays. */
module Cache {
  import opened Arithmetic
  import opened Partitions
  import opened Protocol
  import Buddy
  import Dynamic

  /** The cache: its partitions, its bytes and the global TIME counter. */
  datatype Store = Store(parts: seq<Part>, bytes: seq<byte>, time: nat)

  /** What main.c leaves configured; _zero_frecuency is not modelled. */
  ghost predicate ConfigOk(cfg: Config) {
    1 <= cfg.minSize <= cfg.total < WORD && (if cfg.buddy then Buddy.BuddyConfig(cfg) else cfg.frequency != 0)
  }

  /** What the configured allocator keeps true of its partitions. */
  ghost predicate Inv(cfg: Config, ps: seq<Part>) {
    if cfg.buddy then Buddy.BuddyInv(cfg, ps) else Dynamic.DynamicInv(cfg, ps)
  }

  lemma InvLayout(cfg: Config, ps: seq<Part>)
    requires Inv(cfg, ps)
    ensures Layout(cfg, ps)
  {
  }

  /** The size searched for, and the size the message's partition gets. */
  function Wanted(cfg: Config, n: nat): nat {
    if cfg.buddy then Max(CeilPow2(n), cfg.minSize) else n
  }

  function Reserved(cfg: Config, n: nat): nat {
    if cfg.buddy then Max(CeilPow2(n), cfg.minSize) else Max(n, cfg.minSize)
  }

  // ---- Making room ----

  /** The state of the loop that makes room. */
  datatype Room = Room(parts: seq<Part>, bytes: seq<byte>, killed: nat)

  /** One turn of the loop: a victim is chosen, or the memory is compacted. */
  datatype Step = Kill(v: nat) | Compaction

  ghost predicate RoomOk(cfg: Config, r: Room) {
    && ConfigOk(cfg) && Inv(cfg, r.parts) && |r.bytes| == cfg.total
    && (!cfg.buddy && r.killed > 0 ==> Dynamic.HasFree(r.parts))
  }

  /** The turn the code takes in room r; which of several equally old victims is chosen is
      left open, as it depends on how the list library sorts. */
  ghost predicate LegalStep(cfg: Config, r: Room, n: nat, st: Step) {
    && !HasHole(r.parts, Wanted(cfg, n))
    && (if !cfg.buddy && cfg.frequency == r.killed then st.Compaction?
        else st.Kill? && IsVictim(cfg, r.parts, st.v))
  }

  function Turn(cfg: Config, r: Room, n: nat, st: Step): (r': Room)
    requires RoomOk(cfg, r) && LegalStep(cfg, r, n, st)
    ensures RoomOk(cfg, r')
  {
    match st
    case Kill(v) =>
      if cfg.buddy then
        r.(parts := Buddy.EvictBuddy(cfg, r.parts, v))
      else
        assert Evict(r.parts, v)[v].free;
        Dynamic.MergeOccupied(Evict(r.parts, v));
        r.(parts := Dynamic.EvictDynamic(cfg, r.parts, v), killed := r.killed + 1)
    case Compaction =>
      Dynamic.CompactInv(cfg, r.parts);
      Room(Dynamic.Compact(cfg, r.parts), Dynamic.CompactBytes(cfg, r.parts, r.bytes, |r.parts|), 0)
  }

  /** steps are the turns taken so far from room r while looking for n bytes. */
  ghost predicate Legal(cfg: Config, r: Room, n: nat, steps: seq<Step>)
    requires RoomOk(cfg, r)
    decreases |steps|, 0
  {
    steps == [] ||
    (Legal(cfg, r, n, steps[..|steps| - 1]) &&
     LegalStep(cfg, After(cfg, r, n, steps[..|steps| - 1]), n, steps[|steps| - 1]))
  }

  ghost function After(cfg: Config, r: Room, n: nat, steps: seq<Step>): (r': Room)
    requires RoomOk(cfg, r) && Legal(cfg, r, n, steps)
    ensures RoomOk(cfg, r')
    decreases |steps|, 1
  {
    if steps == [] then r
    else Turn(cfg, After(cfg, r, n, steps[..|steps| - 1]), n, steps[|steps| - 1])
  }

  /** A list that cannot hold what fits in the whole memory has a victim. */
  lemma VictimWhenStuck(cfg: Config, ps: seq<Part>, want: nat)
    requires Inv(cfg, ps) && want <= cfg.total && !HasHole(ps, want)
    ensures HasOccupied(ps)
  {
    if cfg.buddy { Buddy.EmptyIsWhole(cfg, ps); } else { Dynamic.EmptyIsWhole(cfg, ps); }
    if !HasOccupied(ps) { assert CanHold(ps[0], want); }
  }

  /** While nothing fits there is a next turn: a victim to kill, or, when the configured
      number has been killed, free space and an occupied partition to compact. */
  lemma StepExists(cfg: Config, r: Room, n: nat) returns (st: Step)
    requires RoomOk(cfg, r) && Wanted(cfg, n) <= cfg.total && !HasHole(r.parts, Wanted(cfg, n))
    ensures LegalStep(cfg, r, n, st)
    ensures st.Compaction? ==> HasOccupied(r.parts) && Dynamic.HasFree(r.parts)
  {
    VictimWhenStuck(cfg, r.parts, Wanted(cfg, n));
    if !cfg.buddy && cfg.frequency == r.killed {
      st := Compaction;
    } else {
      var v := VictimExists(cfg, r.parts);
      st := Kill(v);
    }
  }

  function CompactionDue(cfg: Config, r: Room): nat {
    if !cfg.buddy && cfg.frequency == r.killed then 1 else 0
  }

  /** Every turn lowers (occupied partitions, compaction due). */
  lemma StepDecreases(cfg: Config, r: Room, n: nat, st: Step)
    requires RoomOk(cfg, r) && LegalStep(cfg, r, n, st)
    ensures var r' := Turn(cfg, r, n, st);
      if st.Kill? then OccupiedCount(r'.parts) == OccupiedCount(r.parts) - 1
      else OccupiedCount(r'.parts) == OccupiedCount(r.parts) && CompactionDue(cfg, r') < CompactionDue(cfg, r)
  {
    if st.Compaction? {
      var ps := r.parts;
      Dynamic.CompactCount(cfg, ps, |ps|);
      assert ps[..|ps|] == ps;
      OccupiedConcat(Dynamic.Packed(cfg, ps, |ps|), [Dynamic.Compact(cfg, ps)[|Dynamic.Compact(cfg, ps)| - 1]]);
    }
  }

  function Kills(steps: seq<Step>): nat {
    if steps == [] then 0
    else Kills(steps[..|steps| - 1]) + (if steps[|steps| - 1].Kill? then 1 else 0)
  }

  lemma Snoc(cfg: Config, r: Room, n: nat, steps: seq<Step>, st: Step)
    requires RoomOk(cfg, r) && Legal(cfg, r, n, steps) && LegalStep(cfg, After(cfg, r, n, steps), n, st)
    ensures Legal(cfg, r, n, steps + [st])
    ensures After(cfg, r, n, steps + [st]) == Turn(cfg, After(cfg, r, n, steps), n, st)
    ensures Kills(steps + [st]) == Kills(steps) + (if st.Kill? then 1 else 0)
  {
    assert (steps + [st])[..|steps|] == steps;
  }

  lemma NoSteps(cfg: Config, r: Room, n: nat)
    requires RoomOk(cfg, r)
    ensures Legal(cfg, r, n, []) && After(cfg, r, n, []) == r
  {
  }

  // ---- When the memory is compacted ----

  /** How many victims there have been since the last compaction. */
  function KillsSince(steps: seq<Step>): nat {
    if steps == [] || steps[|steps| - 1].Compaction? then 0 else 1 + KillsSince(steps[..|steps| - 1])
  }

  lemma {:induction false} KilledIs(cfg: Config, r: Room, n: nat, steps: seq<Step>)
    requires RoomOk(cfg, r) && Legal(cfg, r, n, steps) && !cfg.buddy && r.killed == 0
    ensures After(cfg, r, n, steps).killed == KillsSince(steps)
    decreases |steps|
  {
    if steps != [] { KilledIs(cfg, r, n, steps[..|steps| - 1]); }
  }

  /** In dynamic mode the memory is compacted exactly when as many victims as configured have
      been killed since it last was; in the buddy system it never is. */
  lemma {:induction false} CompactsExactly(cfg: Config, r: Room, n: nat, steps: seq<Step>)
    requires RoomOk(cfg, r) && Legal(cfg, r, n, steps) && r.killed == 0
    ensures forall i :: 0 <= i < |steps| ==>
      (steps[i].Compaction? <==> !cfg.buddy && KillsSince(steps[..i]) == cfg.frequency)
    decreases |steps|
  {
    hide *;
    if steps != [] {
      LastCompacts(cfg, r, n, steps);
      CompactsExactly(cfg, r, n, steps[..|steps| - 1]);
      OneMoreStep(cfg, steps);
    }
  }

  lemma LastCompacts(cfg: Config, r: Room, n: nat, steps: seq<Step>)
    requires RoomOk(cfg, r) && steps != [] && Legal(cfg, r, n, steps) && r.killed == 0
    ensures Legal(cfg, r, n, steps[..|steps| - 1])
    ensures steps[|steps| - 1].Compaction? <==> !cfg.buddy && KillsSince(steps[..|steps| - 1]) == cfg.frequency
  {
    hide KillsSince;
    if !cfg.buddy { KilledIs(cfg, r, n, steps[..|steps| - 1]); }
  }

  lemma OneMoreStep(cfg: Config, steps: seq<Step>)
    requires steps != []
    requires var before := steps[..|steps| - 1]; forall i :: 0 <= i < |before| ==>
      (before[i].Compaction? <==> !cfg.buddy && KillsSince(before[..i]) == cfg.frequency)
    requires steps[|steps| - 1].Compaction? <==> !cfg.buddy && KillsSince(steps[..|steps| - 1]) == cfg.frequency
    ensures forall i :: 0 <= i < |steps| ==>
      (steps[i].Compaction? <==> !cfg.buddy && KillsSince(steps[..i]) == cfg.frequency)
  {
    hide KillsSince;
    var before := steps[..|steps| - 1];
    forall i | 0 <= i < |before|
      ensures steps[i].Compaction? <==> !cfg.buddy && KillsSince(steps[..i]) == cfg.frequency
    {
      assert steps[i] == before[i] && steps[..i] == before[..i];
    }
  }

  /** Exactly as many partitions are given up as there were kills. */
  lemma {:induction false} KillsCount(cfg: Config, r: Room, n: nat, steps: seq<Step>)
    requires RoomOk(cfg, r) && Legal(cfg, r, n, steps)
    ensures OccupiedCount(After(cfg, r, n, steps).parts) + Kills(steps) == OccupiedCount(r.parts)
    decreases |steps|
  {
    if steps != [] {
      var before := steps[..|steps| - 1];
      KillsCount(cfg, r, n, before);
      StepDecreases(cfg, After(cfg, r, n, before), n, steps[|steps| - 1]);
    }
  }

  /** The loop ends: from any turns taken so far, more turns lead to a hole. */
  lemma {:induction false} LoopEnds(cfg: Config, r: Room, n: nat, steps: seq<Step>) returns (all: seq<Step>)
    requires RoomOk(cfg, r) && Wanted(cfg, n) <= cfg.total && Legal(cfg, r, n, steps)
    ensures steps <= all
    ensures Legal(cfg, r, n, all) && HasHole(After(cfg, r, n, all).parts, Wanted(cfg, n))
    ensures Kills(all) <= OccupiedCount(r.parts)
    decreases OccupiedCount(After(cfg, r, n, steps).parts), CompactionDue(cfg, After(cfg, r, n, steps))
  {
    var now := After(cfg, r, n, steps);
    if HasHole(now.parts, Wanted(cfg, n)) {
      all := steps;
      KillsCount(cfg, r, n, steps);
    } else {
      var st := StepExists(cfg, now, n);
      Snoc(cfg, r, n, steps, st);
      StepDecreases(cfg, now, n, st);
      all := LoopEnds(cfg, r, n, steps + [st]);
    }
  }

  // ---- What the turns do to the messages ----

  /** The bytes at p are the ones its message was saved with. */
  ghost predicate Keeps(p: Part, bytes: seq<byte>, log: map<nat, seq<byte>>) {
    && p.message.Some? && p.position + p.message.value.dataSize <= |bytes|
    && p.message.value.id in log && log[p.message.value.id] == Dynamic.DataOf(p, bytes)
  }

  /** Every cached message's bytes are the ones it was saved with. */
  ghost predicate Agrees(ps: seq<Part>, bytes: seq<byte>, log: map<nat, seq<byte>>) {
    forall p :: p in Occupied(ps) ==> Keeps(p, bytes, log)
  }

  lemma MovedKeeps(cfg: Config, ps: seq<Part>, bytes: seq<byte>, log: map<nat, seq<byte>>, k: nat)
    requires Layout(cfg, ps) && |bytes| == cfg.total && k < |ps| && !ps[k].free && Keeps(ps[k], bytes, log)
    ensures Keeps(Dynamic.Moved(cfg, ps, k), Dynamic.CompactBytes(cfg, ps, bytes, |ps|), log)
  {
    Dynamic.MovedFits(cfg, ps, k);
    Dynamic.CompactKeepsBytes(cfg, ps, bytes, k, |ps|);
  }

  lemma CompactAgrees(cfg: Config, ps: seq<Part>, bytes: seq<byte>, log: map<nat, seq<byte>>)
    requires Layout(cfg, ps) && |bytes| == cfg.total && Agrees(ps, bytes, log)
    ensures Agrees(Dynamic.Compact(cfg, ps), Dynamic.CompactBytes(cfg, ps, bytes, |ps|), log)
  {
    Dynamic.CompactOccupied(cfg, ps);
    forall p | p in Occupied(Dynamic.Compact(cfg, ps))
      ensures Keeps(p, Dynamic.CompactBytes(cfg, ps, bytes, |ps|), log)
    {
      var k :| 0 <= k < |ps| && !ps[k].free && p == Dynamic.Moved(cfg, ps, k);
      assert ps[k] in Occupied(ps);
      MovedKeeps(cfg, ps, bytes, log, k);
    }
  }

  /** A cached message and the time the replacement algorithm goes by. */
  datatype Entry = Entry(message: Option<Message>, at: nat)

  function EntryOf(cfg: Config, p: Part): Entry { Entry(p.message, Age(cfg, p)) }

  function Entries(cfg: Config, ps: seq<Part>): set<Entry> {
    set p | p in Occupied(ps) :: EntryOf(cfg, p)
  }

  lemma EntriesMinus(cfg: Config, ps: seq<Part>, qs: seq<Part>, v: nat)
    requires Filled(ps) && DistinctIds(ps) && v < |ps| && !ps[v].free
    requires Occupied(qs) == Occupied(ps) - {ps[v]}
    ensures Entries(cfg, qs) == Entries(cfg, ps) - {EntryOf(cfg, ps[v])}
  {
    forall p | p in Occupied(qs) ensures EntryOf(cfg, p) != EntryOf(cfg, ps[v]) {
      var i :| 0 <= i < |ps| && ps[i] == p;
      assert i != v;
    }
  }

  lemma EntriesMoved(cfg: Config, ps: seq<Part>)
    ensures Entries(cfg, Dynamic.Compact(cfg, ps)) == Entries(cfg, ps)
  {
    var c := Dynamic.Compact(cfg, ps);
    Dynamic.CompactOccupied(cfg, ps);
    forall p | p in Occupied(ps) ensures EntryOf(cfg, p) in Entries(cfg, c) {
      var k :| 0 <= k < |ps| && ps[k] == p;
      assert Dynamic.Moved(cfg, ps, k) in Occupied(c);
    }
    forall p | p in Occupied(c) ensures EntryOf(cfg, p) in Entries(cfg, ps) {
      var k :| 0 <= k < |ps| && !ps[k].free && p == Dynamic.Moved(cfg, ps, k);
      assert ps[k] in Occupied(ps);
    }
  }

  /** Occupied partitions were created and last used no later than now. */
  ghost predicate Timely(ps: seq<Part>, now: nat) {
    forall p :: p in Occupied(ps) ==> p.created <= now && p.accessed <= now
  }

  /** A turn evicts the victim's message and no other; it changes nobody's times and nobody's
      bytes, wherever they end up. */
  lemma TurnMessages(cfg: Config, r: Room, n: nat, st: Step, log: map<nat, seq<byte>>, now: nat)
    requires RoomOk(cfg, r) && LegalStep(cfg, r, n, st)
    ensures var r' := Turn(cfg, r, n, st);
      && (Agrees(r.parts, r.bytes, log) ==> Agrees(r'.parts, r'.bytes, log))
      && (Timely(r.parts, now) ==> Timely(r'.parts, now))
      && Entries(cfg, r'.parts) ==
        (if st.Kill? then Entries(cfg, r.parts) - {EntryOf(cfg, r.parts[st.v])} else Entries(cfg, r.parts))
  {
    match st
    case Kill(v) =>
      KillOccupied(cfg, r, n, v);
      EntriesMinus(cfg, r.parts, Turn(cfg, r, n, st).parts, v);
    case Compaction =>
      if Agrees(r.parts, r.bytes, log) { CompactAgrees(cfg, r.parts, r.bytes, log); }
      EntriesMoved(cfg, r.parts);
      CompactTimely(cfg, r.parts, now);
  }

  /** What a turn comes to: an eviction takes out the victim's message and no other; a compaction
      takes out none, and leaves one free partition, the last, with the size of all that was free. */
  lemma TurnMeans(cfg: Config, r: Room, n: nat, st: Step)
    requires RoomOk(cfg, r) && LegalStep(cfg, r, n, st)
    ensures var r' := Turn(cfg, r, n, st); var ps, qs := r.parts, r'.parts;
      && Inv(cfg, qs) && qs != []
      && (st.Kill? ==>
        st.v < |ps| && Entries(cfg, qs) == Entries(cfg, ps) - {Entry(ps[st.v].message, Age(cfg, ps[st.v]))})
      && (st.Compaction? ==> Entries(cfg, qs) == Entries(cfg, ps))
      && (st.Compaction? ==> forall i :: 0 <= i < |qs| ==> (qs[i].free <==> i == |qs| - 1))
      && (st.Compaction? ==>
        qs[|qs| - 1].size == Dynamic.FreeSize(ps, |ps|) && qs[|qs| - 1].position + qs[|qs| - 1].size == cfg.total)
  {
    TurnMessages(cfg, r, n, st, map[], 0);
    if st.Compaction? {
      InvLayout(cfg, r.parts);
      Dynamic.CompactInv(cfg, r.parts);
    }
    hide Entries;
  }

  lemma KillOccupied(cfg: Config, r: Room, n: nat, v: nat)
    requires RoomOk(cfg, r) && LegalStep(cfg, r, n, Kill(v))
    ensures Occupied(Turn(cfg, r, n, Kill(v)).parts) == Occupied(r.parts) - {r.parts[v]}
  {
    var e := Evict(r.parts, v);
    EvictOccupied(r.parts, cfg.total, v);
    if cfg.buddy {
      EvictLayout(cfg, r.parts, v);
      Buddy.ConsolidateOccupied(cfg, e, v);
    } else {
      Dynamic.MergeOccupied(e);
    }
  }

  lemma CompactTimely(cfg: Config, ps: seq<Part>, now: nat)
    ensures Timely(ps, now) ==> Timely(Dynamic.Compact(cfg, ps), now)
  {
    Dynamic.CompactOccupied(cfg, ps);
    if Timely(ps, now) {
      forall p | p in Occupied(Dynamic.Compact(cfg, ps)) ensures p.created <= now && p.accessed <= now {
        var k :| 0 <= k < |ps| && !ps[k].free && p == Dynamic.Moved(cfg, ps, k);
        assert ps[k] in Occupied(ps);
      }
    }
  }

  // ---- Saving ----

  /** The hole is cut down to the size reserved for n bytes. */
  function Place(cfg: Config, ps: seq<Part>, h: nat, n: nat): (r: seq<Part>)
    requires h < |ps| && Reserved(cfg, n) <= ps[h].size
    requires cfg.buddy ==> IsPow2(ps[h].size) && IsPow2(cfg.minSize)
    ensures h < |r| && r[h] == ps[h].(size := Reserved(cfg, n))
  {
    if cfg.buddy then Buddy.Split(ps, h, Reserved(cfg, n))
    else if ps[h].size == Reserved(cfg, n) then ps
    else Cut(ps, h, Reserved(cfg, n))
  }

  ghost predicate StoreOk(cfg: Config, s: Store, log: map<nat, seq<byte>>) {
    && ConfigOk(cfg) && Inv(cfg, s.parts) && |s.bytes| == cfg.total
    && Agrees(s.parts, s.bytes, log) && Timely(s.parts, s.time)
  }

  function StartOf(s: Store): Room { Room(s.parts, s.bytes, 0) }

  /** steps and h are turns and a hole the code may go through to save n bytes. */
  ghost predicate LegalChoice(cfg: Config, s: Store, n: nat, steps: seq<Step>, h: nat)
    requires ConfigOk(cfg) && Inv(cfg, s.parts) && |s.bytes| == cfg.total
  {
    && 1 <= n <= cfg.total
    && Legal(cfg, StartOf(s), n, steps)
    && IsHole(cfg, After(cfg, StartOf(s), n, steps).parts, Wanted(cfg, n), h)
  }

  /** And the hole holds the configured minimum too, which dynamic mode does not look at. */
  ghost predicate LegalSave(cfg: Config, s: Store, n: nat, steps: seq<Step>, h: nat)
    requires ConfigOk(cfg) && Inv(cfg, s.parts) && |s.bytes| == cfg.total
  {
    LegalChoice(cfg, s, n, steps, h) && Reserved(cfg, n) <= After(cfg, StartOf(s), n, steps).parts[h].size
  }

  /** save_message: make room, cut the hole, mark it with the message and the time, copy. */
  ghost function Save(cfg: Config, s: Store, m: Message, data: seq<byte>, steps: seq<Step>, h: nat): Store
    requires ConfigOk(cfg) && Inv(cfg, s.parts) && |s.bytes| == cfg.total
    requires LegalSave(cfg, s, m.dataSize, steps, h) && |data| == m.dataSize
  {
    var r := After(cfg, StartOf(s), m.dataSize, steps);
    HoleFits(cfg, r.parts, m.dataSize, h);
    Store(Occupy(Place(cfg, r.parts, h, m.dataSize), h, m, s.time + 1),
          Dynamic.Overwrite(r.bytes, r.parts[h].position, data), s.time + 1)
  }

  /** What the code's cut makes of a hole, in its 32-bit sizes: if the hole is smaller, the rest
      wraps around. */
  function CutWord(ps: seq<Part>, h: nat, size: nat): (r: seq<Part>)
    requires h < |ps| && size <= WORD
    ensures h < |r| && r[h] == ps[h].(size := size)
  {
    var p := ps[h];
    if p.size == size then ps
    else
      var rest := if size <= p.size then p.size - size else WORD + p.size - size;
      ps[..h] + [p.(size := size), NewPart(p.position + size, p.start + size, rest)] + ps[h + 1..]
  }

  /** The cut on the list: one more entry, free, right after the hole; the two sizes add up to
      the hole's, modulo 2^32. */
  lemma CutWordMeans(ps: seq<Part>, h: nat, size: nat)
    requires h < |ps| && ps[h].size < WORD && size < WORD && size != ps[h].size
    ensures var r := CutWord(ps, h, size);
      && |r| == |ps| + 1 && r[h] == ps[h].(size := size)
      && r[h + 1].free && r[h + 1].message == None && r[h + 1].size < WORD
      && r[h + 1].position == ps[h].position + size && r[h + 1].start == ps[h].start + size
      && (size + r[h + 1].size) % WORD == ps[h].size
      && r[..h] == ps[..h] && r[h + 2..] == ps[h + 1..]
  {
  }

  /** The cut of the configured allocator, whether the hole is big enough or not. */
  function PlaceAsIs(cfg: Config, ps: seq<Part>, h: nat, n: nat): (r: seq<Part>)
    requires h < |ps| && Max(n, cfg.minSize) <= WORD
    requires cfg.buddy ==> Reserved(cfg, n) <= ps[h].size && IsPow2(ps[h].size) && IsPow2(cfg.minSize)
    ensures h < |r| && r[h] == ps[h].(size := Reserved(cfg, n))
  {
    if cfg.buddy then Buddy.Split(ps, h, Reserved(cfg, n)) else CutWord(ps, h, Reserved(cfg, n))
  }

  lemma PlaceFits(cfg: Config, ps: seq<Part>, h: nat, n: nat)
    requires h < |ps| && Max(n, cfg.minSize) <= WORD && Reserved(cfg, n) <= ps[h].size
    requires cfg.buddy ==> IsPow2(ps[h].size) && IsPow2(cfg.minSize)
    ensures PlaceAsIs(cfg, ps, h, n) == Place(cfg, ps, h, n)
  {
  }

  /** What a choice is good for. */
  lemma ChoiceFits(cfg: Config, s: Store, n: nat, steps: seq<Step>, h: nat)
    requires ConfigOk(cfg) && Inv(cfg, s.parts) && |s.bytes| == cfg.total && LegalChoice(cfg, s, n, steps, h)
    ensures var ps := After(cfg, StartOf(s), n, steps).parts;
      && h < |ps| && n <= ps[h].size && ps[h].position + n <= cfg.total && Max(n, cfg.minSize) <= WORD
      && (cfg.buddy ==> Reserved(cfg, n) <= ps[h].size && IsPow2(ps[h].size) && IsPow2(cfg.minSize))
      && (LegalSave(cfg, s, n, steps, h) <==> cfg.minSize <= ps[h].size)
  {
    var ps := After(cfg, StartOf(s), n, steps).parts;
    ChosenHole(cfg, ps, Wanted(cfg, n), h);
    InMemory(ps, cfg.total, h);
  }

  /** save_message, with the cut as the code makes it. */
  ghost function SaveAsIs(cfg: Config, s: Store, m: Message, data: seq<byte>, steps: seq<Step>, h: nat): Store
    requires ConfigOk(cfg) && Inv(cfg, s.parts) && |s.bytes| == cfg.total
    requires LegalChoice(cfg, s, m.dataSize, steps, h) && |data| == m.dataSize
  {
    var r := After(cfg, StartOf(s), m.dataSize, steps);
    ChoiceFits(cfg, s, m.dataSize, steps, h);
    Store(Occupy(PlaceAsIs(cfg, r.parts, h, m.dataSize), h, m, s.time + 1),
          Dynamic.Overwrite(r.bytes, r.parts[h].position, data), s.time + 1)
  }

  /** What a save leaves: the message in the chosen hole's place, its bytes there, and a block of
      the right size around it. */
  lemma SaveMeans(cfg: Config, s: Store, m: Message, data: seq<byte>, steps: seq<Step>, h: nat)
    requires ConfigOk(cfg) && Inv(cfg, s.parts) && |s.bytes| == cfg.total && |data| == m.dataSize
    requires LegalChoice(cfg, s, m.dataSize, steps, h)
    ensures var s', ps := SaveAsIs(cfg, s, m, data, steps, h), After(cfg, StartOf(s), m.dataSize, steps).parts;
      && s'.time == s.time + 1 && h < |s'.parts| && h < |ps| && |s'.bytes| == cfg.total
      && (var p := s'.parts[h];
          && !p.free && p.message == Some(m) && p.created == s'.time && p.accessed == s'.time
          && p.position == ps[h].position && p.start == ps[h].start && p.position + |data| <= cfg.total
          && s'.bytes[p.position..p.position + |data|] == data
          && (!cfg.buddy ==> p.size == Max(m.dataSize, cfg.minSize))
          && Wanted(cfg, m.dataSize) == (if cfg.buddy then p.size else m.dataSize)
          && (cfg.buddy ==> IsPow2(p.size) && |data| <= p.size && cfg.minSize <= p.size)
          && (cfg.buddy ==> p.size == cfg.minSize || p.size < 2 * |data|))
  {
    hide Inv, Legal, After;
    ChoiceFits(cfg, s, m.dataSize, steps, h);
    var r := After(cfg, StartOf(s), m.dataSize, steps);
    Dynamic.OverwriteHere(r.bytes, r.parts[h].position, data);
    hide Dynamic.Overwrite, PlaceAsIs, CeilPow2;
  }

  /** Which hole that was. */
  lemma ChoiceMeans(cfg: Config, s: Store, n: nat, steps: seq<Step>, h: nat)
    requires ConfigOk(cfg) && Inv(cfg, s.parts) && |s.bytes| == cfg.total && LegalChoice(cfg, s, n, steps, h)
    ensures forall i :: 0 <= i < |steps| ==>
      (steps[i].Compaction? <==> !cfg.buddy && KillsSince(steps[..i]) == cfg.frequency)
    ensures var ps, want := After(cfg, StartOf(s), n, steps).parts, Wanted(cfg, n);
      && h < |ps| && ps[h].free && n <= want <= ps[h].size && (!cfg.buddy ==> want == n)
      && (cfg.buddy ==> IsPow2(want) && cfg.minSize <= want && (want == cfg.minSize || want < 2 * n))
      && (!cfg.bestFit ==> forall k :: 0 <= k < h ==> !ps[k].free || ps[k].size < want)
      && (cfg.bestFit ==> forall k :: 0 <= k < |ps| && ps[k].free && want <= ps[k].size ==> ps[h].size <= ps[k].size)
  {
    CompactsExactly(cfg, StartOf(s), n, steps);
    HoleChosen(cfg, After(cfg, StartOf(s), n, steps).parts, Wanted(cfg, n), h);
  }

  lemma SaveFits(cfg: Config, s: Store, m: Message, data: seq<byte>, steps: seq<Step>, h: nat)
    requires ConfigOk(cfg) && Inv(cfg, s.parts) && |s.bytes| == cfg.total && |data| == m.dataSize
    requires LegalSave(cfg, s, m.dataSize, steps, h)
    ensures SaveAsIs(cfg, s, m, data, steps, h) == Save(cfg, s, m, data, steps, h)
  {
    hide Inv, Legal, After;
    ChoiceFits(cfg, s, m.dataSize, steps, h);
    HoleFits(cfg, After(cfg, StartOf(s), m.dataSize, steps).parts, m.dataSize, h);
    PlaceFits(cfg, After(cfg, StartOf(s), m.dataSize, steps).parts, h, m.dataSize);
  }

  lemma HoleFits(cfg: Config, ps: seq<Part>, n: nat, h: nat)
    requires ConfigOk(cfg) && Inv(cfg, ps) && h < |ps| && Reserved(cfg, n) <= ps[h].size
    ensures n <= Reserved(cfg, n) && ps[h].position + Reserved(cfg, n) <= cfg.total
    ensures cfg.buddy ==> IsPow2(ps[h].size) && IsPow2(Reserved(cfg, n))
  {
    InMemory(ps, cfg.total, h);
  }

  lemma PlaceInv(cfg: Config, ps: seq<Part>, h: nat, m: Message, now: nat)
    requires ConfigOk(cfg) && Inv(cfg, ps) && h < |ps| && ps[h].free && 1 <= m.dataSize
    requires Reserved(cfg, m.dataSize) <= ps[h].size
    requires cfg.buddy ==> IsPow2(ps[h].size)
    requires forall p :: p in Occupied(ps) ==> p.message.Some? && p.message.value.id != m.id
    ensures Inv(cfg, Occupy(Place(cfg, ps, h, m.dataSize), h, m, now))
    ensures Occupied(Place(cfg, ps, h, m.dataSize)) == Occupied(ps)
  {
    var want := Reserved(cfg, m.dataSize);
    var q := Place(cfg, ps, h, m.dataSize);
    if cfg.buddy {
      Buddy.SplitInv(cfg, ps, h, want);
      Buddy.SplitOccupied(ps, h, want);
    } else if ps[h].size != want {
      CutLayout(cfg, ps, h, want);
      CutIndex(ps, h, want);
      CutOccupied(ps, h, want);
    }
    forall j | 0 <= j < |q| && j != h && !q[j].free ensures q[j].message.value.id != m.id {
      assert q[j] in Occupied(q);
    }
    OccupyLayout(cfg, q, h, m, now);
    if cfg.buddy {
      Buddy.OccupyCoalesces(cfg, q, h, m, now);
    } else {
      Dynamic.OccupyNeighbours(ps, h, want, m, now);
    }
  }

  /** Which hole is chosen: the first that is free and big enough, or one of the smallest. */
  lemma HoleChosen(cfg: Config, ps: seq<Part>, n: nat, h: nat)
    requires IsHole(cfg, ps, n, h)
    ensures h < |ps| && ps[h].free && n <= ps[h].size
    ensures !cfg.bestFit ==> forall k :: 0 <= k < h ==> !ps[k].free || ps[k].size < n
    ensures cfg.bestFit ==> forall k :: 0 <= k < |ps| && ps[k].free && n <= ps[k].size ==> ps[h].size <= ps[k].size
  {
    forall k | cfg.bestFit && 0 <= k < |ps| && ps[k].free && n <= ps[k].size ensures ps[h].size <= ps[k].size {
      assert CanHold(ps[k], n);
    }
    forall k | !cfg.bestFit && 0 <= k < h ensures !ps[k].free || ps[k].size < n {
      assert !CanHold(ps[k], n);
    }
  }

  lemma ChosenHole(cfg: Config, ps: seq<Part>, n: nat, h: nat)
    requires IsHole(cfg, ps, n, h)
    ensures h < |ps| && ps[h].free && ps[h].size >= n && HasHole(ps, n)
  {
  }

  /** Making room adds no message. */
  lemma {:induction false} RoomOccupied(cfg: Config, r: Room, n: nat, steps: seq<Step>, id: nat)
    requires RoomOk(cfg, r) && Legal(cfg, r, n, steps)
    requires forall p :: p in Occupied(r.parts) ==> p.message.Some? && p.message.value.id != id
    ensures forall p :: p in Occupied(After(cfg, r, n, steps).parts) ==> p.message.Some? && p.message.value.id != id
    decreases |steps|
  {
    if steps != [] {
      var before, st := steps[..|steps| - 1], steps[|steps| - 1];
      RoomOccupied(cfg, r, n, before, id);
      var r' := After(cfg, r, n, before);
      match st
      case Kill(v) => KillOccupied(cfg, r', n, v);
      case Compaction =>
        Dynamic.CompactOccupied(cfg, r'.parts);
        forall p | p in Occupied(Dynamic.Compact(cfg, r'.parts)) ensures p.message.Some? && p.message.value.id != id {
          var k :| 0 <= k < |r'.parts| && !r'.parts[k].free && p == Dynamic.Moved(cfg, r'.parts, k);
          assert r'.parts[k] in Occupied(r'.parts);
        }
    }
  }

  /** What the chosen hole is good for. */
  lemma ReadyToPlace(cfg: Config, ps: seq<Part>, h: nat, m: Message, now: nat)
    requires ConfigOk(cfg) && Inv(cfg, ps) && IsHole(cfg, ps, Wanted(cfg, m.dataSize), h) && 1 <= m.dataSize
    requires Reserved(cfg, m.dataSize) <= ps[h].size
    requires forall p :: p in Occupied(ps) ==> p.message.Some? && p.message.value.id != m.id
    ensures ps[h].free && m.dataSize <= Reserved(cfg, m.dataSize)
    ensures ps[h].position + m.dataSize <= cfg.total && ps[h].start == cfg.base + ps[h].position
    ensures Layout(cfg, ps)
    ensures cfg.buddy ==> Buddy.Shape(cfg, ps) && IsPow2(ps[h].size) && IsPow2(cfg.minSize)
    ensures Inv(cfg, Occupy(Place(cfg, ps, h, m.dataSize), h, m, now))
  {
    HoleFits(cfg, ps, m.dataSize, h);
    PlaceInv(cfg, ps, h, m, now);
  }
}
