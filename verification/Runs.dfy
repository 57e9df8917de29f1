/** Whole runs of the broker's cache: any sequence of saves and replays. */
module Runs {
  import opened Arithmetic
  import opened Partitions
  import opened Protocol
  import opened Cache
  import Buddy
  import Dynamic

  // ---- One save ----

  lemma {:induction false} AfterMessages(cfg: Config, r: Room, n: nat, steps: seq<Step>, log: map<nat, seq<byte>>,
                                         now: nat)
    requires RoomOk(cfg, r) && Legal(cfg, r, n, steps) && Agrees(r.parts, r.bytes, log) && Timely(r.parts, now)
    ensures var r' := After(cfg, r, n, steps); Agrees(r'.parts, r'.bytes, log) && Timely(r'.parts, now)
    decreases |steps|
  {
    if steps != [] {
      var before := steps[..|steps| - 1];
      AfterMessages(cfg, r, n, before, log, now);
      TurnMessages(cfg, After(cfg, r, n, before), n, steps[|steps| - 1], log, now);
    }
  }

  /** Copying a message into a hole leaves the bytes of every other message alone. */
  lemma CopyKeeps(cfg: Config, ps: seq<Part>, bytes: seq<byte>, log: map<nat, seq<byte>>, h: nat, data: seq<byte>,
                  p: Part)
    requires Layout(cfg, ps) && |bytes| == cfg.total && h < |ps| && ps[h].free && |data| <= ps[h].size
    requires ps[h].position + |data| <= |bytes|
    requires p in Occupied(ps) && Keeps(p, bytes, log)
    ensures Keeps(p, Dynamic.Overwrite(bytes, ps[h].position, data), log)
  {
    var k :| 0 <= k < |ps| && ps[k] == p;
    if k < h { Ordered(ps, cfg.total, k, h); }
    if h < k { Ordered(ps, cfg.total, h, k); }
    Dynamic.OverwriteElsewhere(bytes, ps[h].position, data, p.position, p.message.value.dataSize);
  }

  /** The state a save leaves, told from the room that was made for it. */
  lemma CopyIn(cfg: Config, r: Room, log: map<nat, seq<byte>>, m: Message, data: seq<byte>, h: nat, now: nat)
    requires ConfigOk(cfg) && Inv(cfg, r.parts) && |r.bytes| == cfg.total && h < |r.parts| && r.parts[h].free
    requires 1 <= m.dataSize == |data| && Reserved(cfg, m.dataSize) <= r.parts[h].size
    requires Agrees(r.parts, r.bytes, log) && Timely(r.parts, now) && m.id !in log
    ensures r.parts[h].position + |data| <= |r.bytes|
    ensures cfg.buddy ==> IsPow2(r.parts[h].size) && IsPow2(cfg.minSize)
    ensures var ps := Occupy(Place(cfg, r.parts, h, m.dataSize), h, m, now + 1);
      && Inv(cfg, ps) && Timely(ps, now + 1)
      && Agrees(ps, Dynamic.Overwrite(r.bytes, r.parts[h].position, data), log[m.id := data])
      && Entries(cfg, ps) == Entries(cfg, r.parts) + {Entry(Some(m), now + 1)}
  {
    hide Inv, Reserved, CeilPow2;
    HoleFits(cfg, r.parts, m.dataSize, h);
    ConfigPow2(cfg);
    var q := Place(cfg, r.parts, h, m.dataSize);
    var ps := Occupy(q, h, m, now + 1);
    var bytes := Dynamic.Overwrite(r.bytes, r.parts[h].position, data);
    PlaceInv(cfg, r.parts, h, m, now + 1);
    OccupyOccupied(q, h, m, now + 1);
    Dynamic.OverwriteHere(r.bytes, r.parts[h].position, data);
    InvLayout(cfg, r.parts);
    forall p | p in Occupied(ps) ensures Keeps(p, bytes, log[m.id := data]) {
      if p in Occupied(r.parts) { CopyKeeps(cfg, r.parts, r.bytes, log, h, data, p); }
    }
  }

  lemma ConfigPow2(cfg: Config)
    requires ConfigOk(cfg)
    ensures cfg.buddy ==> IsPow2(cfg.minSize)
  {
  }

  /** A save keeps the allocator's invariant and every surviving message's bytes, and stores
      its own bytes; the clock moves by one and the new entry is the only one added. */
  lemma SaveKeeps(cfg: Config, s: Store, log: map<nat, seq<byte>>, m: Message, data: seq<byte>, steps: seq<Step>,
                  h: nat)
    requires StoreOk(cfg, s, log) && m.id !in log && |data| == m.dataSize
    requires LegalSave(cfg, s, m.dataSize, steps, h)
    ensures var s' := Save(cfg, s, m, data, steps, h);
      && StoreOk(cfg, s', log[m.id := data]) && s'.time == s.time + 1
      && Entries(cfg, s'.parts) ==
        Entries(cfg, After(cfg, StartOf(s), m.dataSize, steps).parts) + {Entry(Some(m), s.time + 1)}
  {
    hide Inv, Agrees, Timely, Reserved, Wanted, Place, Entries, Legal, After;
    var r := After(cfg, StartOf(s), m.dataSize, steps);
    AfterMessages(cfg, StartOf(s), m.dataSize, steps, log, s.time);
    CopyIn(cfg, r, log, m, data, h, s.time);
  }

  /** Whatever is cached, a message of any size up to the memory's can be saved, after at
      most as many evictions as there were messages. In dynamic mode this is for messages no
      smaller than the configured minimum. */
  lemma SaveExists(cfg: Config, s: Store, n: nat) returns (steps: seq<Step>, h: nat)
    requires ConfigOk(cfg) && Inv(cfg, s.parts) && |s.bytes| == cfg.total
    requires 1 <= n <= cfg.total && (!cfg.buddy ==> cfg.minSize <= n)
    ensures LegalSave(cfg, s, n, steps, h) && Kills(steps) <= OccupiedCount(s.parts)
  {
    WantedWithin(cfg, n);
    NoSteps(cfg, StartOf(s), n);
    hide Inv, Legal, After, Wanted, CeilPow2, Reserved;
    steps := LoopEnds(cfg, StartOf(s), n, []);
    h := HoleExists(cfg, After(cfg, StartOf(s), n, steps).parts, Wanted(cfg, n));
    ChosenHole(cfg, After(cfg, StartOf(s), n, steps).parts, Wanted(cfg, n), h);
  }

  lemma WantedWithin(cfg: Config, n: nat)
    requires ConfigOk(cfg) && 1 <= n <= cfg.total && (!cfg.buddy ==> cfg.minSize <= n)
    ensures Reserved(cfg, n) == Wanted(cfg, n) <= cfg.total
  {
    if cfg.buddy { CeilWithin(n, cfg.total); }
  }

  lemma CeilWithin(n: nat, total: nat)
    requires IsPow2(total) && 1 <= n <= total
    ensures CeilPow2(n) <= total
  {
    if total < CeilPow2(n) { SmallerPow2(total, CeilPow2(n)); }
  }

  /** The size the code searches for, with its 32-bit round-up. */
  function Searched(cfg: Config, n: Word): nat {
    if cfg.buddy then Max(RoundedWord(n), cfg.minSize) else n
  }

  /** For what fits the memory that is the size the model searches for. */
  lemma SearchedIsWanted(cfg: Config, n: Word)
    requires 1 <= n <= 0x8000_0000
    ensures Searched(cfg, n) == Wanted(cfg, n)
  {
  }

  lemma TooBigForAny(cfg: Config, ps: seq<Part>, n: Word)
    requires ConfigOk(cfg) && Inv(cfg, ps) && n > cfg.total && (cfg.buddy ==> n <= 0x8000_0000)
    ensures !HasHole(ps, Searched(cfg, n))
  {
    forall i | 0 <= i < |ps| ensures !CanHold(ps[i], Searched(cfg, n)) { InMemory(ps, cfg.total, i); }
  }

  /** Above 2^31 the buddy system searches for its smallest block: it takes any free one, and
      the message does not fit into it. */
  lemma HugeFitsAnywhere(cfg: Config, ps: seq<Part>, n: Word)
    requires ConfigOk(cfg) && Inv(cfg, ps) && n > cfg.total && cfg.buddy && n > 0x8000_0000
    ensures HasHole(ps, Searched(cfg, n)) <==> exists i :: 0 <= i < |ps| && ps[i].free
    ensures forall i :: 0 <= i < |ps| ==> ps[i].size < n
  {
    forall i | 0 <= i < |ps| ensures ps[i].size < n { InMemory(ps, cfg.total, i); }
    if i :| 0 <= i < |ps| && ps[i].free { assert CanHold(ps[i], Searched(cfg, n)); }
  }

  /** A message bigger than the memory never finds a partition, however much is evicted, if
      and only if it is not above 2^31 bytes in the buddy system: the guard of save_message
      tells nothing about it. */
  lemma TooBigNeverFits(cfg: Config, n: Word)
    requires ConfigOk(cfg) && n > cfg.total
    ensures (forall ps :: Inv(cfg, ps) ==> !HasHole(ps, Searched(cfg, n))) <==> !cfg.buddy || n <= 0x8000_0000
  {
    if cfg.buddy && n > 0x8000_0000 {
      var ps := [NewPart(0, cfg.base, cfg.total)];
      WholeInv(cfg);
      HugeFitsAnywhere(cfg, ps, n);
      assert ps[0].free;
    } else {
      forall ps | Inv(cfg, ps) ensures !HasHole(ps, Searched(cfg, n)) { TooBigForAny(cfg, ps, n); }
    }
  }

  /** Looking for room for it, the code evicts until nothing is left to evict, and then chooses
      another victim, or compacts, with nothing occupied. */
  lemma {:induction false} TooBigEvictsAll(cfg: Config, r: Room, n: Word, steps: seq<Step>) returns (all: seq<Step>)
    requires RoomOk(cfg, r) && n > cfg.total && (cfg.buddy ==> n <= 0x8000_0000) && Legal(cfg, r, n, steps)
    ensures steps <= all && Legal(cfg, r, n, all)
    ensures !HasOccupied(After(cfg, r, n, all).parts) && !HasHole(After(cfg, r, n, all).parts, Wanted(cfg, n))
    decreases OccupiedCount(After(cfg, r, n, steps).parts), CompactionDue(cfg, After(cfg, r, n, steps))
  {
    var now := After(cfg, r, n, steps);
    SearchedTooBig(cfg, now.parts, n);
    hide Legal, LegalStep, Turn, Wanted;
    if HasOccupied(now.parts) {
      var st := NextWhenOccupied(cfg, now, n);
      Snoc(cfg, r, n, steps, st);
      StepDecreases(cfg, now, n, st);
      all := TooBigEvictsAll(cfg, r, n, steps + [st]);
    } else {
      all := steps;
    }
  }

  lemma NextWhenOccupied(cfg: Config, r: Room, n: nat) returns (st: Step)
    requires HasOccupied(r.parts) && !HasHole(r.parts, Wanted(cfg, n))
    ensures LegalStep(cfg, r, n, st)
  {
    st := Compaction;
    if CompactionDue(cfg, r) == 0 {
      var v := VictimExists(cfg, r.parts);
      st := Kill(v);
    }
  }

  lemma SearchedTooBig(cfg: Config, ps: seq<Part>, n: nat)
    requires ConfigOk(cfg) && Inv(cfg, ps) && n > cfg.total
    ensures !HasHole(ps, Wanted(cfg, n))
  {
    forall i | 0 <= i < |ps| ensures !CanHold(ps[i], Wanted(cfg, n)) { InMemory(ps, cfg.total, i); }
  }

  /** One free partition is a well-formed memory. */
  lemma WholeInv(cfg: Config)
    requires ConfigOk(cfg)
    ensures Inv(cfg, [NewPart(0, cfg.base, cfg.total)])
  {
    if cfg.buddy {
      AlignedZero(cfg.total);
      XorInvolutive(0, cfg.total);
    }
  }

  // ---- Runs ----

  /** A save with the choices that were made for it; or a step of a replay: it asks for the
      time once, and marks the messages it sends as used then, while other replays do the same
      (new_suscription, broker.c:49-56). */
  datatype Op =
    | SaveOp(m: Message, data: seq<byte>, steps: seq<Step>, h: nat)
    | TickOp
    | TouchOp(ids: set<nat>, at: nat)

  function Touch(p: Part, ids: set<nat>, now: nat): Part {
    if !p.free && p.message.Some? && p.message.value.id in ids then p.(accessed := now) else p
  }

  function TouchAll(ps: seq<Part>, ids: set<nat>, now: nat): (r: seq<Part>)
    ensures |r| == |ps| && forall i :: 0 <= i < |ps| ==> r[i] == Touch(ps[i], ids, now)
  {
    if ps == [] then [] else [Touch(ps[0], ids, now)] + TouchAll(ps[1..], ids, now)
  }

  /** Everything ever saved: payloads by id, and entries in the order of saving. */
  datatype Past = Past(log: map<nat, seq<byte>>, hist: seq<Entry>)

  datatype World = World(store: Store, past: Past)

  /** _init_memory: one free partition, bytes as malloc left them. */
  ghost predicate IsInit(cfg: Config, w: World) {
    && ConfigOk(cfg) && |w.store.bytes| == cfg.total && w.store.time == 0
    && w.store.parts == [NewPart(0, cfg.base, cfg.total)]
    && w.past == Past(map[], [])
  }

  ghost predicate WorldOk(cfg: Config, w: World) {
    StoreOk(cfg, w.store, w.past.log)
  }

  ghost predicate LegalOp(cfg: Config, w: World, op: Op)
    requires WorldOk(cfg, w)
  {
    match op
    case SaveOp(m, data, steps, h) =>
      m.id !in w.past.log && |data| == m.dataSize && LegalSave(cfg, w.store, m.dataSize, steps, h)
    case TickOp => true
    case TouchOp(ids, at) => at <= w.store.time
  }

  ghost function Apply(cfg: Config, w: World, op: Op): (w': World)
    requires WorldOk(cfg, w) && LegalOp(cfg, w, op)
    ensures WorldOk(cfg, w')
  {
    var s := w.store;
    match op
    case SaveOp(m, data, steps, h) =>
      SaveKeeps(cfg, s, w.past.log, m, data, steps, h);
      World(Save(cfg, s, m, data, steps, h),
            Past(w.past.log[m.id := data], w.past.hist + [Entry(Some(m), s.time + 1)]))
    case TickOp =>
      w.(store := s.(time := s.time + 1))
    case TouchOp(ids, at) =>
      TouchKeeps(cfg, s, w.past.log, ids, at);
      w.(store := s.(parts := TouchAll(s.parts, ids, at)))
  }

  /** The two lists differ in times only. */
  ghost predicate SameParts(ps: seq<Part>, qs: seq<Part>) {
    |ps| == |qs| && forall i :: 0 <= i < |ps| ==> qs[i] == ps[i].(created := qs[i].created, accessed := qs[i].accessed)
  }

  lemma SameLayout(cfg: Config, ps: seq<Part>, qs: seq<Part>)
    requires Layout(cfg, ps) && SameParts(ps, qs)
    ensures Layout(cfg, qs)
  {
  }

  lemma SameInv(cfg: Config, ps: seq<Part>, qs: seq<Part>)
    requires Inv(cfg, ps) && SameParts(ps, qs)
    ensures Inv(cfg, qs)
  {
    hide Layout;
    SameLayout(cfg, ps, qs);
    if cfg.buddy {
      forall i, j | 0 <= i < |qs| && 0 <= j < |qs| ensures !Buddy.FreeBuddies(qs[i], qs[j]) {
        assert !Buddy.FreeBuddies(ps[i], ps[j]);
      }
    }
  }

  lemma TouchedKeeps(p: Part, ids: set<nat>, now: nat, bytes: seq<byte>, log: map<nat, seq<byte>>)
    requires Keeps(p, bytes, log)
    ensures Keeps(Touch(p, ids, now), bytes, log)
  {
  }

  lemma TouchKeeps(cfg: Config, s: Store, log: map<nat, seq<byte>>, ids: set<nat>, at: nat)
    requires StoreOk(cfg, s, log) && at <= s.time
    ensures StoreOk(cfg, s.(parts := TouchAll(s.parts, ids, at)), log)
  {
    hide Inv, Keeps;
    var t := TouchAll(s.parts, ids, at);
    SameInv(cfg, s.parts, t);
    forall p | p in Occupied(t)
      ensures Keeps(p, s.bytes, log) && p.created <= s.time && p.accessed <= s.time
    {
      var i :| 0 <= i < |t| && t[i] == p;
      assert s.parts[i] in Occupied(s.parts);
      TouchedKeeps(s.parts[i], ids, at, s.bytes, log);
    }
  }

  /** If the lists differ in no message, they cache the same messages; if also in no age, they
      have the same entries. */
  lemma EntriesCarry(cfg: Config, ps: seq<Part>, qs: seq<Part>, e: Entry)
    requires |ps| == |qs| && e in Entries(cfg, ps)
    requires forall i :: 0 <= i < |ps| ==> ps[i].free == qs[i].free && ps[i].message == qs[i].message
    ensures exists at :: Entry(e.message, at) in Entries(cfg, qs)
    ensures (forall i :: 0 <= i < |ps| ==> Age(cfg, ps[i]) == Age(cfg, qs[i])) ==> e in Entries(cfg, qs)
  {
    var p :| p in Occupied(ps) && EntryOf(cfg, p) == e;
    var i :| 0 <= i < |ps| && ps[i] == p;
    assert qs[i] in Occupied(qs);
    assert EntryOf(cfg, qs[i]) in Entries(cfg, qs);
  }

  /** A replay evicts nothing, and changes no creation time. */
  lemma TouchEntries(cfg: Config, s: Store, ids: set<nat>, at: nat)
    ensures forall m :: Caches(cfg, TouchAll(s.parts, ids, at), m) <==> Caches(cfg, s.parts, m)
    ensures !cfg.lru ==> Entries(cfg, TouchAll(s.parts, ids, at)) == Entries(cfg, s.parts)
  {
    var ps, t := s.parts, TouchAll(s.parts, ids, at);
    forall e | e in Entries(cfg, t)
      ensures (exists at :: Entry(e.message, at) in Entries(cfg, ps)) && (!cfg.lru ==> e in Entries(cfg, ps))
    {
      EntriesCarry(cfg, t, ps, e);
    }
    forall e | e in Entries(cfg, ps)
      ensures (exists at :: Entry(e.message, at) in Entries(cfg, t)) && (!cfg.lru ==> e in Entries(cfg, t))
    {
      EntriesCarry(cfg, ps, t, e);
    }
    CachesSame(cfg, ps, t);
    CachesSame(cfg, t, ps);
  }

  lemma CachesSame(cfg: Config, ps: seq<Part>, qs: seq<Part>)
    requires forall e :: e in Entries(cfg, ps) ==> exists at :: Entry(e.message, at) in Entries(cfg, qs)
    ensures forall m :: Caches(cfg, ps, m) ==> Caches(cfg, qs, m)
  {
  }

  /** ops is a run the broker may go through from w. */
  ghost predicate LegalRun(cfg: Config, w: World, ops: seq<Op>)
    requires WorldOk(cfg, w)
    decreases |ops|, 0
  {
    ops == [] || (LegalRun(cfg, w, ops[..|ops| - 1]) && LegalOp(cfg, Run(cfg, w, ops[..|ops| - 1]), ops[|ops| - 1]))
  }

  ghost function Run(cfg: Config, w: World, ops: seq<Op>): (w': World)
    requires WorldOk(cfg, w) && LegalRun(cfg, w, ops)
    ensures WorldOk(cfg, w')
    decreases |ops|, 1
  {
    if ops == [] then w else Apply(cfg, Run(cfg, w, ops[..|ops| - 1]), ops[|ops| - 1])
  }

  lemma InitOk(cfg: Config, w: World)
    requires IsInit(cfg, w)
    ensures WorldOk(cfg, w) && Entries(cfg, w.store.parts) == {}
  {
    WholeInv(cfg);
  }

  /** The messages that may be saved: any size up to the memory's, in dynamic mode from the
      minimum on, each under an id of its own. */
  ghost predicate Savable(cfg: Config, requests: seq<(Message, seq<byte>)>) {
    && (forall k :: 0 <= k < |requests| ==> var (m, data) := requests[k];
          1 <= m.dataSize == |data| <= cfg.total && (!cfg.buddy ==> cfg.minSize <= m.dataSize))
    && forall k, l :: 0 <= k < l < |requests| ==> requests[k].0.id != requests[l].0.id
  }

  /** The run saves those requests, in that order, and nothing else. */
  ghost predicate Saves(ops: seq<Op>, requests: seq<(Message, seq<byte>)>) {
    |ops| == |requests|
    && forall k :: 0 <= k < |ops| ==> ops[k].SaveOp? && (ops[k].m, ops[k].data) == requests[k]
  }

  /** Whatever is to be saved there is a run of the broker that saves it all. */
  lemma {:induction false} AllCanBeSaved(cfg: Config, w: World, requests: seq<(Message, seq<byte>)>)
    returns (ops: seq<Op>)
    requires IsInit(cfg, w) && WorldOk(cfg, w) && Savable(cfg, requests)
    ensures LegalRun(cfg, w, ops) && Saves(ops, requests)
    ensures Logged(Run(cfg, w, ops).past.log, requests)
  {
    var n := |requests| - 1;
    if n < 0 {
      ops := [];
    } else {
      SavablePrefix(cfg, requests);
      var (m, data) := requests[n];
      assert 1 <= m.dataSize == |data| <= cfg.total && (!cfg.buddy ==> cfg.minSize <= m.dataSize);
      hide Run, LegalRun, LegalSave, Apply, ConfigOk, Inv, Savable, Saves, Logged, Agrees, Timely, IsInit;
      var before := AllCanBeSaved(cfg, w, requests[..n]);
      var w' := Run(cfg, w, before);
      NotLogged(cfg, w'.past.log, requests);
      var steps, h := SaveExists(cfg, w'.store, m.dataSize);
      var op := SaveOp(m, data, steps, h);
      RunOneMore(cfg, w, before, op);
      LogGrows(cfg, w', op);
      SavesOneMore(before, op, requests);
      LoggedOneMore(w'.past.log, requests);
      ops := before + [op];
    }
  }

  /** The ids in the log are those of the requests. */
  ghost predicate Logged(log: map<nat, seq<byte>>, requests: seq<(Message, seq<byte>)>) {
    forall id :: id in log <==> exists k :: 0 <= k < |requests| && requests[k].0.id == id
  }

  lemma SavablePrefix(cfg: Config, requests: seq<(Message, seq<byte>)>)
    requires Savable(cfg, requests) && requests != []
    ensures Savable(cfg, requests[..|requests| - 1])
  {
    var before := requests[..|requests| - 1];
    assert forall k :: 0 <= k < |before| ==> before[k] == requests[k];
  }

  lemma NotLogged(cfg: Config, log: map<nat, seq<byte>>, requests: seq<(Message, seq<byte>)>)
    requires Savable(cfg, requests) && requests != [] && Logged(log, requests[..|requests| - 1])
    ensures requests[|requests| - 1].0.id !in log
  {
  }

  lemma SavesOneMore(before: seq<Op>, op: Op, requests: seq<(Message, seq<byte>)>)
    requires requests != [] && Saves(before, requests[..|requests| - 1])
    requires op.SaveOp? && (op.m, op.data) == requests[|requests| - 1]
    ensures Saves(before + [op], requests)
  {
  }

  lemma LoggedOneMore(log: map<nat, seq<byte>>, requests: seq<(Message, seq<byte>)>)
    requires requests != [] && Logged(log, requests[..|requests| - 1])
    ensures Logged(log[requests[|requests| - 1].0.id := requests[|requests| - 1].1], requests)
  {
    var n := |requests| - 1;
    var t := log[requests[n].0.id := requests[n].1];
    forall id | id in t ensures exists k :: 0 <= k < |requests| && requests[k].0.id == id {
      if id in log {
        var k :| 0 <= k < n && requests[..n][k].0.id == id;
        assert requests[k].0.id == id;
      } else {
        assert requests[n].0.id == id;
      }
    }
    forall k | 0 <= k < |requests| ensures requests[k].0.id in t {
      if k < n { assert requests[..n][k] == requests[k]; }
    }
  }

  lemma RunOneMore(cfg: Config, w: World, before: seq<Op>, op: Op)
    requires WorldOk(cfg, w) && LegalRun(cfg, w, before) && LegalOp(cfg, Run(cfg, w, before), op)
    ensures LegalRun(cfg, w, before + [op]) && Run(cfg, w, before + [op]) == Apply(cfg, Run(cfg, w, before), op)
  {
    assert (before + [op])[..|before|] == before;
  }

  lemma LogGrows(cfg: Config, w: World, op: Op)
    requires WorldOk(cfg, w) && LegalOp(cfg, w, op) && op.SaveOp?
    ensures Apply(cfg, w, op).past.log == w.past.log[op.m.id := op.data]
  {
  }

  /** Refinement: after any run from the initial memory, whatever the allocator evicted,
      merged, split or compacted, each cached message's bytes at its partition's place are
      the payload of the save that stored it, and nobody else's. */
  lemma {:induction false} CachedBytes(cfg: Config, w: World, ops: seq<Op>, i: nat)
    requires IsInit(cfg, w) && WorldOk(cfg, w) && LegalRun(cfg, w, ops)
    requires i < |Run(cfg, w, ops).store.parts| && !Run(cfg, w, ops).store.parts[i].free
    ensures var s := Run(cfg, w, ops).store; var p := s.parts[i];
      && p.message.Some?
      && exists k :: 0 <= k < |ops| && ops[k].SaveOp? && ops[k].m == p.message.value
          && p.position + |ops[k].data| <= |s.bytes|
          && s.bytes[p.position..p.position + |ops[k].data|] == ops[k].data
  {
    hide Run, LegalRun, Inv;
    var w' := Run(cfg, w, ops);
    var p := w'.store.parts[i];
    assert p in Occupied(w'.store.parts) && Keeps(p, w'.store.bytes, w'.past.log);
    assert EntryOf(cfg, p) in Entries(cfg, w'.store.parts);
    var k := SavedBy(cfg, w, ops, p.message.value);
  }

  /** Message m is in the cache. */
  ghost predicate Caches(cfg: Config, ps: seq<Part>, m: Message) {
    exists at :: Entry(Some(m), at) in Entries(cfg, ps)
  }

  /** The operation a cached message comes from. */
  lemma {:induction false} SavedBy(cfg: Config, w: World, ops: seq<Op>, m: Message) returns (k: nat)
    requires IsInit(cfg, w) && WorldOk(cfg, w) && LegalRun(cfg, w, ops)
    requires Caches(cfg, Run(cfg, w, ops).store.parts, m)
    ensures k < |ops| && ops[k].SaveOp? && ops[k].m == m && |ops[k].data| == m.dataSize
    ensures m.id in Run(cfg, w, ops).past.log && Run(cfg, w, ops).past.log[m.id] == ops[k].data
    decreases |ops|
  {
    hide Inv, Agrees, Timely, IsHole, Reserved, Wanted, ConfigOk, Save, Turn, Legal, After, Entries, TouchAll, IsInit;
    InitOk(cfg, w);
    var at :| Entry(Some(m), at) in Entries(cfg, Run(cfg, w, ops).store.parts);
    if ops == [] { assert false; }
    var before := ops[..|ops| - 1];
    var op := ops[|ops| - 1];
    var w' := Run(cfg, w, before);
    match op
    case SaveOp(m', data, steps, h) =>
      SaveKeeps(cfg, w'.store, w'.past.log, m', data, steps, h);
      if m == m' {
        k := |ops| - 1;
      } else {
        EntriesShrink(cfg, StartOf(w'.store), m'.dataSize, steps);
        k := SavedBy(cfg, w, before, m);
      }
    case TickOp =>
      k := SavedBy(cfg, w, before, m);
    case TouchOp(ids, at') =>
      TouchEntries(cfg, w'.store, ids, at');
      k := SavedBy(cfg, w, before, m);
  }

  lemma {:induction false} EntriesShrink(cfg: Config, r: Room, n: nat, steps: seq<Step>)
    requires RoomOk(cfg, r) && Legal(cfg, r, n, steps)
    ensures Entries(cfg, After(cfg, r, n, steps).parts) <= Entries(cfg, r.parts)
    decreases |steps|
  {
    if steps != [] {
      EntriesShrink(cfg, r, n, steps[..|steps| - 1]);
      TurnMessages(cfg, After(cfg, r, n, steps[..|steps| - 1]), n, steps[|steps| - 1], map[], 0);
    }
  }

  // ---- First in, first out ----

  ghost predicate Chronological(hist: seq<Entry>, now: nat) {
    && (forall i, j :: 0 <= i < j < |hist| ==> hist[i].at < hist[j].at)
    && (forall i :: 0 <= i < |hist| ==> hist[i].at <= now)
  }

  function Tail(hist: seq<Entry>, k: nat): set<Entry> {
    set j | k <= j < |hist| :: hist[j]
  }

  /** Under FIFO a victim is the oldest message that is left. */
  lemma KillOldest(cfg: Config, r: Room, n: nat, st: Step, hist: seq<Entry>, k: nat, now: nat)
    requires !cfg.lru && RoomOk(cfg, r) && LegalStep(cfg, r, n, st) && st.Kill?
    requires Chronological(hist, now) && k <= |hist| && Entries(cfg, r.parts) == Tail(hist, k)
    ensures k < |hist| && Entries(cfg, Turn(cfg, r, n, st).parts) == Tail(hist, k + 1)
  {
    hide RoomOk, Turn;
    TurnMessages(cfg, r, n, st, map[], 0);
    var e := EntryOf(cfg, r.parts[st.v]);
    assert r.parts[st.v] in Occupied(r.parts);
    assert e in Tail(hist, k);
    var j :| k <= j < |hist| && hist[j] == e;
    assert hist[k] in Entries(cfg, r.parts);
    var p :| p in Occupied(r.parts) && EntryOf(cfg, p) == hist[k];
    var i :| 0 <= i < |r.parts| && r.parts[i] == p;
    assert Age(cfg, r.parts[st.v]) <= Age(cfg, r.parts[i]);
    assert j == k;
    forall x | x in Tail(hist, k + 1) ensures x in Tail(hist, k) && x != hist[k] {
      var l :| k + 1 <= l < |hist| && hist[l] == x;
    }
  }

  /** The turns of one save evict the oldest messages, exactly as many as there were kills;
      and before each of those turns nothing fitted. */
  lemma {:induction false} EvictsPrefix(cfg: Config, r: Room, n: nat, steps: seq<Step>, hist: seq<Entry>, k: nat,
                                        now: nat)
    requires !cfg.lru && RoomOk(cfg, r) && Legal(cfg, r, n, steps)
    requires Chronological(hist, now) && k <= |hist| && Entries(cfg, r.parts) == Tail(hist, k)
    ensures k + Kills(steps) <= |hist|
    ensures Entries(cfg, After(cfg, r, n, steps).parts) == Tail(hist, k + Kills(steps))
    ensures forall i :: 0 <= i < |steps| ==>
      Legal(cfg, r, n, steps[..i]) && !HasHole(After(cfg, r, n, steps[..i]).parts, Wanted(cfg, n))
    decreases |steps|
  {
    hide RoomOk, LegalStep, Turn, HasHole;
    if steps != [] {
      var before := steps[..|steps| - 1];
      var st := steps[|steps| - 1];
      EvictsPrefix(cfg, r, n, before, hist, k, now);
      var now' := After(cfg, r, n, before);
      if st.Kill? {
        KillOldest(cfg, now', n, st, hist, k + Kills(before), now);
      } else {
        TurnMessages(cfg, now', n, st, map[], 0);
      }
      forall i | 0 <= i < |steps|
        ensures Legal(cfg, r, n, steps[..i]) && !HasHole(After(cfg, r, n, steps[..i]).parts, Wanted(cfg, n))
      {
        if i < |before| {
          assert steps[..i] == before[..i];
        } else {
          assert steps[..i] == before;
          StuckBefore(cfg, now', n, st);
        }
      }
    }
  }

  lemma StuckBefore(cfg: Config, r: Room, n: nat, st: Step)
    requires RoomOk(cfg, r) && LegalStep(cfg, r, n, st)
    ensures !HasHole(r.parts, Wanted(cfg, n))
  {
  }

  /** Under FIFO the cached messages are, at every point of every run, exactly the last ones
      that were saved. */
  lemma {:induction false} CachedIsSuffix(cfg: Config, w: World, ops: seq<Op>) returns (k: nat)
    requires !cfg.lru && IsInit(cfg, w) && WorldOk(cfg, w) && LegalRun(cfg, w, ops)
    ensures var w' := Run(cfg, w, ops);
      && Chronological(w'.past.hist, w'.store.time)
      && k <= |w'.past.hist| && Entries(cfg, w'.store.parts) == Tail(w'.past.hist, k)
    decreases |ops|
  {
    hide Inv, Agrees, Timely, IsHole, Reserved, Wanted, ConfigOk, Save, Turn, Legal, After, Entries, TouchAll, IsInit,
      Tail;
    InitOk(cfg, w);
    if ops == [] {
      k := 0;
      NoHistory(cfg, w);
    } else {
      var before := ops[..|ops| - 1];
      k := CachedIsSuffix(cfg, w, before);
      var w' := Run(cfg, w, before);
      match ops[|ops| - 1]
      case SaveOp(m, data, steps, h) =>
        EvictsPrefix(cfg, StartOf(w'.store), m.dataSize, steps, w'.past.hist, k, w'.store.time);
        SaveKeeps(cfg, w'.store, w'.past.log, m, data, steps, h);
        k := k + Kills(steps);
        TailSnoc(w'.past.hist, k, Entry(Some(m), w'.store.time + 1));
      case TickOp =>
      case TouchOp(ids, at) =>
        TouchEntries(cfg, w'.store, ids, at);
    }
  }

  lemma NoHistory(cfg: Config, w: World)
    requires IsInit(cfg, w)
    ensures Chronological(w.past.hist, w.store.time) && w.past.hist == [] && Tail(w.past.hist, 0) == {}
  {
  }

  lemma TailSnoc(hist: seq<Entry>, k: nat, e: Entry)
    requires k <= |hist|
    ensures Tail(hist + [e], k) == Tail(hist, k) + {e}
  {
    var h := hist + [e];
    forall x | x in Tail(hist, k) + {e} ensures x in Tail(h, k) {
      if x in Tail(hist, k) {
        var j :| k <= j < |hist| && hist[j] == x;
        assert h[j] == x;
      } else {
        assert h[|hist|] == x;
      }
    }
  }

  // ---- Least recently used ----

  /** Whatever the replacement algorithm goes by, what one save evicts is no younger than
      what it keeps. */
  lemma {:induction false} EvictsLeast(cfg: Config, r: Room, n: nat, steps: seq<Step>, gone: Entry, kept: Entry)
    requires RoomOk(cfg, r) && Legal(cfg, r, n, steps)
    requires gone in Entries(cfg, r.parts) && gone !in Entries(cfg, After(cfg, r, n, steps).parts)
    requires kept in Entries(cfg, After(cfg, r, n, steps).parts)
    ensures gone.at <= kept.at
    decreases |steps|
  {
    hide RoomOk, Turn, Entries;
    if steps == [] { assert false; }
    var before, st := steps[..|steps| - 1], steps[|steps| - 1];
    var r' := After(cfg, r, n, before);
    TurnMessages(cfg, r', n, st, map[], 0);
    if gone in Entries(cfg, r'.parts) {
      OlderThan(cfg, r', n, st.v, kept);
    } else {
      EvictsLeast(cfg, r, n, before, gone, kept);
    }
  }

  lemma OlderThan(cfg: Config, r: Room, n: nat, v: nat, e: Entry)
    requires LegalStep(cfg, r, n, Kill(v)) && e in Entries(cfg, r.parts)
    ensures Age(cfg, r.parts[v]) <= e.at
  {
    var p :| p in Occupied(r.parts) && EntryOf(cfg, p) == e;
    var i :| 0 <= i < |r.parts| && r.parts[i] == p;
  }

  /** When each message was last saved or replayed in a run. */
  ghost function LastUse(cfg: Config, w: World, ops: seq<Op>): map<nat, nat>
    requires WorldOk(cfg, w) && LegalRun(cfg, w, ops)
    decreases |ops|
  {
    if ops == [] then map[]
    else
      var before := LastUse(cfg, w, ops[..|ops| - 1]);
      match ops[|ops| - 1]
      case SaveOp(m, data, steps, h) => before[m.id := Run(cfg, w, ops[..|ops| - 1]).store.time + 1]
      case TickOp => before
      case TouchOp(ids, at) => map k | k in before :: if k in ids then at else before[k]
  }

  ghost predicate UsedAt(ps: seq<Part>, uses: map<nat, nat>) {
    forall p :: p in Occupied(ps) ==>
      p.message.Some? && p.message.value.id in uses && p.accessed == uses[p.message.value.id]
  }

  /** The access time LRU sorts by is the time of the message's last use in the run. */
  lemma {:induction false} AccessIsLastUse(cfg: Config, w: World, ops: seq<Op>)
    requires IsInit(cfg, w) && WorldOk(cfg, w) && LegalRun(cfg, w, ops)
    ensures UsedAt(Run(cfg, w, ops).store.parts, LastUse(cfg, w, ops))
    decreases |ops|
  {
    hide Inv, IsHole, Reserved, Wanted, ConfigOk, Legal, After, LegalRun, Place, Keeps, Timely, TouchAll;
    if ops != [] {
      var before := ops[..|ops| - 1];
      RunSplit(cfg, w, ops);
      var w', uses := Run(cfg, w, before), LastUse(cfg, w, before);
      AccessIsLastUse(cfg, w, before);
      match ops[|ops| - 1]
      case SaveOp(m, data, steps, h) =>
        SaveUses(cfg, w'.store, w'.past.log, m, data, steps, h, uses);
      case TickOp =>
      case TouchOp(ids, at) =>
        TouchUses(w'.store.parts, ids, at, uses);
    }
  }

  lemma RunSplit(cfg: Config, w: World, ops: seq<Op>)
    requires WorldOk(cfg, w) && LegalRun(cfg, w, ops) && ops != []
    ensures LegalRun(cfg, w, ops[..|ops| - 1])
    ensures LegalOp(cfg, Run(cfg, w, ops[..|ops| - 1]), ops[|ops| - 1])
  {
  }

  lemma TouchUses(ps: seq<Part>, ids: set<nat>, now: nat, uses: map<nat, nat>)
    requires UsedAt(ps, uses)
    ensures UsedAt(TouchAll(ps, ids, now), map k | k in uses :: if k in ids then now else uses[k])
  {
    var t := TouchAll(ps, ids, now);
    forall p | p in Occupied(t)
      ensures p.message.Some? && p.message.value.id in uses
      ensures p.accessed == if p.message.value.id in ids then now else uses[p.message.value.id]
    {
      var i :| 0 <= i < |t| && t[i] == p;
      assert ps[i] in Occupied(ps);
    }
  }

  lemma {:induction false} AfterUses(cfg: Config, r: Room, n: nat, steps: seq<Step>, uses: map<nat, nat>)
    requires RoomOk(cfg, r) && Legal(cfg, r, n, steps) && UsedAt(r.parts, uses)
    ensures UsedAt(After(cfg, r, n, steps).parts, uses)
    decreases |steps|
  {
    hide RoomOk, Turn;
    if steps != [] {
      var before, st := steps[..|steps| - 1], steps[|steps| - 1];
      AfterUses(cfg, r, n, before, uses);
      TurnUses(cfg, After(cfg, r, n, before), n, st, uses);
    }
  }

  lemma TurnUses(cfg: Config, r: Room, n: nat, st: Step, uses: map<nat, nat>)
    requires RoomOk(cfg, r) && LegalStep(cfg, r, n, st) && UsedAt(r.parts, uses)
    ensures UsedAt(Turn(cfg, r, n, st).parts, uses)
  {
    match st
    case Kill(v) => KillOccupied(cfg, r, n, v);
    case Compaction =>
      var ps := r.parts;
      Dynamic.CompactOccupied(cfg, ps);
      forall p | p in Occupied(Dynamic.Compact(cfg, ps))
        ensures p.message.Some? && p.message.value.id in uses && p.accessed == uses[p.message.value.id]
      {
        var k :| 0 <= k < |ps| && !ps[k].free && p == Dynamic.Moved(cfg, ps, k);
        assert ps[k] in Occupied(ps);
      }
  }

  lemma SaveUses(cfg: Config, s: Store, log: map<nat, seq<byte>>, m: Message, data: seq<byte>, steps: seq<Step>,
                 h: nat, uses: map<nat, nat>)
    requires StoreOk(cfg, s, log) && m.id !in log && |data| == m.dataSize
    requires LegalSave(cfg, s, m.dataSize, steps, h) && UsedAt(s.parts, uses)
    ensures UsedAt(Save(cfg, s, m, data, steps, h).parts, uses[m.id := s.time + 1])
  {
    hide Inv, Legal, After, Place, Reserved, Wanted, Timely, UsedAt;
    var r := After(cfg, StartOf(s), m.dataSize, steps);
    AfterUses(cfg, StartOf(s), m.dataSize, steps, uses);
    AfterMessages(cfg, StartOf(s), m.dataSize, steps, log, s.time);
    HoleFits(cfg, r.parts, m.dataSize, h);
    PlaceInv(cfg, r.parts, h, m, s.time + 1);
    var q := Place(cfg, r.parts, h, m.dataSize);
    OccupyOccupied(q, h, m, s.time + 1);
    UsesPlus(r.parts, Occupy(q, h, m, s.time + 1), uses, m, s.time + 1, Occupy(q, h, m, s.time + 1)[h]);
  }

  lemma UsesPlus(ps: seq<Part>, qs: seq<Part>, uses: map<nat, nat>, m: Message, now: nat, p: Part)
    requires UsedAt(ps, uses) && Occupied(qs) == Occupied(ps) + {p}
    requires p.message == Some(m) && p.accessed == now
    requires forall q :: q in Occupied(ps) && q.message.Some? ==> q.message.value.id != m.id
    ensures UsedAt(qs, uses[m.id := now])
  {
  }

  /** Under LRU, in any run, whatever message a save evicts was last used no later than every
      message it keeps. */
  lemma EvictsLeastUsed(cfg: Config, w: World, ops: seq<Op>, gone: Message, kept: Message)
    requires cfg.lru && IsInit(cfg, w) && WorldOk(cfg, w) && LegalRun(cfg, w, ops)
    requires ops != [] && ops[|ops| - 1].SaveOp?
    requires LegalRun(cfg, w, ops[..|ops| - 1]) && Caches(cfg, Run(cfg, w, ops[..|ops| - 1]).store.parts, gone)
    requires !Caches(cfg, Run(cfg, w, ops).store.parts, gone)
    requires Caches(cfg, Run(cfg, w, ops).store.parts, kept) && kept != ops[|ops| - 1].m
    ensures var uses := LastUse(cfg, w, ops[..|ops| - 1]);
      gone.id in uses && kept.id in uses && uses[gone.id] <= uses[kept.id]
  {
    hide Inv, Agrees, Timely, IsHole, Reserved, Wanted, ConfigOk, Save, Legal, After, Entries, IsInit, UsedAt, LastUse;
    RunSplit(cfg, w, ops);
    var before := ops[..|ops| - 1];
    var s, past := Run(cfg, w, before).store, Run(cfg, w, before).past;
    var SaveOp(m, data, steps, h) := ops[|ops| - 1];
    SaveKeeps(cfg, s, past.log, m, data, steps, h);
    EntriesShrink(cfg, StartOf(s), m.dataSize, steps);
    AccessIsLastUse(cfg, w, before);
    var a :| Entry(Some(gone), a) in Entries(cfg, s.parts);
    var b :| Entry(Some(kept), b) in Entries(cfg, Run(cfg, w, ops).store.parts);
    EvictsLeast(cfg, StartOf(s), m.dataSize, steps, Entry(Some(gone), a), Entry(Some(kept), b));
    UsedEntry(cfg, s.parts, LastUse(cfg, w, before), gone, a);
    UsedEntry(cfg, s.parts, LastUse(cfg, w, before), kept, b);
  }

  lemma UsedEntry(cfg: Config, ps: seq<Part>, uses: map<nat, nat>, m: Message, at: nat)
    requires cfg.lru && UsedAt(ps, uses) && Entry(Some(m), at) in Entries(cfg, ps)
    ensures m.id in uses && uses[m.id] == at
  {
  }

  // ---- Reachable states ----

  /** What holds of the buddy system's memory at every point of every run. */
  lemma BuddyStates(cfg: Config, w: World, ops: seq<Op>)
    requires cfg.buddy && IsInit(cfg, w) && WorldOk(cfg, w) && LegalRun(cfg, w, ops)
    ensures var ps := Run(cfg, w, ops).store.parts;
      && Tiling(ps, cfg.total)
      && (forall i :: 0 <= i < |ps| ==>
        IsPow2(ps[i].size) && ps[i].position % ps[i].size == 0 && ps[i].start - cfg.base == ps[i].position)
      && (forall i, j :: 0 <= i < |ps| && 0 <= j < |ps| && ps[i].free && ps[j].free && ps[i].size == ps[j].size
            ==> ps[j].position != Xor(ps[i].position, ps[i].size))
  {
    hide LegalRun, Run;
    var ps := Run(cfg, w, ops).store.parts;
    forall i | 0 <= i < |ps| ensures ps[i].position % ps[i].size == 0 {
      AlignedIsMultiple(ps[i].position, ps[i].size);
    }
    forall i, j | 0 <= i < |ps| && 0 <= j < |ps| && ps[i].free && ps[j].free && ps[i].size == ps[j].size
      ensures ps[j].position != Xor(ps[i].position, ps[i].size)
    {
      assert !Buddy.FreeBuddies(ps[i], ps[j]);
    }
  }

  /** A buddy block is the configured minimum or smaller than twice its message. */
  lemma BuddyWaste(cfg: Config, n: nat)
    requires cfg.buddy && 1 <= n
    ensures n <= Reserved(cfg, n) && (Reserved(cfg, n) == cfg.minSize || Reserved(cfg, n) < 2 * n)
  {
  }

  // ---- Messages smaller than the minimum, in dynamic mode ----

  /** The hole is searched with the message's own size but cut at the configured minimum: the
      partitions still tile the memory if and only if the hole found is not below the
      minimum. */
  lemma CutAsIsTiles(cfg: Config, ps: seq<Part>, h: nat, n: nat)
    requires ConfigOk(cfg) && !cfg.buddy && Inv(cfg, ps) && 1 <= n <= cfg.total && IsHole(cfg, ps, Wanted(cfg, n), h)
    ensures Tiling(PlaceAsIs(cfg, ps, h, n), cfg.total) <==> cfg.minSize <= ps[h].size
  {
    InMemory(ps, cfg.total, h);
    var size := Max(n, cfg.minSize);
    if size < ps[h].size {
      CutTiling(ps, cfg.total, h, size);
      TimesOnly(Cut(ps, h, size), PlaceAsIs(cfg, ps, h, n), cfg.total);
    } else if ps[h].size < size {
      Overrun(ps, cfg.total, h, PlaceAsIs(cfg, ps, h, n));
    }
  }

  /** So a save leaves a well-formed memory if and only if the hole it found is not below the
      minimum. */
  lemma SavedWellExactly(cfg: Config, s: Store, m: Message, data: seq<byte>, steps: seq<Step>, h: nat)
    requires ConfigOk(cfg) && Inv(cfg, s.parts) && |s.bytes| == cfg.total && |data| == m.dataSize
    requires forall p :: p in Occupied(s.parts) ==> p.message.Some? && p.message.value.id != m.id
    requires LegalChoice(cfg, s, m.dataSize, steps, h)
    ensures Inv(cfg, SaveAsIs(cfg, s, m, data, steps, h).parts) <==> LegalSave(cfg, s, m.dataSize, steps, h)
  {
    hide Inv, Legal, After;
    var ps := After(cfg, StartOf(s), m.dataSize, steps).parts;
    ChoiceFits(cfg, s, m.dataSize, steps, h);
    if LegalSave(cfg, s, m.dataSize, steps, h) {
      RoomOccupied(cfg, StartOf(s), m.dataSize, steps, m.id);
      PlaceFits(cfg, ps, h, m.dataSize);
      PlaceInv(cfg, ps, h, m, s.time + 1);
    } else {
      CutAsIsTiles(cfg, ps, h, m.dataSize);
      OccupiedTiles(PlaceAsIs(cfg, ps, h, m.dataSize), cfg.total, h, m, s.time + 1);
      InvTiles(cfg, SaveAsIs(cfg, s, m, data, steps, h).parts);
    }
  }

  lemma OccupiedTiles(ps: seq<Part>, total: nat, h: nat, m: Message, now: nat)
    requires h < |ps|
    ensures Tiling(Occupy(ps, h, m, now), total) <==> Tiling(ps, total)
  {
    var o := Occupy(ps, h, m, now);
    if Tiling(o, total) { TimesOnly(o, ps, total); }
    if Tiling(ps, total) { TimesOnly(ps, o, total); }
  }

  lemma InvTiles(cfg: Config, ps: seq<Part>)
    ensures Inv(cfg, ps) ==> Tiling(ps, cfg.total)
  {
  }

  lemma TimesOnly(ps: seq<Part>, qs: seq<Part>, total: nat)
    requires Tiling(ps, total) && |ps| == |qs|
    requires forall i :: 0 <= i < |ps| ==> ps[i].position == qs[i].position && ps[i].size == qs[i].size
    ensures Tiling(qs, total)
  {
    assert forall i, j :: 0 <= i < |ps| && j == i + 1 && j < |ps| ==> ps[i].position + ps[i].size == ps[j].position;
  }

  lemma Overrun(ps: seq<Part>, total: nat, h: nat, c: seq<Part>)
    requires Tiling(ps, total) && h < |ps| && |c| == |ps| + 1
    requires c[h + 1].position + c[h + 1].size == ps[h].position + ps[h].size + WORD
    requires c[h + 2..] == ps[h + 1..]
    ensures !Tiling(c, total)
  {
    if h + 1 < |ps| {
      assert c[h + 2] == c[h + 2..][0] == ps[h + 1..][0] == ps[h + 1];
      assert ps[h].position + ps[h].size == ps[h + 1].position;
      var i, j := h + 1, h + 2;
      assert c[i].position + c[i].size != c[j].position;
    }
  }

  /** A memory of 10 bytes with minimum 4, from the start: a message of 8 bytes is saved and
      leaves a hole of 2, which a message of 1 byte is given; then the partitions overrun the
      memory. */
  lemma SmallMessageOverruns() returns (cfg: Config, w: World, ops: seq<Op>)
    ensures !cfg.buddy && ConfigOk(cfg) && IsInit(cfg, w) && WorldOk(cfg, w) && LegalRun(cfg, w, ops)
    ensures var ps := Run(cfg, w, ops).store.parts;
      |ps| == 2 && IsHole(cfg, ps, Wanted(cfg, 1), 1) && !Tiling(PlaceAsIs(cfg, ps, 1, 1), cfg.total)
  {
    cfg := Config(false, 0, 10, 4, false, false, 1);
    w := World(Store([NewPart(0, 0, 10)], seq(10, _ => 0), 0), Past(map[], []));
    InitOk(cfg, w);
    var m := Message(GET, 1, 0, 8);
    ops := [SaveOp(m, seq(8, _ => 0), [], 0)];
    FirstSave(cfg, w, m, ops);
    var ps := Run(cfg, w, ops).store.parts;
    CutAsIsTiles(cfg, ps, 1, 1);
  }

  lemma FirstSave(cfg: Config, w: World, m: Message, ops: seq<Op>)
    requires cfg == Config(false, 0, 10, 4, false, false, 1) && IsInit(cfg, w) && WorldOk(cfg, w)
    requires m.dataSize == 8 && ops == [SaveOp(m, seq(8, _ => 0), [], 0)]
    ensures LegalRun(cfg, w, ops)
    ensures Run(cfg, w, ops).store.parts == [Part(0, 0, 8, false, 1, 1, Some(m)), NewPart(8, 8, 2)]
  {
    assert ops[..0] == [] && LegalRun(cfg, w, []);
    NoSteps(cfg, StartOf(w.store), 8);
    assert CanHold(w.store.parts[0], 8);
    assert LegalOp(cfg, w, ops[0]);
    assert LegalRun(cfg, w, ops);
    assert Run(cfg, w, ops) == Apply(cfg, w, ops[0]);
    assert Place(cfg, w.store.parts, 0, 8) == [Part(0, 0, 8, true, NEVER, NEVER, None), NewPart(8, 8, 2)];
  }
}
