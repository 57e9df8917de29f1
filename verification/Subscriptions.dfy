/** The broker's own lists behind Replays.dfy: who is subscribed to each queue and who has been
    notified of each message (broker/src/subscribers.c), the cached messages a new subscriber is
    sent (messages_from_operation of mem.c) and the sending (broker.c). */
module Subscriptions {
  import opened Protocol
  import opened Partitions
  import opened Replays
  import opened Memory
  import Runs
  import Cache

  /** Subscriber of broker/include; a reconnection updates its socket in place. */
  class Client {
    const who: Subscriber
    var socket: int

    constructor (process: nat, id: nat, socket: int)
      ensures who == Subscriber(process, id) && this.socket == socket
    {
      who := Replays.Subscriber.Subscriber(process, id);
      this.socket := socket;
    }
  }

  function Whos(clients: seq<Client>): (r: seq<Subscriber>)
    ensures |r| == |clients| && forall i :: 0 <= i < |r| ==> r[i] == clients[i].who
  {
    if clients == [] then [] else Whos(clients[..|clients| - 1]) + [clients[|clients| - 1].who]
  }

  function ByWho(subscribers: map<Operation, seq<Client>>): map<Operation, seq<Subscriber>> {
    map op | op in subscribers :: Whos(subscribers[op])
  }

  lemma OneMore(subscribers: map<Operation, seq<Client>>, op: Operation, clients: seq<Client>, c: Client)
    requires clients == if op in subscribers then subscribers[op] else []
    ensures ByWho(subscribers[op := clients + [c]]) == ByWho(subscribers)[op := Whos(clients) + [c.who]]
    ensures Whos(clients) == if op in ByWho(subscribers) then ByWho(subscribers)[op] else []
  {
    assert (clients + [c])[..|clients|] == clients;
  }

  lemma AlreadyThere(subscribers: map<Operation, seq<Client>>, op: Operation, i: nat)
    requires op in subscribers && i < |subscribers[op]|
    ensures op in ByWho(subscribers) && subscribers[op][i].who in ByWho(subscribers)[op]
  {
    assert Whos(subscribers[op])[i] == subscribers[op][i].who;
  }

  lemma NotThere(subscribers: map<Operation, seq<Client>>, op: Operation, who: Subscriber)
    requires op in subscribers ==> forall j :: 0 <= j < |subscribers[op]| ==> subscribers[op][j].who != who
    ensures op in ByWho(subscribers) ==> who !in ByWho(subscribers)[op]
  {
  }

  // ---- What is cached ----

  /** cache gives the queue of every occupied partition's message, and of nothing else. */
  ghost predicate CacheIs(cache: map<nat, Operation>, ps: seq<Part>) {
    && (forall i :: 0 <= i < |ps| && !ps[i].free ==>
          && ps[i].message.Some? && ps[i].message.value.id in cache
          && cache[ps[i].message.value.id] == ps[i].message.value.operation)
    && (forall id :: id in cache ==>
      exists i :: 0 <= i < |ps| && !ps[i].free && ps[i].message.Some? && ps[i].message.value.id == id)
  }

  /** Partition p has a message of the queue the subscriber has not been notified of. */
  predicate IsSent(s: State, p: Part, op: Operation, who: Subscriber) {
    && !p.free && p.message.Some? && p.message.value.operation == op
    && !Replays.WasNotified(s, p.message.value.id, who)
  }

  /** ids are those of the messages to send among the first n partitions. */
  ghost predicate IdsOf(s: State, ps: seq<Part>, op: Operation, who: Subscriber, n: nat, ids: seq<nat>)
    requires n <= |ps|
  {
    && Increasing(ids)
    && (forall i :: 0 <= i < n && IsSent(s, ps[i], op, who) ==> ps[i].message.value.id in ids)
    && (forall id :: id in ids ==> exists i :: 0 <= i < n && IsSent(s, ps[i], op, who) && ps[i].message.value.id == id)
  }

  lemma NothingFound(s: State, ps: seq<Part>, op: Operation, who: Subscriber)
    ensures IdsOf(s, ps, op, who, 0, [])
  {
  }

  lemma IdsIncrease(s: State, ps: seq<Part>, op: Operation, who: Subscriber, n: nat, ids: seq<nat>)
    requires n <= |ps| && IdsOf(s, ps, op, who, n, ids)
    ensures Increasing(ids)
  {
  }

  lemma AllFound(s: State, ps: seq<Part>, op: Operation, who: Subscriber, ids: seq<nat>)
    requires CacheIs(s.cache, ps) && IdsOf(s, ps, op, who, |ps|, ids)
    ensures ToSend(s, op, who, ids)
  {
    hide Replays.WasNotified, Increasing;
    forall id | id in s.cache && s.cache[id] == op && !Replays.WasNotified(s, id, who) ensures id in ids {
      var i :| 0 <= i < |ps| && !ps[i].free && ps[i].message.Some? && ps[i].message.value.id == id;
      assert IsSent(s, ps[i], op, who);
    }
  }

  lemma OneMoreFound(s: State, ps: seq<Part>, op: Operation, who: Subscriber, n: nat, ids: seq<nat>, more: seq<nat>)
    requires n < |ps| && IdsOf(s, ps, op, who, n, ids) && IsSent(s, ps[n], op, who)
    requires Increasing(more) && forall id :: id in more <==> id in ids || id == ps[n].message.value.id
    ensures IdsOf(s, ps, op, who, n + 1, more)
  {
    hide IsSent, Increasing;
  }

  lemma OneNotFound(s: State, ps: seq<Part>, op: Operation, who: Subscriber, n: nat, ids: seq<nat>)
    requires n < |ps| && IdsOf(s, ps, op, who, n, ids) && !IsSent(s, ps[n], op, who)
    ensures IdsOf(s, ps, op, who, n + 1, ids)
  {
    hide IsSent, Increasing;
  }

  lemma NotYetFound(s: State, ps: seq<Part>, op: Operation, who: Subscriber, n: nat, ids: seq<nat>)
    requires n < |ps| && DistinctIds(ps) && IdsOf(s, ps, op, who, n, ids) && IsSent(s, ps[n], op, who)
    ensures ps[n].message.value.id !in ids
  {
    hide Replays.WasNotified, Increasing;
    assert forall i :: 0 <= i < n && IsSent(s, ps[i], op, who) ==> ps[i].message.value.id != ps[n].message.value.id;
  }

  // ---- In order of id ----

  /** Where list_sort puts one more id. */
  function SortedPlace(ids: seq<nat>, id: nat): (k: nat)
    ensures k <= |ids| && (k > 0 ==> ids[k - 1] < id) && forall j :: k <= j < |ids| ==> ids[j] >= id
  {
    if ids == [] || ids[|ids| - 1] < id then |ids| else SortedPlace(ids[..|ids| - 1], id)
  }

  lemma InsertedIs(ids: seq<nat>, id: nat)
    requires Increasing(ids) && id !in ids
    ensures var r := InsertAt(ids, SortedPlace(ids, id), id);
      Increasing(r) && forall k :: k in r <==> k in ids || k == id
  {
    var k := SortedPlace(ids, id);
    assert forall j :: k <= j < |ids| ==> ids[j] in ids;
    hide SortedPlace;
    InsertedAt(ids, k, id);
    InsertPoints(ids, k, id);
  }

  lemma InsertedAt(ids: seq<nat>, k: nat, id: nat)
    requires Increasing(ids) && k <= |ids| && (k > 0 ==> ids[k - 1] < id) && forall j :: k <= j < |ids| ==> ids[j] > id
    ensures Increasing(InsertAt(ids, k, id))
  {
    var r := InsertAt(ids, k, id);
    forall i, j | 0 <= i < j < |r| ensures r[i] < r[j] {
      assert r[i] == if i < k then ids[i] else if i == k then id else ids[i - 1];
      assert r[j] == if j < k then ids[j] else if j == k then id else ids[j - 1];
      assert i < k ==> ids[i] <= ids[k - 1];
    }
  }

  /** The order in which a new subscriber is sent its messages depends on nothing but which
      they are. */
  lemma {:induction false} OneOrder(a: seq<nat>, b: seq<nat>)
    requires Increasing(a) && Increasing(b) && forall id :: id in a <==> id in b
    ensures a == b
  {
    if a == [] {
      if b != [] { AlsoSome(b, a); }
    } else {
      AlsoSome(a, b);
      SameFirst(a, b);
      assert forall id :: id in a[1..] <==> id in b[1..] by {
        NotFirst(a);
        NotFirst(b);
      }
      OneOrder(a[1..], b[1..]);
      assert a == [a[0]] + a[1..] && b == [b[0]] + b[1..];
    }
  }

  lemma AlsoSome(a: seq<nat>, b: seq<nat>)
    requires a != [] && forall id :: id in a ==> id in b
    ensures b != []
  {
    assert a[0] in a;
  }

  lemma SameFirst(a: seq<nat>, b: seq<nat>)
    requires Increasing(a) && Increasing(b) && a != [] && b != [] && forall id :: id in a <==> id in b
    ensures a[0] == b[0]
  {
    assert a[0] in b && b[0] in a;
  }

  lemma NotFirst(a: seq<nat>)
    requires Increasing(a) && a != []
    ensures forall id :: id in a[1..] <==> id in a && id != a[0]
  {
    assert a == [a[0]] + a[1..];
  }

  // ---- Marking as used ----

  function SetOf(ids: seq<nat>): set<nat> { set id | id in ids }

  lemma NoneInSet()
    ensures SetOf([]) == {}
  {
  }

  lemma OneMoreInSet(ids: seq<nat>, id: nat)
    ensures SetOf(ids + [id]) == SetOf(ids) + {id}
  {
  }

  /** Marking one after the other is marking all. */
  lemma TouchTwice(ps: seq<Part>, a: set<nat>, b: set<nat>, now: nat)
    ensures Runs.TouchAll(Runs.TouchAll(ps, a, now), b, now) == Runs.TouchAll(ps, a + b, now)
    ensures Runs.TouchAll(ps, {}, now) == ps
  {
    assert forall i :: 0 <= i < |ps| ==> Runs.Touch(Runs.Touch(ps[i], a, now), b, now) == Runs.Touch(ps[i], a + b, now);
  }

  lemma CacheTouched(cache: map<nat, Operation>, ps: seq<Part>, ids: set<nat>, now: nat)
    requires CacheIs(cache, ps)
    ensures CacheIs(cache, Runs.TouchAll(ps, ids, now))
  {
    var t := Runs.TouchAll(ps, ids, now);
    assert forall i :: 0 <= i < |ps| ==> t[i].free == ps[i].free && t[i].message == ps[i].message;
    forall id | id in cache ensures exists i ::
      0 <= i < |t| && !t[i].free && t[i].message.Some? && t[i].message.value.id == id {
      var i :| 0 <= i < |ps| && !ps[i].free && ps[i].message.Some? && ps[i].message.value.id == id;
      assert !t[i].free;
    }
  }

  ghost function Marked(w: Runs.World, ids: set<nat>, now: nat): Runs.World {
    w.(store := w.store.(parts := Runs.TouchAll(w.store.parts, ids, now)))
  }

  ghost function Ticked(w: Runs.World): Runs.World {
    w.(store := w.store.(time := w.store.time + 1))
  }

  lemma NothingMarked(w: Runs.World, now: nat)
    ensures Marked(w, {}, now) == w
  {
    TouchTwice(w.store.parts, {}, {}, now);
  }

  lemma MarkedTwice(w: Runs.World, a: set<nat>, b: set<nat>, now: nat)
    ensures Marked(Marked(w, a, now), b, now) == Marked(w, a + b, now)
  {
    TouchTwice(w.store.parts, a, b, now);
  }

  // ---- What a replay has sent ----

  /** t is s after the thread has sent those messages, the next it had to. */
  ghost predicate SentAll(s: State, t: State, ids: seq<nat>, who: Subscriber, acknowledged: set<nat>, thread: nat) {
    && t.cache == s.cache && t.publishing == s.publishing
    && thread in s.replays && thread in t.replays && t.replays - {thread} == s.replays - {thread}
    && t.replays[thread].subscriber == who && ids + t.replays[thread].pending == s.replays[thread].pending
    && forall id: nat, w: Subscriber ::
        WasNotified(t, id, w) <==> WasNotified(s, id, w) || (w == who && id in ids && id in acknowledged)
  }

  lemma NothingSent(s: State, who: Subscriber, acknowledged: set<nat>, thread: nat)
    requires thread in s.replays && s.replays[thread].subscriber == who
    ensures SentAll(s, s, [], who, acknowledged, thread)
  {
    assert [] + s.replays[thread].pending == s.replays[thread].pending;
    hide WasNotified;
  }

  lemma SentEverything(s: State, t: State, ids: seq<nat>, who: Subscriber, acknowledged: set<nat>, thread: nat)
    requires SentAll(s, t, ids, who, acknowledged, thread) && s.replays[thread].pending == ids
    ensures t.cache == s.cache && thread in t.replays && t.replays[thread].pending == []
    ensures t.replays - {thread} == s.replays - {thread}
    ensures forall id: nat, w: Subscriber ::
      WasNotified(t, id, w) <==> WasNotified(s, id, w) || (w == who && id in ids && id in acknowledged)
  {
    assert |ids + t.replays[thread].pending| == |ids|;
  }

  lemma NextToSend(s: State, t: State, ids: seq<nat>, i: nat, who: Subscriber, acknowledged: set<nat>, thread: nat)
    requires i < |ids| && SentAll(s, t, ids[..i], who, acknowledged, thread) && s.replays[thread].pending == ids
    ensures thread in t.replays && t.replays[thread].subscriber == who
    ensures t.replays[thread].pending != [] && t.replays[thread].pending[0] == ids[i]
  {
    var pending := t.replays[thread].pending;
    assert ids == ids[..i] + pending;
    assert ids[i..] == (ids[..i] + pending)[i..] == pending;
  }

  lemma SentOneMore(s: State, t: State, ids: seq<nat>, who: Subscriber, acknowledged: set<nat>, thread: nat)
    requires SentAll(s, t, ids, who, acknowledged, thread) && t.replays[thread].pending != []
    ensures var id := t.replays[thread].pending[0];
      SentAll(s, Replays.Sent(t, thread, id in acknowledged), ids + [id], who, acknowledged, thread)
  {
    var id := t.replays[thread].pending[0];
    var pending := t.replays[thread].pending;
    SentIs(t, thread, id in acknowledged);
    assert ids + [id] + pending[1..] == ids + pending;
    hide WasNotified;
  }

  // ---- What a publication does to the cache ----

  ghost predicate HasId(ps: seq<Part>, id: nat) {
    exists i :: 0 <= i < |ps| && !ps[i].free && ps[i].message.Some? && ps[i].message.value.id == id
  }

  /** The ids of the messages that have been evicted. */
  ghost function Gone(cache: map<nat, Operation>, ps: seq<Part>): set<nat> {
    set id | id in cache && !HasId(ps, id)
  }

  /** qs has the new message, and besides it nothing but messages of ps. */
  ghost predicate NewAndOld(ps: seq<Part>, qs: seq<Part>, m: Message) {
    && (exists q :: q in Occupied(qs) && q.message == Some(m))
    && (forall q :: q in Occupied(qs) && q.message != Some(m) ==>
      exists p :: p in Occupied(ps) && p.message == q.message)
    && (forall p :: p in Occupied(ps) ==> p.message.Some? && p.message.value.id != m.id)
  }

  /** After a save the new message is cached, and of the others those that have not been evicted. */
  lemma CacheSaved(cache: map<nat, Operation>, ps: seq<Part>, qs: seq<Part>, m: Message)
    requires CacheIs(cache, ps) && NewAndOld(ps, qs, m)
    ensures CacheIs((cache - Gone(cache, qs))[m.id := m.operation], qs)
  {
    var after := (cache - Gone(cache, qs))[m.id := m.operation];
    forall i | 0 <= i < |qs| && !qs[i].free
      ensures qs[i].message.Some? && qs[i].message.value.id in after
      ensures after[qs[i].message.value.id] == qs[i].message.value.operation
    {
      assert qs[i] in Occupied(qs);
      if qs[i].message != Some(m) {
        var p :| p in Occupied(ps) && p.message == qs[i].message;
        var j :| 0 <= j < |ps| && ps[j] == p;
        assert HasId(qs, p.message.value.id);
      }
    }
    var q :| q in Occupied(qs) && q.message == Some(m);
    var k :| 0 <= k < |qs| && qs[k] == q;
    assert HasId(qs, m.id);
    assert forall id :: id in after ==> HasId(qs, id);
  }

  lemma SaveNewAndOld(cfg: Config, s: Cache.Store, log: map<nat, seq<byte>>, m: Message, data: seq<byte>,
                      steps: seq<Cache.Step>, h: nat)
    requires Cache.StoreOk(cfg, s, log) && m.id !in log && |data| == m.dataSize
    requires Cache.LegalSave(cfg, s, m.dataSize, steps, h)
    ensures NewAndOld(s.parts, Cache.Save(cfg, s, m, data, steps, h).parts, m)
  {
    hide *;
    var qs := SaveEntries(cfg, s, log, m, data, steps, h);
    MessagesOf(cfg, s.parts, qs, m, s.time + 1);
  }

  lemma SaveEntries(cfg: Config, s: Cache.Store, log: map<nat, seq<byte>>, m: Message, data: seq<byte>,
                    steps: seq<Cache.Step>, h: nat) returns (qs: seq<Part>)
    requires Cache.StoreOk(cfg, s, log) && m.id !in log && |data| == m.dataSize
    requires Cache.LegalSave(cfg, s, m.dataSize, steps, h)
    ensures qs == Cache.Save(cfg, s, m, data, steps, h).parts
    ensures var e := Cache.Entry(Some(m), s.time + 1);
      Cache.Entries(cfg, qs) <= Cache.Entries(cfg, s.parts) + {e} && e in Cache.Entries(cfg, qs)
    ensures forall p :: p in Occupied(s.parts) ==> p.message.Some? && p.message.value.id != m.id
  {
    Runs.SaveKeeps(cfg, s, log, m, data, steps, h);
    hide Cache.Save, Cache.Inv, Cache.Timely, Cache.After, Cache.Entries, Cache.Legal;
    Runs.EntriesShrink(cfg, Cache.StartOf(s), m.dataSize, steps);
    qs := Cache.Save(cfg, s, m, data, steps, h).parts;
  }

  /** The same for the save a request makes, as a step of a run of the cache. */
  lemma CacheAfterSave(cfg: Config, w: Runs.World, u: Runs.World, cache: map<nat, Operation>, m: Message,
                       data: seq<byte>, steps: seq<Cache.Step>, h: nat)
    requires CacheIs(cache, w.store.parts) && Runs.WorldOk(cfg, w)
    requires Runs.LegalOp(cfg, w, Runs.SaveOp(m, data, steps, h))
    requires u == Runs.Apply(cfg, w, Runs.SaveOp(m, data, steps, h))
    ensures CacheIs((cache - Gone(cache, u.store.parts))[m.id := m.operation], u.store.parts)
  {
    hide CacheIs, Gone, Cache.LegalSave, Cache.StoreOk, Cache.Save, NewAndOld;
    SaveNewAndOld(cfg, w.store, w.past.log, m, data, steps, h);
    CacheSaved(cache, w.store.parts, u.store.parts, m);
  }

  lemma MessagesOf(cfg: Config, ps: seq<Part>, qs: seq<Part>, m: Message, at: nat)
    requires var e := Cache.Entry(Some(m), at);
      Cache.Entries(cfg, qs) <= Cache.Entries(cfg, ps) + {e} && e in Cache.Entries(cfg, qs)
    requires forall p :: p in Occupied(ps) ==> p.message.Some? && p.message.value.id != m.id
    ensures NewAndOld(ps, qs, m)
  {
    hide Occupied;
    forall q | q in Occupied(qs) && q.message != Some(m) ensures exists p ::
      p in Occupied(ps) && p.message == q.message {
      assert Cache.EntryOf(cfg, q) in Cache.Entries(cfg, qs);
      assert Cache.EntryOf(cfg, q) in Cache.Entries(cfg, ps);
    }
  }

  lemma WhosSnoc(clients: seq<Client>, c: Client)
    ensures Whos(clients + [c]) == Whos(clients) + [c.who]
  {
    assert (clients + [c])[..|clients|] == clients;
  }

  lemma FilterNone(s: State, id: nat)
    ensures NotNotified(s, id, []) == []
  {
  }

  lemma {:induction false} FilterSnoc(s: State, id: nat, whos: seq<Subscriber>, who: Subscriber)
    ensures NotNotified(s, id, whos + [who]) ==
      NotNotified(s, id, whos) + (if Replays.WasNotified(s, id, who) then [] else [who])
  {
    hide Replays.WasNotified;
    if whos == [] {
      assert whos + [who] == [who] && [who][1..] == [];
      assert NotNotified(s, id, [who][1..]) == [];
    } else {
      var all := whos + [who];
      assert all[1..] == whos[1..] + [who] && all[0] == whos[0];
      FilterSnoc(s, id, whos[1..], who);
    }
  }

  /** Of whos, those who acknowledge have been notified of the message between s and t, and nothing
      else has changed. */
  ghost predicate ToldAll(s: State, t: State, id: nat, whos: seq<Subscriber>, acknowledged: set<Subscriber>) {
    forall i: nat, w: Subscriber :: Replays.WasNotified(t, i, w) <==>
      Replays.WasNotified(s, i, w) || (i == id && w in whos && w in acknowledged)
  }

  lemma NobodyTold(s: State, id: nat, acknowledged: set<Subscriber>)
    ensures ToldAll(s, s, id, [], acknowledged)
  {
  }

  lemma ToldOneMore(s: State, t: State, u: State, id: nat, whos: seq<Subscriber>, who: Subscriber,
                    acknowledged: set<Subscriber>)
    requires ToldAll(s, t, id, whos, acknowledged)
    requires forall i: nat, w: Subscriber :: Replays.WasNotified(u, i, w) <==>
      Replays.WasNotified(t, i, w) || (who in acknowledged && i == id && w == who)
    ensures ToldAll(s, u, id, whos + [who], acknowledged)
  {
    hide Replays.WasNotified;
  }

  lemma ToldMeans(s: State, t: State, id: nat, whos: seq<Subscriber>, acknowledged: set<Subscriber>)
    requires ToldAll(s, t.(publishing := Some(Publication(id, []))), id, whos, acknowledged)
    ensures forall i: nat, w: Subscriber :: Replays.WasNotified(t, i, w) <==>
      Replays.WasNotified(s, i, w) || (i == id && w in whos && w in acknowledged)
  {
    assert forall i: nat, w: Subscriber ::
      Replays.WasNotified(t.(publishing := Some(Publication(id, []))), i, w) <==> Replays.WasNotified(t, i, w);
    hide Replays.WasNotified;
  }

  class Broker {
    const memory: BrokerMemory
    var subscribers: map<Operation, seq<Client>>
    var notified: map<nat, seq<Subscriber>>
    ghost var state: State

    /** The lists are those of the ghost state, whose invariant holds. */
    ghost predicate Ok()
      reads this
    {
      Inv(state) && state.notified == notified && state.subscribers == ByWho(subscribers)
    }

    /** And the cache is too. */
    ghost predicate Whole()
      reads this, memory, memory.partitions, memory.cache
    {
      Ok() && memory.Sound() && CacheIs(state.cache, memory.View())
    }

    /** These are occupied partitions, with those message ids. */
    ghost predicate AreFound(found: seq<Partition>, ids: seq<nat>)
      reads memory`partitions, found
    {
      && |found| == |ids|
      && (forall k :: 0 <= k < |found| ==> found[k] in memory.partitions && !found[k].free)
      && (forall k :: 0 <= k < |found| ==> found[k].message.Some? && found[k].message.value.id == ids[k])
    }

    /** What main.c sets up: an empty cache, and nobody subscribed or notified. */
    constructor (cfg: Config)
      requires Cache.ConfigOk(cfg)
      ensures Whole() && Init(state) && Runs.IsInit(cfg, memory.World()) && fresh(memory) && memory.cfg == cfg
    {
      hide *;
      memory := new BrokerMemory(cfg);
      subscribers, notified := map[], map[];
      state := State(map[], map[], map[], map[], None, []);
      new;
      InitInv(state);
      StartsWhole();
    }

    lemma StartsWhole()
      requires memory.Sound() && Runs.IsInit(memory.cfg, memory.World()) && Inv(state)
      requires subscribers == map[] && notified == map[] && state == State(map[], map[], map[], map[], None, [])
      ensures Whole() && Init(state)
    {
      hide Inv, BrokerMemory.Sound;
    }

    lemma IsOk()
      requires Inv(state) && state.notified == notified && state.subscribers == ByWho(subscribers)
      ensures Ok()
    {
    }

    ghost method Advance(t: State, step: Step)
      requires Inv(state) && Next(state, t, step) && NoOverlap(state, step)
      modifies this`state
      ensures state == t && Inv(t)
    {
      StepKeeps(state, t, step);
      state := t;
    }

    /** create_or_update_subscriber */
    method CreateOrUpdateSubscriber(op: Operation, process: nat, id: nat, socket: int) returns (c: Client)
      requires Ok()
      modifies this`subscribers, this`state, if op in subscribers then subscribers[op] else []
      ensures Ok() && state == Subscribed(old(state), op, Subscriber(process, id))
      ensures c.who == Subscriber(process, id) && c.socket == socket && op in subscribers && c in subscribers[op]
      ensures forall d :: op in old(subscribers) && d in old(subscribers[op]) && d != c ==> d.socket == old(d.socket)
      ensures var before := if op in old(subscribers) then old(subscribers[op]) else [];
        if exists d ::
          d in before && d.who == Subscriber(process, id) then c in before && subscribers == old(subscribers)
        else fresh(c) && subscribers == old(subscribers)[op := before + [c]]
    {
      hide Inv, ByWho, Whos, Subscribed;
      var clients := if op in subscribers then subscribers[op] else [];
      var who := Replays.Subscriber.Subscriber(process, id);
      var i := 0;
      while i < |clients| && clients[i].who != who
        invariant i <= |clients| && forall j :: 0 <= j < i ==> clients[j].who != who
      {
        i := i + 1;
      }
      if i < |clients| {
        c := clients[i];
        AlreadyThere(subscribers, op, i);
        AlreadySubscribed(state, op, who);
        c.socket := socket;
      } else {
        c := new Client(process, id, socket);
        NotThere(subscribers, op, who);
        Register(op, c);
      }
    }

    /** _create_subscriber, for an operation and a client that is new to it */
    method Register(op: Operation, c: Client)
      requires Ok() && c.who !in if op in state.subscribers then state.subscribers[op] else []
      modifies this`subscribers, this`state
      ensures Ok() && state == Subscribed(old(state), op, c.who)
      ensures subscribers == old(subscribers)[op := (if op in old(subscribers) then old(subscribers)[op] else []) + [c]]
    {
      var clients := if op in subscribers then subscribers[op] else [];
      OneMore(subscribers, op, clients, c);
      MaySubscribe(state, op, c.who);
      ghost var t := Subscribed(state, op, c.who);
      assert t.subscribers == ByWho(subscribers[op := clients + [c]]) && t.notified == notified;
      hide *;
      subscribers := subscribers[op := clients + [c]];
      Advance(t, Subscribe(op, c.who));
      IsOk();
    }

    /** add_notified_subscriber */
    method AddNotifiedSubscriber(id: nat, who: Subscriber)
      modifies this`notified
      ensures notified == old(notified)[id := (if id in old(notified) then old(notified)[id] else []) + [who]]
    {
      if id in notified {
        notified := notified[id := notified[id] + [who]];
      } else {
        assert [] + [who] == [who];
        notified := notified[id := [who]];
      }
    }

    /** messages_from_operation: the partitions found, sorted by the ids of their messages. */
    method MessagesFromOperation(op: Operation, who: Subscriber) returns (found: seq<Partition>, ids: seq<nat>)
      requires Whole()
      ensures ToSend(state, op, who, ids) && AreFound(found, ids)
      ensures forall j, k :: 0 <= j < k < |ids| ==> ids[j] < ids[k]
      ensures |found| == |ids|
      ensures forall k :: 0 <= k < |ids| ==> found[k].message.Some? && found[k].message.value.id == ids[k]
      ensures forall p :: p in found <==> (
        && p in memory.partitions && !p.free && p.message.Some? && p.message.value.operation == op
        && !(p.message.value.id in notified && who in notified[p.message.value.id]))
    {
      hide *;
      ghost var ps := memory.View();
      found, ids := [], [];
      NothingFoundYet(op, who);
      for i := 0 to |memory.partitions|
        invariant memory.View() == ps && Whole() && FoundSome(op, who, i, found, ids)
      {
        found, ids := FindNext(op, who, i, found, ids, ps);
      }
      EverythingFound(op, who, found, ids);
      FoundMeans(found, ids, op, who);
    }

    /** What has been found among the first n partitions. */
    ghost predicate FoundSome(op: Operation, who: Subscriber, n: nat, found: seq<Partition>, ids: seq<nat>)
      reads this, memory, memory.partitions, found
    {
      && n <= |memory.partitions| && IdsOf(state, memory.View(), op, who, n, ids) && AreFound(found, ids)
      && FoundFrom(found, memory.partitions[..n], op, who)
    }

    lemma NothingFoundYet(op: Operation, who: Subscriber)
      ensures FoundSome(op, who, 0, [], [])
    {
      NothingFound(state, memory.View(), op, who);
    }

    lemma EverythingFound(op: Operation, who: Subscriber, found: seq<Partition>, ids: seq<nat>)
      requires Whole() && FoundSome(op, who, |memory.partitions|, found, ids)
      ensures ToSend(state, op, who, ids) && Increasing(ids) && AreFound(found, ids)
      ensures FoundFrom(found, memory.partitions, op, who)
    {
      AllFound(state, memory.View(), op, who, ids);
      assert memory.partitions[..|memory.partitions|] == memory.partitions;
      hide AreFound, FoundFrom, IsSent;
    }

    /** One turn of list_filter, and the place list_sort gives what it keeps. */
    method FindNext(op: Operation, who: Subscriber, i: nat, found0: seq<Partition>, ids0: seq<nat>, ghost ps: seq<Part>)
      returns (found: seq<Partition>, ids: seq<nat>)
      requires Whole() && ps == memory.View() && i < |memory.partitions| && FoundSome(op, who, i, found0, ids0)
      ensures Whole() && ps == memory.View() && FoundSome(op, who, i + 1, found, ids)
    {
      hide *;
      var p := memory.partitions[i];
      PartAt(i);
      var sent := IsToSend(p, op, who);
      found, ids := found0, ids0;
      if sent {
        FoundOne(op, who, i, found, ids);
        var k := SortedPlace(ids, p.message.value.id);
        found, ids := InsertAt(found, k, p), InsertAt(ids, k, p.message.value.id);
      } else {
        NotFound(op, who, i, found, ids);
      }
    }

    lemma PartAt(i: nat)
      requires Whole() && i < |memory.partitions|
      ensures Ok() && i < |memory.View()| && memory.View()[i] == memory.partitions[i].Value()
    {
      hide BrokerMemory.Sound, CacheIs;
    }

    lemma NotFound(op: Operation, who: Subscriber, i: nat, found: seq<Partition>, ids: seq<nat>)
      requires Whole() && i < |memory.partitions| && FoundSome(op, who, i, found, ids)
      requires !IsSent(state, memory.View()[i], op, who) && !Unsent(memory.partitions[i], op, who)
      ensures FoundSome(op, who, i + 1, found, ids)
    {
      assert memory.partitions[..i + 1] == memory.partitions[..i] + [memory.partitions[i]];
      OneNotFound(state, memory.View(), op, who, i, ids);
      hide BrokerMemory.Sound, CacheIs, IsSent, Unsent, IdsOf, AreFound;
    }

    lemma FoundOne(op: Operation, who: Subscriber, i: nat, found: seq<Partition>, ids: seq<nat>)
      requires Whole() && i < |memory.partitions| && FoundSome(op, who, i, found, ids)
      requires IsSent(state, memory.View()[i], op, who) && Unsent(memory.partitions[i], op, who)
      ensures memory.partitions[i].message.Some? && |found| == |ids|
      ensures var p := memory.partitions[i];
        var k := SortedPlace(ids, p.message.value.id);
        FoundSome(op, who, i + 1, InsertAt(found, k, p), InsertAt(ids, k, p.message.value.id))
    {
      var p := memory.partitions[i];
      var id := p.message.value.id;
      var k := SortedPlace(ids, id);
      PlaceFound(op, who, i, ids);
      hide Inv, BrokerMemory.Sound, CacheIs, IsSent, InsertAt, SortedPlace, Unsent, IdsOf;
      FoundOneMore(found, ids, k, p);
      FoundFromMore(found, k, i, op, who);
      hide AreFound, FoundFrom;
    }

    lemma PlaceFound(op: Operation, who: Subscriber, i: nat, ids: seq<nat>)
      requires Whole() && i < |memory.partitions| && IdsOf(state, memory.View(), op, who, i, ids)
      requires IsSent(state, memory.View()[i], op, who)
      ensures memory.partitions[i].message.Some?
      ensures var id := memory.partitions[i].message.value.id;
        IdsOf(state, memory.View(), op, who, i + 1, InsertAt(ids, SortedPlace(ids, id), id))
    {
      var ps := memory.View();
      Cache.InvLayout(memory.cfg, ps);
      assert ps[i] == memory.partitions[i].Value();
      hide Inv, BrokerMemory.Sound, CacheIs, IsSent, InsertAt, SortedPlace, IdsOf;
      var id := ps[i].message.value.id;
      NotYetFound(state, ps, op, who, i, ids);
      IdsIncrease(state, ps, op, who, i, ids);
      InsertedIs(ids, id);
      OneMoreFound(state, ps, op, who, i, ids, InsertAt(ids, SortedPlace(ids, id), id));
    }

    lemma FoundFromMore(found: seq<Partition>, k: nat, i: nat, op: Operation, who: Subscriber)
      requires i < |memory.partitions| && k <= |found| && FoundFrom(found, memory.partitions[..i], op, who)
      requires Unsent(memory.partitions[i], op, who)
      ensures FoundFrom(InsertAt(found, k, memory.partitions[i]), memory.partitions[..i + 1], op, who)
    {
      var p := memory.partitions[i];
      InsertedMembers(found, k, p);
      assert memory.partitions[..i + 1] == memory.partitions[..i] + [p];
      hide Unsent, InsertAt;
    }

    /** found are those of the partitions that have a message of the queue the subscriber has not
        been notified of. */
    ghost predicate FoundFrom(found: seq<Partition>, partitions: seq<Partition>, op: Operation, who: Subscriber)
      reads this`notified, partitions, found
    {
      && (forall p :: p in found ==> p in partitions && Unsent(p, op, who))
      && (forall p :: p in partitions && Unsent(p, op, who) ==> p in found)
    }

    predicate Unsent(p: Partition, op: Operation, who: Subscriber)
      reads this`notified, p
    {
      && !p.free && p.message.Some? && p.message.value.operation == op
      && !(p.message.value.id in notified && who in notified[p.message.value.id])
    }

    lemma FoundMeans(found: seq<Partition>, ids: seq<nat>, op: Operation, who: Subscriber)
      requires FoundFrom(found, memory.partitions, op, who) && AreFound(found, ids) && Increasing(ids)
      ensures forall j, k :: 0 <= j < k < |ids| ==> ids[j] < ids[k]
      ensures |found| == |ids|
      ensures forall k :: 0 <= k < |ids| ==> found[k].message.Some? && found[k].message.value.id == ids[k]
      ensures forall p :: p in found <==> (
        && p in memory.partitions && !p.free && p.message.Some? && p.message.value.operation == op
        && !(p.message.value.id in notified && who in notified[p.message.value.id]))
    {
    }

    lemma InsertedMembers(found: seq<Partition>, k: nat, p: Partition)
      requires k <= |found|
      ensures forall q :: q in InsertAt(found, k, p) <==> q in found || q == p
    {
      assert found == found[..k] + found[k..];
    }

    /** _inline_find_for_operation */
    method IsToSend(p: Partition, op: Operation, who: Subscriber) returns (sent: bool)
      requires Ok()
      ensures sent == IsSent(state, p.Value(), op, who) == Unsent(p, op, who)
    {
      sent := !p.free && p.message.Some? && p.message.value.operation == op;
      if sent {
        var id := p.message.value.id;
        sent := !(id in notified && who in notified[id]);
      }
    }

    lemma OneFound(found: seq<Partition>, ids: seq<nat>, i: nat)
      requires AreFound(found, ids) && i < |ids|
      ensures i < |found| && AreFound([found[i]], [ids[i]])
    {
    }

    lemma FoundOneMore(found: seq<Partition>, ids: seq<nat>, k: nat, p: Partition)
      requires AreFound(found, ids) && k <= |ids| && p in memory.partitions && !p.free && p.message.Some?
      ensures AreFound(InsertAt(found, k, p), InsertAt(ids, k, p.message.value.id))
    {
    }

    /** send_message_and_wait_for_ack, by the thread of a replay */
    method SendAndWait(id: nat, who: Subscriber, acknowledged: bool, ghost thread: nat)
      requires Ok() && thread in state.replays && state.replays[thread].pending != []
      requires id == state.replays[thread].pending[0] && who == state.replays[thread].subscriber
      modifies this`notified, this`state
      ensures Ok() && state == Replays.Sent(old(state), thread, acknowledged)
      ensures notified == if !acknowledged then old(notified)
        else old(notified)[id := (if id in old(notified) then old(notified)[id] else []) + [who]]
    {
      if acknowledged { AddNotifiedSubscriber(id, who); }
      Advance(Replays.Sent(state, thread, acknowledged), Replayed(thread, acknowledged));
    }

    /** _inline_send_message: the partition's message counts as used at that time, and is sent. */
    method SendOne(p: Partition, id: nat, who: Subscriber, acknowledged: bool, now: nat, ghost thread: nat)
      requires Whole() && AreFound([p], [id]) && now <= memory.time
      requires thread in state.replays && state.replays[thread].pending != []
      requires id == state.replays[thread].pending[0] && who == state.replays[thread].subscriber
      modifies this`notified, this`state, p`accessTime
      ensures Whole() && state == Replays.Sent(old(state), thread, acknowledged)
      ensures memory.World() == Marked(old(memory.World()), {id}, now)
      ensures p.accessTime == now
      ensures notified == if !acknowledged then old(notified)
        else old(notified)[id := (if id in old(notified) then old(notified)[id] else []) + [who]]
    {
      hide Inv, BrokerMemory.Sound, CacheIs, Values, Marked, AreFound, Replays.Sent;
      Mark(p, id, now);
      SentIs(state, thread, acknowledged);
      SendAndWait(id, who, acknowledged, thread);
    }

    method Mark(p: Partition, id: nat, now: nat)
      requires Whole() && AreFound([p], [id]) && now <= memory.time
      modifies p`accessTime
      ensures p.accessTime == now
      ensures Whole() && memory.World() == Marked(old(memory.World()), {id}, now)
    {
      hide Inv, BrokerMemory.Sound, CacheIs, Values;
      assert p == [p][0];
      ghost var i :| 0 <= i < |memory.partitions| && memory.partitions[i] == p;
      CacheTouched(state.cache, memory.View(), {id}, now);
      memory.MarkUsed(p, now, i);
    }

    /** One turn of list_iterate in new_suscription: s and w are how things were before it. */
    method SendNext(found: seq<Partition>, ids: seq<nat>, i: nat, who: Subscriber, acknowledged: set<nat>, now: nat,
                    ghost thread: nat, ghost s: State, ghost w: Runs.World)
      requires Whole() && AreFound(found, ids) && now <= memory.time && i < |ids|
      requires SentAll(s, state, ids[..i], who, acknowledged, thread) && s.replays[thread].pending == ids
      requires memory.World() == Marked(w, SetOf(ids[..i]), now)
      modifies this`notified, this`state, found`accessTime
      ensures Whole() && AreFound(found, ids)
      ensures SentAll(s, state, ids[..i + 1], who, acknowledged, thread)
      ensures memory.World() == Marked(w, SetOf(ids[..i + 1]), now)
    {
      hide Inv, BrokerMemory.Sound, CacheIs, Values, Marked, SentAll, Replays.Sent, SetOf, Ok, Whole;
      OneFound(found, ids, i);
      NextToSend(s, state, ids, i, who, acknowledged, thread);
      SentOneMore(s, state, ids[..i], who, acknowledged, thread);
      MarkedTwice(w, SetOf(ids[..i]), {ids[i]}, now);
      assert ids[..i + 1] == ids[..i] + [ids[i]];
      OneMoreInSet(ids[..i], ids[i]);
      SendOne(found[i], ids[i], who, ids[i] in acknowledged, now, thread);
    }

    /** The messages found, one after the other. */
    method SendAll(found: seq<Partition>, ids: seq<nat>, who: Subscriber, acknowledged: set<nat>, now: nat,
                   ghost thread: nat)
      requires Whole() && AreFound(found, ids) && now <= memory.time
      requires thread in state.replays && state.replays[thread].subscriber == who
      requires state.replays[thread].pending == ids
      modifies this`notified, this`state, found`accessTime
      ensures Whole() && SentAll(old(state), state, ids, who, acknowledged, thread)
      ensures memory.World() == Marked(old(memory.World()), SetOf(ids), now)
    {
      ghost var s, w := state, memory.World();
      hide *;
      NothingMarked(w, now);
      NothingSent(s, who, acknowledged, thread);
      assert ids[..0] == [] && SetOf(ids[..0]) == {} by { NoneInSet(); }
      for i := 0 to |ids|
        invariant Whole() && AreFound(found, ids) && now <= memory.time
        invariant SentAll(s, state, ids[..i], who, acknowledged, thread)
        invariant memory.World() == Marked(w, SetOf(ids[..i]), now)
      {
        SendNext(found, ids, i, who, acknowledged, now, thread, s, w);
      }
      assert ids[..|ids|] == ids;
    }

    /** The time is asked for if there is anything to send. */
    method SendFound(found: seq<Partition>, ids: seq<nat>, who: Subscriber, acknowledged: set<nat>, ghost thread: nat)
      requires Whole() && AreFound(found, ids)
      requires thread in state.replays && state.replays[thread].subscriber == who
      requires state.replays[thread].pending == ids
      modifies this`notified, this`state, memory`time, memory.partitions
      ensures Whole() && SentAll(old(state), state, ids, who, acknowledged, thread)
      ensures ids == [] ==> memory.World() == old(memory.World())
      ensures ids != [] ==> memory.World() == Marked(Ticked(old(memory.World())), SetOf(ids), memory.time)
    {
      hide Inv, Next, Replays.Sent, Marked, CacheIs, BrokerMemory.Sound, SetOf, SentAll;
      assert forall k :: 0 <= k < |found| ==> found[k] in memory.partitions;
      if |found| > 0 {
        var now := memory.Tick();
        assert AreFound(found, ids);
        SendAll(found, ids, who, acknowledged, now, thread);
      } else {
        NothingSent(state, who, acknowledged, thread);
      }
    }

    /** new_suscription, by a thread, when no replay has anything left to send that subscriber
        of that queue; acknowledged says which sends are. What is to be sent is sent in the
        order of ids; exactly what is acknowledged is added to what the subscriber has been
        notified of; and exactly what is sent counts as used now, if there is anything. */
    method NewSuscription(op: Operation, who: Subscriber, acknowledged: set<nat>, ghost thread: nat)
      returns (sent: seq<nat>)
      requires Whole() && state.publishing == None && thread !in state.replays && NothingPending(state, op, who)
      modifies this`notified, this`state, memory`time, memory.partitions
      ensures Whole() && ToSend(old(state), op, who, sent)
      ensures forall j, k :: 0 <= j < k < |sent| ==> sent[j] < sent[k]
      ensures forall id :: id in sent <==> (
        && !(id in old(notified) && who in old(notified)[id])
        && old(exists p :: p in memory.partitions && !p.free && HasMessage(p, id, op)))
      ensures state.replays == old(state.replays) && state.cache == old(state.cache)
      ensures forall id: nat, w: Subscriber :: WasNotified(state, id, w) <==>
        WasNotified(old(state), id, w) || (w == who && id in sent && id in acknowledged)
      ensures sent == [] ==> memory.World() == old(memory.World())
      ensures sent != [] ==> memory.World() == Marked(Ticked(old(memory.World())), SetOf(sent), memory.time)
    {
      hide Inv, Next, ToSend, WasNotified, Replays.Sent, Increasing, NothingPending, Marked, CacheIs,
        BrokerMemory.Sound, SetOf, SentAll;
      var found;
      found, sent := MessagesFromOperation(op, who);
      FoundIds(found, sent, op, who);
      BeginReplay(thread, op, who, sent);
      ghost var s := state;
      hide AreFound;
      SendFound(found, sent, who, acknowledged, thread);
      SentEverything(s, state, sent, who, acknowledged, thread);
      FinishReplay(thread);
    }

    predicate HasMessage(p: Partition, id: nat, op: Operation)
      reads p
    {
      p.message.Some? && p.message.value.id == id && p.message.value.operation == op
    }

    lemma FoundIds(found: seq<Partition>, ids: seq<nat>, op: Operation, who: Subscriber)
      requires |found| == |ids|
      requires forall k :: 0 <= k < |ids| ==> found[k].message.Some? && found[k].message.value.id == ids[k]
      requires forall p :: p in found <==> (
        && p in memory.partitions && !p.free && p.message.Some? && p.message.value.operation == op
        && !(p.message.value.id in notified && who in notified[p.message.value.id]))
      ensures forall id :: id in ids <==> (
        && !(id in notified && who in notified[id])
        && exists p :: p in memory.partitions && !p.free && HasMessage(p, id, op))
    {
      forall id ensures id in ids <==> (
        && !(id in notified && who in notified[id])
        && exists p :: p in memory.partitions && !p.free && HasMessage(p, id, op))
      {
        if id in ids {
          var k :| 0 <= k < |ids| && ids[k] == id;
          assert found[k] in found && HasMessage(found[k], id, op);
        }
        if p :| p in memory.partitions && !p.free && HasMessage(p, id, op) && !(id in notified && who in notified[id]) {
          assert p in found;
          var k :| 0 <= k < |found| && found[k] == p;
        }
      }
    }

    ghost method BeginReplay(thread: nat, op: Operation, who: Subscriber, ids: seq<nat>)
      requires Ok() && state.publishing == None && thread !in state.replays && NothingPending(state, op, who)
      requires ToSend(state, op, who, ids)
      modifies this`state
      ensures Ok() && state.cache == old(state.cache) && state.publishing == None
      ensures state.replays == old(state.replays)[thread := Replay(op, who, ids)]
      ensures state.replays - {thread} == old(state.replays)
      ensures forall id: nat, w: Subscriber :: WasNotified(state, id, w) <==> WasNotified(old(state), id, w)
    {
      Advance(state.(replays := state.replays[thread := Replay(op, who, ids)]),
        StartReplay(thread, op, who));
    }

    ghost method FinishReplay(thread: nat)
      requires Ok() && thread in state.replays && state.replays[thread].pending == []
      modifies this`state
      ensures Ok() && state == old(state).(replays := old(state.replays) - {thread})
      ensures forall id: nat, w: Subscriber :: WasNotified(state, id, w) <==> WasNotified(old(state), id, w)
    {
      Advance(state.(replays := state.replays - {thread}), EndReplay(thread));
    }

    // ---- new_request ----

    /** The state while the message is sent to whos. */
    ghost function InPublication(s: State, id: nat, op: Operation, evicted: set<nat>, whos: seq<Subscriber>): State {
      s.(cache := (s.cache - evicted)[id := op], publishing := Some(Publication(id, whos)))
    }

    ghost method BeginPublication(id: nat, op: Operation, evicted: set<nat>, whos: seq<Subscriber>)
      requires Ok() && state.publishing == None && state.replays == map[]
      requires whos == NotNotified(state, id, if op in state.subscribers then state.subscribers[op] else [])
      modifies this`state
      ensures Ok() && state == InPublication(old(state), id, op, evicted, whos)
    {
      Advance(InPublication(state, id, op, evicted, whos), Publish(id, op, evicted));
    }

    /** list_filter with was_not_notified */
    method FilterNotNotified(id: nat, clients: seq<Client>) returns (filtered: seq<Client>)
      requires Ok()
      ensures Whos(filtered) == NotNotified(state, id, Whos(clients))
      ensures forall c :: c in filtered <==> c in clients && !(id in notified && c.who in notified[id])
      ensures Ok() && state == old(state) && notified == old(notified)
    {
      hide Inv, ByWho, NotNotified, Whos;
      filtered := [];
      assert Whos(filtered) == [] == NotNotified(state, id, []) by { FilterNone(state, id); }
      assert clients[..0] == [] && Whos(clients[..0]) == [];
      for i := 0 to |clients|
        invariant Whos(filtered) == NotNotified(state, id, Whos(clients[..i]))
        invariant forall c :: c in filtered <==> c in clients[..i] && !(id in notified && c.who in notified[id])
      {
        var c := clients[i];
        assert clients[..i + 1] == clients[..i] + [c];
        WhosSnoc(clients[..i], c);
        WhosSnoc(filtered, c);
        FilterSnoc(state, id, Whos(clients[..i]), c.who);
        assert Replays.WasNotified(state, id, c.who) <==> id in notified && c.who in notified[id];
        if !(id in notified && c.who in notified[id]) { filtered := filtered + [c]; }
      }
      assert clients[..|clients|] == clients;
    }

    /** send_message_and_wait_for_ack, by the thread of a publication */
    method SendPublished(id: nat, who: Subscriber, acknowledged: bool)
      requires Ok() && state.publishing.Some? && state.publishing.value.id == id
      requires state.publishing.value.pending != [] && state.publishing.value.pending[0] == who
      modifies this`notified, this`state
      ensures Ok() && state.cache == old(state.cache) && state.replays == old(state.replays)
      ensures state.subscribers == old(state.subscribers)
      ensures state.publishing == Some(Publication(id, old(state.publishing.value.pending)[1..]))
      ensures forall i: nat, w: Subscriber :: Replays.WasNotified(state, i, w) <==>
        Replays.WasNotified(old(state), i, w) || (acknowledged && i == id && w == who)
      ensures notified == if !acknowledged then old(notified)
        else old(notified)[id := (if id in old(notified) then old(notified)[id] else []) + [who]]
    {
      ghost var s, p := state, state.publishing.value;
      ghost var after := s.(publishing := Some(Shortened(p, 0)));
      AcknowledgedIs(after, id, who);
      assert forall i: nat, w: Subscriber :: Replays.WasNotified(after, i, w) <==> Replays.WasNotified(s, i, w);
      assert p.pending[..0] + p.pending[1..] == p.pending[1..];
      hide Inv, Replays.WasNotified;
      if acknowledged { AddNotifiedSubscriber(id, who); }
      Advance(if acknowledged then Acknowledged(after, id, who) else after, Published(0, acknowledged));
    }

    /** send_messages_to_subscribers. The threads are one after the other here; Replays.dfy lets
        them finish in any order. */
    method SendToSubscribers(id: nat, clients: seq<Client>, acknowledged: set<Subscriber>)
      requires Ok() && state.publishing == Some(Publication(id, Whos(clients)))
      modifies this`notified, this`state
      ensures Ok() && state.publishing == None && state.cache == old(state.cache)
      ensures state.replays == old(state.replays) && state.subscribers == old(state.subscribers)
      ensures forall i: nat, w: Subscriber :: Replays.WasNotified(state, i, w) <==>
        Replays.WasNotified(old(state), i, w) || (i == id && w in Whos(clients) && w in acknowledged)
    {
      ghost var s, whos := state, Whos(clients);
      hide *;
      assert whos[0..] == whos && whos[..0] == [];
      NobodyTold(s, id, acknowledged);
      for i := 0 to |clients|
        invariant Ok() && state.publishing == Some(Publication(id, whos[i..])) && state.cache == s.cache
        invariant state.replays == s.replays && state.subscribers == s.subscribers
        invariant ToldAll(s, state, id, whos[..i], acknowledged)
      {
        ghost var before := state;
        assert whos[i..][0] == whos[i] == clients[i].who && whos[i..][1..] == whos[i + 1..];
        SendPublished(id, clients[i].who, clients[i].who in acknowledged);
        assert whos[..i + 1] == whos[..i] + [whos[i]];
        ToldOneMore(s, before, state, id, whos[..i], whos[i], acknowledged);
      }
      assert whos[|clients|..] == [] && whos[..|clients|] == whos;
      FinishPublication();
      ToldMeans(s, state, id, whos, acknowledged);
    }

    ghost method FinishPublication()
      requires Ok() && state.publishing.Some? && state.publishing.value.pending == []
      modifies this`state
      ensures Ok() && state == old(state).(publishing := None)
    {
      hide Inv;
      Advance(state.(publishing := None), EndPublish);
    }

    /** new_request: unless the guard of save_message refuses the message, it is cached, and sent
        exactly once to everyone who is subscribed to its queue and has not been notified of it;
        exactly those who acknowledge it are added to those notified. */
    method NewRequest(m: Message, data: seq<byte>, pointerSize: nat, acknowledged: set<Subscriber>)
      returns (partition: Partition?, sent: seq<Client>)
      requires Whole() && state.publishing == None && state.replays == map[]
      requires 1 <= m.dataSize == |data| <= memory.cfg.total && m.id !in memory.past.log
      modifies this`notified, this`state, memory`partitions, memory`time, memory`past, memory.partitions, memory.cache
      ensures partition == null <==> pointerSize > memory.cfg.total
      ensures partition == null ==> Whole() && sent == [] && state == old(state)
      ensures partition == null ==> memory.World() == old(memory.World())
      ensures partition != null ==> partition in memory.partitions && partition.message == Some(m)
      ensures partition != null ==> forall c :: c in sent <==> (
        && m.operation in subscribers && c in subscribers[m.operation]
        && !(m.id in old(notified) && c.who in old(notified)[m.id]))
      ensures forall j, k :: 0 <= j < k < |sent| ==> sent[j].who != sent[k].who
      ensures Ok() && state.publishing == None && state.replays == map[]
      ensures partition != null ==> m.id in state.cache && state.cache[m.id] == m.operation
      ensures forall i: nat, w: Subscriber :: Replays.WasNotified(state, i, w) <==> (
        || Replays.WasNotified(old(state), i, w)
        || (i == m.id && w in acknowledged && exists c :: c in sent && c.who == w))
      ensures partition != null && (memory.cfg.buddy || memory.cfg.minSize <= m.dataSize) ==> Whole()
    {
      hide *;
      ghost var w, cache := memory.World(), state.cache;
      WholeParts();
      ghost var steps, h;
      sent := [];
      partition, steps, h := memory.SaveMessage(data, m, pointerSize);
      if partition != null {
        sent := SendSaved(m.id, m.operation, Gone(cache, memory.World().store.parts), acknowledged);
        if memory.cfg.buddy || memory.cfg.minSize <= m.dataSize {
          CacheAfterSave(memory.cfg, w, memory.World(), cache, m, data, steps, h);
          WholeIs();
        }
      } else {
        WholeIs();
      }
    }

    lemma WholeParts()
      requires Whole()
      ensures Ok() && memory.Sound() && CacheIs(state.cache, memory.World().store.parts)
      ensures Runs.WorldOk(memory.cfg, memory.World())
    {
      hide Ok, CacheIs, Runs.WorldOk;
    }

    lemma WholeIs()
      requires Ok() && memory.Sound() && CacheIs(state.cache, memory.World().store.parts)
      ensures Whole()
    {
      hide Ok, BrokerMemory.Sound, CacheIs;
    }

    /** The second half of new_request, for a message that has been saved. */
    method SendSaved(id: nat, op: Operation, ghost evicted: set<nat>, acknowledged: set<Subscriber>)
      returns (sent: seq<Client>)
      requires Ok() && state.publishing == None && state.replays == map[]
      modifies this`notified, this`state
      ensures Ok() && state.publishing == None && state.replays == map[]
      ensures state.cache == (old(state.cache) - evicted)[id := op]
      ensures forall c :: c in sent <==> (
        op in subscribers && c in subscribers[op] && !(id in old(notified) && c.who in old(notified)[id]))
      ensures forall j, k :: 0 <= j < k < |sent| ==> sent[j].who != sent[k].who
      ensures forall i: nat, w: Subscriber :: Replays.WasNotified(state, i, w) <==> (
        Replays.WasNotified(old(state), i, w) || (i == id && w in acknowledged && exists c :: c in sent && c.who == w))
    {
      hide *;
      var clients := if op in subscribers then subscribers[op] else [];
      sent := FilterNotNotified(id, clients);
      AsSubscribed(op, clients);
      SentDistinct(id, clients, sent);
      ghost var s := state;
      BeginPublication(id, op, evicted, Whos(sent));
      StillNotified(s, id, op, evicted, Whos(sent));
      SendToSubscribers(id, sent, acknowledged);
      InWhos(sent);
    }

    lemma AsSubscribed(op: Operation, clients: seq<Client>)
      requires Ok() && clients == if op in subscribers then subscribers[op] else []
      ensures Whos(clients) == if op in state.subscribers then state.subscribers[op] else []
      ensures DistinctSubscribers(Whos(clients))
    {
      hide AcksOk, ReplaysOk, PublicationOk, DistinctSubscribers;
      assert op !in state.subscribers ==> DistinctSubscribers([]) by { NoSubscribers(); }
    }

    lemma NoSubscribers()
      ensures DistinctSubscribers([])
    {
    }

    lemma SentDistinct(id: nat, clients: seq<Client>, sent: seq<Client>)
      requires DistinctSubscribers(Whos(clients)) && Whos(sent) == NotNotified(state, id, Whos(clients))
      ensures forall j, k :: 0 <= j < k < |sent| ==> sent[j].who != sent[k].who
    {
      FilterKeeps(state, id, Whos(clients));
      hide NotNotified, Whos, Replays.WasNotified;
      var whos := Whos(sent);
      forall j, k | 0 <= j < k < |sent| ensures sent[j].who != sent[k].who { assert whos[j] != whos[k]; }
    }

    lemma StillNotified(s: State, id: nat, op: Operation, evicted: set<nat>, whos: seq<Subscriber>)
      ensures var t := InPublication(s, id, op, evicted, whos);
        && t.cache == (s.cache - evicted)[id := op] && t.replays == s.replays
        && t.publishing == Some(Publication(id, whos))
        && forall i: nat, w: Subscriber :: Replays.WasNotified(t, i, w) <==> Replays.WasNotified(s, i, w)
    {
    }

    lemma InWhos(clients: seq<Client>)
      ensures forall w :: w in Whos(clients) <==> exists c :: c in clients && c.who == w
    {
      hide Whos;
      forall c | c in clients ensures c.who in Whos(clients) {
        var k :| 0 <= k < |clients| && clients[k] == c;
        assert Whos(clients)[k] == c.who;
      }
      forall w | w in Whos(clients) ensures exists c :: c in clients && c.who == w {
        var k :| 0 <= k < |clients| && Whos(clients)[k] == w;
        assert clients[k] in clients;
      }
    }
  }
}
