/** Who has acknowledged what (new_request, new_suscription and send_message_and_wait_for_ack
    of broker/src/broker.c, messages_from_operation of mem.c, subscribers.c), with any number of
    replays at a time and a step per message sent. Whether a send is acknowledged is up to the
    subscriber. */
module Replays {
  import opened Protocol

  /** Two are the same when process and id are; the socket is not looked at. */
  datatype Subscriber = Subscriber(process: nat, id: nat)

  /** new_suscription, by the thread of a connection, and the ids of the messages it has left to
      send. */
  datatype Replay = Replay(operation: Operation, subscriber: Subscriber, pending: seq<nat>)

  /** send_messages_to_subscribers, and the subscribers whose threads have not finished. */
  datatype Publication = Publication(id: nat, pending: seq<Subscriber>)

  /** cache gives the queue of each cached message, notified is NOTIFIED_SUBSCRIBERS, replays
      are by thread, and acks lists every acknowledgement so far. */
  datatype State = State(
    cache: map<nat, Operation>,
    subscribers: map<Operation, seq<Subscriber>>,
    notified: map<nat, seq<Subscriber>>,
    replays: map<nat, Replay>,
    publishing: Option<Publication>,
    acks: seq<(nat, Subscriber)>)

  function Notified(s: State, id: nat): seq<Subscriber> {
    if id in s.notified then s.notified[id] else []
  }

  /** was_notified */
  predicate WasNotified(s: State, id: nat, who: Subscriber) { who in Notified(s, id) }

  /** add_notified_subscriber, after an acknowledgement */
  function Acknowledged(s: State, id: nat, who: Subscriber): State {
    s.(notified := s.notified[id := Notified(s, id) + [who]], acks := s.acks + [(id, who)])
  }

  predicate Increasing(ids: seq<nat>) {
    forall i, j :: 0 <= i < j < |ids| ==> ids[i] < ids[j]
  }

  /** messages_from_operation: what the subscriber has not been notified of, by id. */
  ghost predicate ToSend(s: State, op: Operation, who: Subscriber, ids: seq<nat>) {
    && Increasing(ids)
    && forall id :: id in ids <==> id in s.cache && s.cache[id] == op && !WasNotified(s, id, who)
  }

  ghost predicate DistinctSubscribers(whos: seq<Subscriber>) {
    forall i, j :: 0 <= i < j < |whos| ==> whos[i] != whos[j]
  }

  /** list_filter with was_not_notified */
  function NotNotified(s: State, id: nat, whos: seq<Subscriber>): seq<Subscriber> {
    if whos == [] then []
    else if WasNotified(s, id, whos[0]) then NotNotified(s, id, whos[1..])
    else [whos[0]] + NotNotified(s, id, whos[1..])
  }

  // ---- The steps ----

  datatype Step =
    | Subscribe(operation: Operation, who: Subscriber)
    | StartReplay(thread: nat, operation: Operation, who: Subscriber)
    | Replayed(thread: nat, acknowledged: bool)
    | EndReplay(thread: nat)
    | Publish(id: nat, operation: Operation, evicted: set<nat>)
    | Published(index: nat, acknowledged: bool)
    | EndPublish

  /** create_or_update_subscriber, for a subscriber without its socket. */
  function Subscribed(s: State, op: Operation, who: Subscriber): State {
    var whos := if op in s.subscribers then s.subscribers[op] else [];
    if who in whos then s else s.(subscribers := s.subscribers[op := whos + [who]])
  }

  /** The record of a replay after its next send. */
  function After(r: Replay): Replay
    requires r.pending != []
  {
    r.(pending := r.pending[1..])
  }

  /** s after the thread's next send. */
  function Sent(s: State, thread: nat, acknowledged: bool): State
    requires thread in s.replays && s.replays[thread].pending != []
  {
    var r := s.replays[thread];
    var after := s.(replays := s.replays[thread := After(r)]);
    if acknowledged then Acknowledged(after, r.pending[0], r.subscriber) else after
  }

  ghost predicate Next(s: State, t: State, step: Step) {
    match step
    case Subscribe(op, who) => t == Subscribed(s, op, who)
    // under the lock for readers
    case StartReplay(thread, op, who) => s.publishing == None && thread !in s.replays && Starts(s, t, thread, op, who)
    case Replayed(thread, acknowledged) =>
      thread in s.replays && s.replays[thread].pending != [] && t == Sent(s, thread, acknowledged)
    case EndReplay(thread) =>
      thread in s.replays && s.replays[thread].pending == [] && t == s.(replays := s.replays - {thread})
    // under the lock for the writer: save_message, which may evict, and then its subscribers
    case Publish(id, op, evicted) => (
      s.publishing == None && s.replays == map[] &&
      var whos := if op in s.subscribers then s.subscribers[op] else [];
      t == s.(cache := (s.cache - evicted)[id := op],
        publishing := Some(Publication(id, NotNotified(s, id, whos)))))
    case Published(index, acknowledged) => (
      s.publishing.Some? && index < |s.publishing.value.pending| &&
      var p := s.publishing.value;
      var after := s.(publishing := Some(Shortened(p, index)));
      t == if acknowledged then Acknowledged(after, p.id, p.pending[index]) else after)
    case EndPublish =>
      s.publishing.Some? && s.publishing.value.pending == [] && t == s.(publishing := None)
  }

  function Shortened(p: Publication, index: nat): Publication
    requires index < |p.pending|
  {
    p.(pending := p.pending[..index] + p.pending[index + 1..])
  }

  ghost predicate Starts(s: State, t: State, thread: nat, op: Operation, who: Subscriber) {
    exists ids :: ToSend(s, op, who, ids) && t == s.(replays := s.replays[thread := Replay(op, who, ids)])
  }

  predicate Serves(r: Replay, op: Operation, who: Subscriber) { r.operation == op && r.subscriber == who }

  /** No replay has anything left to send that subscriber of that queue. */
  ghost predicate NothingPending(s: State, op: Operation, who: Subscriber) {
    forall n :: n in s.replays && Serves(s.replays[n], op, who) ==> s.replays[n].pending == []
  }

  /** A subscriber does not subscribe again while there is something of the queue left to send
      it. */
  ghost predicate NoOverlap(s: State, step: Step) {
    step.StartReplay? ==> NothingPending(s, step.operation, step.who)
  }

  // ---- The invariant ----

  /** NOTIFIED_SUBSCRIBERS lists each acknowledgement, and none is listed twice. */
  ghost predicate AcksOk(s: State) {
    && (forall id: nat, who: Subscriber :: (id, who) in s.acks <==> WasNotified(s, id, who))
    && Once(s)
  }

  /** No acknowledgement so far repeats another. */
  ghost predicate Once(s: State) {
    forall i, j :: 0 <= i < j < |s.acks| ==> s.acks[i] != s.acks[j]
  }

  /** What a replay still has to send is cached, of its queue and not yet notified. */
  ghost predicate ReplayOk(s: State, r: Replay) {
    && Increasing(r.pending)
    && (forall id :: id in r.pending ==>
      id in s.cache && s.cache[id] == r.operation && !WasNotified(s, id, r.subscriber))
  }

  ghost predicate ReplaysOk(s: State) {
    && (forall n :: n in s.replays ==> ReplayOk(s, s.replays[n]))
    && NoClash(s.replays)
  }

  ghost predicate NoClash(replays: map<nat, Replay>) {
    forall n, m :: n in replays && m in replays && n != m ==> !Clash(replays[n], replays[m])
  }

  /** Two replays that both have something left to send the same subscriber of the same queue. */
  predicate Clash(q: Replay, r: Replay) {
    Serves(q, r.operation, r.subscriber) && q.pending != [] && r.pending != []
  }

  ghost predicate PublicationOk(s: State) {
    s.publishing.Some? ==>
      s.replays == map[] && PendingOk(s, s.publishing.value)
  }

  ghost predicate PendingOk(s: State, p: Publication) {
    && DistinctSubscribers(p.pending) && (forall who :: who in p.pending ==> !WasNotified(s, p.id, who))
    && p.id in s.cache
  }

  ghost predicate Inv(s: State) {
    && AcksOk(s) && ReplaysOk(s) && PublicationOk(s)
    && forall op :: op in s.subscribers ==> DistinctSubscribers(s.subscribers[op])
  }

  ghost predicate Init(s: State) {
    && s.cache == map[] && s.subscribers == map[] && s.notified == map[] && s.replays == map[]
    && s.publishing == None && s.acks == []
  }

  // ---- What a step keeps ----

  lemma AlreadySubscribed(s: State, op: Operation, who: Subscriber)
    requires op in s.subscribers && who in s.subscribers[op]
    ensures Subscribed(s, op, who) == s
  {
  }

  lemma MaySubscribe(s: State, op: Operation, who: Subscriber)
    ensures Next(s, Subscribed(s, op, who), Subscribe(op, who)) && NoOverlap(s, Subscribe(op, who))
    ensures var whos := if op in s.subscribers then s.subscribers[op] else [];
      who !in whos ==> Subscribed(s, op, who) == s.(subscribers := s.subscribers[op := whos + [who]])
  {
  }

  lemma AcknowledgedIs(s: State, id: nat, who: Subscriber)
    ensures forall i: nat, w: Subscriber :: WasNotified(Acknowledged(s, id, who), i, w) <==>
      WasNotified(s, i, w) || (i == id && w == who)
  {
  }

  lemma SentIs(s: State, thread: nat, acknowledged: bool)
    requires thread in s.replays && s.replays[thread].pending != []
    ensures var t, r := Sent(s, thread, acknowledged), s.replays[thread];
      && t.cache == s.cache && t.replays == s.replays[thread := After(r)]
      && t.replays - {thread} == s.replays - {thread}
      && forall i: nat, w: Subscriber :: WasNotified(t, i, w) <==>
        WasNotified(s, i, w) || (acknowledged && i == r.pending[0] && w == r.subscriber)
  {
  }

  lemma AcksGrow(s: State, id: nat, who: Subscriber)
    requires AcksOk(s) && !WasNotified(s, id, who)
    ensures AcksOk(Acknowledged(s, id, who))
  {
    var t := Acknowledged(s, id, who);
    AcknowledgedIs(s, id, who);
    hide WasNotified;
    forall i, j | 0 <= i < j < |t.acks| ensures t.acks[i] != t.acks[j] {
      assert s.acks == t.acks[..|s.acks|];
      assert t.acks[i] in s.acks;
    }
  }

  lemma {:induction false} FilterKeeps(s: State, id: nat, whos: seq<Subscriber>)
    requires DistinctSubscribers(whos)
    ensures var r := NotNotified(s, id, whos);
      DistinctSubscribers(r) && forall who :: who in r <==> who in whos && !WasNotified(s, id, who)
  {
    if whos != [] {
      FilterKeeps(s, id, whos[1..]);
      assert whos[0] !in whos[1..];
      assert whos == [whos[0]] + whos[1..];
      var rest := NotNotified(s, id, whos[1..]);
      assert forall i :: 0 <= i < |rest| ==> rest[i] in rest;
    }
  }

  /** A replay is not disturbed by an acknowledgement of another queue or subscriber, nor by any
      once it has nothing left to send. */
  lemma OtherReplay(s: State, t: State, id: nat, who: Subscriber, r: Replay)
    requires ReplayOk(s, r) && t.cache == s.cache && id in s.cache
    requires !Serves(r, s.cache[id], who) || r.pending == []
    requires forall i: nat, w: Subscriber :: WasNotified(t, i, w) <==> WasNotified(s, i, w) || (i == id && w == who)
    ensures ReplayOk(t, r)
  {
    hide WasNotified, Increasing;
  }

  lemma HeadLeaves(r: Replay)
    requires r.pending != [] && Increasing(r.pending)
    ensures Increasing(After(r).pending) && forall id :: id in r.pending <==>
      id == r.pending[0] || id in After(r).pending
    ensures r.pending[0] !in After(r).pending
  {
    var rest := After(r).pending;
    assert r.pending == [r.pending[0]] + rest;
    assert forall k :: 0 <= k < |rest| ==> rest[k] == r.pending[k + 1];
  }

  /** The replay that sends: the message leaves its list, notified or not. */
  lemma OwnReplay(s: State, t: State, r: Replay, acknowledged: bool)
    requires ReplayOk(s, r) && r.pending != [] && t.cache == s.cache
    requires forall i: nat, w: Subscriber :: WasNotified(t, i, w) <==>
      WasNotified(s, i, w) || (acknowledged && i == r.pending[0] && w == r.subscriber)
    ensures ReplayOk(t, After(r))
  {
    hide WasNotified;
    HeadLeaves(r);
    hide Increasing;
  }

  lemma SameNotified(s: State, t: State, r: Replay)
    requires ReplayOk(s, r) && t.cache == s.cache && t.notified == s.notified
    ensures ReplayOk(t, r)
  {
    assert forall i, w :: WasNotified(t, i, w) == WasNotified(s, i, w);
    hide WasNotified, Increasing;
  }

  lemma ReplayedIs(s: State, t: State, thread: nat, acknowledged: bool)
    requires Inv(s) && Next(s, t, Replayed(thread, acknowledged))
    ensures var r := s.replays[thread]; var id := r.pending[0];
      && ReplayOk(s, r) && r.pending != [] && s.publishing == None && !WasNotified(s, id, r.subscriber)
      && id in s.cache && s.cache[id] == r.operation
      && t.cache == s.cache && t.subscribers == s.subscribers && t.publishing == None
      && t.replays == s.replays[thread := After(r)]
      && AcksOk(t)
      && forall i: nat, w: Subscriber :: WasNotified(t, i, w) <==>
        WasNotified(s, i, w) || (acknowledged && i == id && w == r.subscriber)
  {
    var r := s.replays[thread];
    var id := r.pending[0];
    var after := s.(replays := s.replays[thread := After(r)]);
    assert ReplayOk(s, r);
    HeadToSend(s, r);
    SameAcks(s, after);
    hide ReplayOk, AcksOk, WasNotified;
    AcknowledgedIs(after, id, r.subscriber);
    if acknowledged { AcksGrow(after, id, r.subscriber); }
  }

  lemma HeadToSend(s: State, r: Replay)
    requires ReplayOk(s, r) && r.pending != []
    ensures var id := r.pending[0]; id in s.cache && s.cache[id] == r.operation && !WasNotified(s, id, r.subscriber)
  {
    assert r.pending[0] in r.pending;
  }

  lemma SameAcks(s: State, t: State)
    requires AcksOk(s) && t.notified == s.notified && t.acks == s.acks
    ensures AcksOk(t) && forall i: nat, w: Subscriber :: WasNotified(t, i, w) <==> WasNotified(s, i, w)
  {
    assert forall i: nat, w: Subscriber :: WasNotified(t, i, w) <==> WasNotified(s, i, w);
    hide WasNotified;
  }

  lemma ReplayedKeeps(s: State, t: State, thread: nat, acknowledged: bool)
    requires Inv(s) && Next(s, t, Replayed(thread, acknowledged))
    ensures Inv(t)
  {
    var r := s.replays[thread];
    ReplayedIs(s, t, thread, acknowledged);
    assert forall n :: n in s.replays && n != thread ==> !Clash(s.replays[n], r);
    NoNewClash(s.replays, thread, After(r));
    assert forall op :: op in t.subscribers ==> DistinctSubscribers(t.subscribers[op]);
    assert forall n :: n in s.replays ==> ReplayOk(s, s.replays[n]);
    hide *;
    forall n | n in t.replays ensures ReplayOk(t, t.replays[n]) {
      if n == thread {
        OwnReplay(s, t, r, acknowledged);
      } else {
        assert ReplayOk(s, s.replays[n]);
        if acknowledged {
          OtherServed(s.replays[n], r);
          OtherReplay(s, t, r.pending[0], r.subscriber, s.replays[n]);
        } else {
          StillOk(s, t, s.replays[n]);
        }
      }
    }
    InvWhen(t);
  }

  lemma OtherServed(q: Replay, r: Replay)
    requires !Clash(q, r) && r.pending != []
    ensures !Serves(q, r.operation, r.subscriber) || q.pending == []
  {
  }

  lemma InvWhen(s: State)
    requires AcksOk(s) && NoClash(s.replays) && s.publishing == None
    requires forall n :: n in s.replays ==> ReplayOk(s, s.replays[n])
    requires forall op :: op in s.subscribers ==> DistinctSubscribers(s.subscribers[op])
    ensures Inv(s)
  {
  }

  lemma StillOk(s: State, t: State, r: Replay)
    requires ReplayOk(s, r) && t.cache == s.cache
    requires forall i: nat, w: Subscriber :: WasNotified(t, i, w) <==> WasNotified(s, i, w)
    ensures ReplayOk(t, r)
  {
    hide WasNotified, Increasing;
  }

  /** A replay takes the place of one with as much to send to the same, or of none when nobody
      else has. */
  lemma NoNewClash(replays: map<nat, Replay>, thread: nat, r: Replay)
    requires NoClash(replays)
    requires forall n :: n in replays && n != thread && r.pending != [] ==> !Clash(replays[n], r)
    ensures NoClash(replays[thread := r])
  {
    forall n | n in replays && n != thread ensures !Clash(replays[n], r) && !Clash(r, replays[n]) {
    }
  }

  lemma FreshReplay(s: State, op: Operation, who: Subscriber, ids: seq<nat>)
    requires ToSend(s, op, who, ids)
    ensures ReplayOk(s, Replay(op, who, ids))
  {
    hide WasNotified;
  }

  lemma StartKeeps(s: State, t: State, thread: nat, op: Operation, who: Subscriber)
    requires Inv(s) && Next(s, t, StartReplay(thread, op, who)) && NothingPending(s, op, who)
    ensures Inv(t)
  {
    var ids :| ToSend(s, op, who, ids) && t == s.(replays := s.replays[thread := Replay(op, who, ids)]);
    FreshReplay(s, op, who, ids);
    SameAcks(s, t);
    NoNewClash(s.replays, thread, t.replays[thread]);
    hide ReplayOk, ToSend, WasNotified, AcksOk, NoClash, NothingPending;
    forall n | n in t.replays ensures ReplayOk(t, t.replays[n]) { SameNotified(s, t, t.replays[n]); }
  }

  lemma PublishKeeps(s: State, t: State, id: nat, op: Operation, evicted: set<nat>)
    requires Inv(s) && Next(s, t, Publish(id, op, evicted))
    ensures Inv(t)
  {
    var whos := if op in s.subscribers then s.subscribers[op] else [];
    SameAcks(s, t);
    FilterKeeps(s, id, whos);
    hide WasNotified, NotNotified, AcksOk, DistinctSubscribers;
    assert PendingOk(t, t.publishing.value);
  }

  lemma PendingShrinks(s: State, t: State, p: Publication, index: nat, acknowledged: bool)
    requires PendingOk(s, p) && index < |p.pending| && t.cache == s.cache
    requires forall i: nat, w: Subscriber :: WasNotified(t, i, w) <==>
      WasNotified(s, i, w) || (acknowledged && i == p.id && w == p.pending[index])
    ensures PendingOk(t, Shortened(p, index))
  {
    hide WasNotified;
    var rest := p.pending[..index] + p.pending[index + 1..];
    assert forall k :: 0 <= k < |rest| ==> rest[k] == p.pending[if k < index then k else k + 1];
    forall w | w in rest ensures w in p.pending && w != p.pending[index] {
      var k :| 0 <= k < |rest| && rest[k] == w;
    }
    forall w | w in p.pending && w != p.pending[index] ensures w in rest {
      var k :| 0 <= k < |p.pending| && p.pending[k] == w;
      assert rest[if k < index then k else k - 1] == w;
    }
  }

  lemma PublishedKeeps(s: State, t: State, index: nat, acknowledged: bool)
    requires Inv(s) && Next(s, t, Published(index, acknowledged))
    ensures Inv(t)
  {
    var p := s.publishing.value;
    var p' := Shortened(p, index);
    var after := s.(publishing := Some(p'));
    assert forall i: nat, w: Subscriber :: WasNotified(after, i, w) <==> WasNotified(s, i, w);
    AcknowledgedIs(after, p.id, p.pending[index]);
    assert p.pending[index] in p.pending;
    hide WasNotified;
    PendingShrinks(s, t, p, index, acknowledged);
    if acknowledged { AcksGrow(after, p.id, p.pending[index]); }
  }

  /** Every step keeps the invariant, as long as nobody subscribes again while there is something
      of the queue left to send it. */
  lemma StepKeeps(s: State, t: State, step: Step)
    requires Inv(s) && Next(s, t, step) && NoOverlap(s, step)
    ensures Inv(t)
  {
    match step
    case StartReplay(thread, op, who) => StartKeeps(s, t, thread, op, who);
    case Replayed(thread, acknowledged) => ReplayedKeeps(s, t, thread, acknowledged);
    case Publish(id, op, evicted) => PublishKeeps(s, t, id, op, evicted);
    case Published(index, acknowledged) => PublishedKeeps(s, t, index, acknowledged);
    case Subscribe(op, who) => SimpleKeeps(s, t);
    case EndReplay(thread) => SimpleKeeps(s, t);
    case EndPublish => SimpleKeeps(s, t);
  }

  /** The steps that notify nobody and send nothing. */
  lemma SimpleKeeps(s: State, t: State)
    requires Inv(s) && t.cache == s.cache && t.notified == s.notified && t.acks == s.acks
    requires t.replays.Keys <= s.replays.Keys && forall n :: n in t.replays ==> t.replays[n] == s.replays[n]
    requires t.publishing == s.publishing || t.publishing == None
    requires forall op :: op in t.subscribers ==> DistinctSubscribers(t.subscribers[op])
    ensures Inv(t)
  {
    assert forall i, w :: WasNotified(t, i, w) == WasNotified(s, i, w);
    hide WasNotified;
    forall n | n in t.replays ensures ReplayOk(t, t.replays[n]) { SameNotified(s, t, t.replays[n]); }
    hide ReplayOk;
  }

  // ---- Runs ----

  ghost predicate IsRun(run: seq<State>, steps: seq<Step>) {
    && |run| == |steps| + 1 && Init(run[0])
    && forall i :: 0 <= i < |steps| ==> Next(run[i], run[i + 1], steps[i]) && NoOverlap(run[i], steps[i])
  }

  lemma InitInv(s: State)
    requires Init(s)
    ensures Inv(s)
  {
  }

  lemma {:induction false} RunKeeps(run: seq<State>, steps: seq<Step>, i: nat)
    requires IsRun(run, steps) && i < |run|
    ensures Inv(run[i])
  {
    if i == 0 {
      InitInv(run[0]);
    } else {
      RunKeeps(run, steps, i - 1);
      StepKeeps(run[i - 1], run[i - 1 + 1], steps[i - 1]);
    }
  }

  /** However publications and replays are interleaved and whatever is lost on the way, nobody
      acknowledges a message twice, as long as nobody subscribes again while there is something
      of the queue left to send it. */
  lemma AcknowledgedOnce(run: seq<State>, steps: seq<Step>, k: nat)
    requires IsRun(run, steps) && k < |run|
    ensures Once(run[k])
    ensures forall id: nat, who: Subscriber :: (id, who) in run[k].acks <==> WasNotified(run[k], id, who)
  {
    RunKeeps(run, steps, k);
    hide WasNotified;
  }

  // ---- Who is subscribed, what is cached and what is acknowledged, told from the steps alone ----

  /** Subscribed to a queue are those who have subscribed, and nobody else. */
  lemma {:induction false} SubscribedExactly(run: seq<State>, steps: seq<Step>, k: nat, op: Operation, who: Subscriber)
    requires IsRun(run, steps) && k <= |steps|
    ensures Subscribe(op, who) in steps[..k] <==> op in run[k].subscribers && who in run[k].subscribers[op]
  {
    if k > 0 {
      SubscribedExactly(run, steps, k - 1, op, who);
      assert Next(run[k - 1], run[k - 1 + 1], steps[k - 1]);
      hide WasNotified, NotNotified, Starts;
      assert steps[..k] == steps[..k - 1] + [steps[k - 1]];
    }
  }

  /** The message is published to the queue at step j, and not evicted or replaced before k. */
  ghost predicate PublishedAt(steps: seq<Step>, j: nat, k: nat, id: nat, op: Operation)
    requires k <= |steps|
  {
    && j < k && steps[j].Publish? && steps[j].id == id && steps[j].operation == op
    && forall l :: j < l < k && steps[l].Publish? ==> steps[l].id != id && id !in steps[l].evicted
  }

  /** Cached is what has been published and not been evicted since. */
  lemma {:induction false} CachedExactly(run: seq<State>, steps: seq<Step>, k: nat, id: nat, op: Operation)
    requires IsRun(run, steps) && k <= |steps|
    ensures id in run[k].cache && run[k].cache[id] == op <==> exists j :: PublishedAt(steps, j, k, id, op)
  {
    if k > 0 {
      CachedExactly(run, steps, k - 1, id, op);
      assert Next(run[k - 1], run[k - 1 + 1], steps[k - 1]);
      CachedAfter(run[k - 1], run[k - 1 + 1], steps[k - 1]);
      hide Next, NoOverlap;
      PublishedBefore(steps, k - 1, k, id, op);
    }
  }

  lemma PublishedBefore(steps: seq<Step>, n: nat, k: nat, id: nat, op: Operation)
    requires k == n + 1 && k <= |steps|
    ensures (exists j :: PublishedAt(steps, j, k, id, op)) <==> (
      if steps[n].Publish? && (steps[n].id == id || id in steps[n].evicted)
      then steps[n].id == id && steps[n].operation == op
      else exists j :: PublishedAt(steps, j, n, id, op))
  {
    if steps[n].Publish? && (steps[n].id == id || id in steps[n].evicted) {
      assert steps[n].id == id && steps[n].operation == op ==> PublishedAt(steps, n, k, id, op);
    } else {
      assert forall j: nat :: PublishedAt(steps, j, k, id, op) <==> PublishedAt(steps, j, n, id, op);
    }
  }

  lemma CachedAfter(s: State, t: State, step: Step)
    requires Next(s, t, step)
    ensures t.cache == if step.Publish? then (s.cache - step.evicted)[step.id := step.operation] else s.cache
  {
    hide WasNotified, NotNotified, ToSend;
  }

  /** The message sent in a step and the subscriber it is sent to. */
  ghost function SendOf(s: State, step: Step): seq<(nat, Subscriber)> {
    match step
    case Replayed(thread, _) => (
      if thread !in s.replays || s.replays[thread].pending == [] then []
      else [(s.replays[thread].pending[0], s.replays[thread].subscriber)])
    case Published(index, _) => (
      if s.publishing == None || index >= |s.publishing.value.pending| then []
      else [(s.publishing.value.id, s.publishing.value.pending[index])])
    case _ => []
  }

  /** What is sent from step a to before step b. */
  ghost function Sends(run: seq<State>, steps: seq<Step>, a: nat, b: nat): seq<(nat, Subscriber)>
    requires b <= |steps| < |run|
  {
    if b <= a then [] else Sends(run, steps, a, b - 1) + SendOf(run[b - 1], steps[b - 1])
  }

  predicate Answered(step: Step) { (step.Replayed? || step.Published?) && step.acknowledged }

  /** What of it is acknowledged. */
  ghost function Acks(run: seq<State>, steps: seq<Step>, a: nat, b: nat): seq<(nat, Subscriber)>
    requires b <= |steps| < |run|
  {
    if b <= a then []
    else Acks(run, steps, a, b - 1) + (if Answered(steps[b - 1]) then SendOf(run[b - 1], steps[b - 1]) else [])
  }

  lemma StepAcks(s: State, t: State, step: Step)
    requires Next(s, t, step)
    ensures t.acks == s.acks + if Answered(step) then SendOf(s, step) else []
    ensures (step.Replayed? || step.Published?) <==> SendOf(s, step) != []
  {
    hide WasNotified, NotNotified, Notified;
  }

  /** NOTIFIED_SUBSCRIBERS lists what has been sent and acknowledged, and nothing else. */
  lemma {:induction false} AcksAre(run: seq<State>, steps: seq<Step>, a: nat, b: nat)
    requires IsRun(run, steps) && a <= b <= |steps|
    ensures run[b].acks == run[a].acks + Acks(run, steps, a, b)
    ensures forall id: nat, who: Subscriber :: WasNotified(run[b], id, who) <==> (id, who) in Acks(run, steps, 0, b)
  {
    AcksSince(run, steps, a, b);
    AcksSince(run, steps, 0, b);
    AcknowledgedOnce(run, steps, b);
    assert run[b].acks == Acks(run, steps, 0, b);
  }

  lemma {:induction false} AcksSince(run: seq<State>, steps: seq<Step>, a: nat, b: nat)
    requires IsRun(run, steps) && a <= b <= |steps|
    ensures run[b].acks == run[a].acks + Acks(run, steps, a, b)
  {
    if a < b {
      hide Next, NoOverlap, SendOf;
      AcksSince(run, steps, a, b - 1);
      StepAcks(run[b - 1], run[b - 1 + 1], steps[b - 1]);
    }
  }

  /** Every send from step a to before step b is acknowledged. */
  predicate NoneLost(steps: seq<Step>, a: nat, b: nat)
    requires b <= |steps|
  {
    forall l :: a <= l < b && (steps[l].Replayed? || steps[l].Published?) ==> steps[l].acknowledged
  }

  lemma {:induction false} AllAcked(run: seq<State>, steps: seq<Step>, a: nat, b: nat)
    requires b <= |steps| < |run| && NoneLost(steps, a, b)
    ensures Acks(run, steps, a, b) == Sends(run, steps, a, b)
  {
    if a < b { AllAcked(run, steps, a, b - 1); }
  }

  // ---- Publications ----

  /** Step j is the latest to publish before k, and that publication has not ended before k. */
  ghost predicate Publishing(steps: seq<Step>, j: nat, k: nat)
    requires k <= |steps|
  {
    j < k && steps[j].Publish? && forall l :: j < l < k ==> !steps[l].Publish? && !steps[l].EndPublish?
  }

  lemma {:induction false} PublishedLast(run: seq<State>, steps: seq<Step>, k: nat) returns (j: nat)
    requires IsRun(run, steps) && k <= |steps| && run[k].publishing.Some?
    ensures Publishing(steps, j, k)
  {
    assert k > 0 && Next(run[k - 1], run[k - 1 + 1], steps[k - 1]);
    if steps[k - 1].Publish? {
      j := k - 1;
    } else {
      hide WasNotified, NotNotified, Subscribed;
      j := PublishedLast(run, steps, k - 1);
    }
  }

  function Pairs(id: nat, whos: seq<Subscriber>): (r: seq<(nat, Subscriber)>)
    ensures |r| == |whos| && forall i :: 0 <= i < |r| ==> r[i] == (id, whos[i])
  {
    if whos == [] then [] else Pairs(id, whos[..|whos| - 1]) + [(id, whos[|whos| - 1])]
  }

  ghost function Pending(s: State): seq<(nat, Subscriber)> {
    if s.publishing == None then [] else Pairs(s.publishing.value.id, s.publishing.value.pending)
  }

  /** What is still to be sent at k and what has been sent since j is what was to be sent then. */
  ghost predicate Underway(run: seq<State>, steps: seq<Step>, j: nat, k: nat)
    requires j < k <= |steps| < |run|
  {
    multiset(Sends(run, steps, j, k)) + multiset(Pending(run[k])) == multiset(Pending(run[j + 1]))
  }

  /** What is to be sent when step j publishes. */
  ghost predicate Owed(run: seq<State>, steps: seq<Step>, j: nat, sends: seq<(nat, Subscriber)>)
    requires j < |steps| < |run| && steps[j].Publish?
  {
    && (forall l, m :: 0 <= l < m < |sends| ==> sends[l] != sends[m])
    && forall id, who :: (id, who) in sends <==> (
        id == steps[j].id && Subscribe(steps[j].operation, who) in steps[..j] && (id, who) !in run[j].acks)
  }

  lemma Begins(run: seq<State>, steps: seq<Step>, j: nat)
    requires IsRun(run, steps) && j < |steps| && steps[j].Publish?
    ensures Owed(run, steps, j, Pending(run[j + 1]))
  {
    RunKeeps(run, steps, j);
    OneStep(run, steps, j);
    AcknowledgedOnce(run, steps, j);
    AllSubscribed(run, steps, j, steps[j].operation);
    hide IsRun, Next, WasNotified, Inv, Pending;
    NewPublication(run[j], run[j + 1], steps[j]);
  }

  lemma AllSubscribed(run: seq<State>, steps: seq<Step>, k: nat, op: Operation)
    requires IsRun(run, steps) && k <= |steps|
    ensures forall who :: Subscribe(op, who) in steps[..k] <==>
      op in run[k].subscribers && who in run[k].subscribers[op]
  {
    forall who ensures Subscribe(op, who) in steps[..k] <==> op in run[k].subscribers && who in run[k].subscribers[op] {
      hide *;
      RunLength(run, steps);
      SubscribedExactly(run, steps, k, op, who);
    }
  }

  lemma NewPublication(s: State, t: State, step: Step)
    requires Inv(s) && Next(s, t, step) && step.Publish?
    ensures var sends, op := Pending(t), step.operation;
      && (forall l, m :: 0 <= l < m < |sends| ==> sends[l] != sends[m])
      && forall id, who :: (id, who) in sends <==> (
          id == step.id && op in s.subscribers && who in s.subscribers[op] && !WasNotified(s, id, who))
  {
    var id, op := step.id, step.operation;
    var whos := if op in s.subscribers then s.subscribers[op] else [];
    FilterKeeps(s, id, whos);
    hide WasNotified, NotNotified, Pairs;
    PairsAre(id, NotNotified(s, id, whos));
  }

  lemma PairsAre(id: nat, whos: seq<Subscriber>)
    requires DistinctSubscribers(whos)
    ensures var r := Pairs(id, whos);
      && (forall l, m :: 0 <= l < m < |r| ==> r[l] != r[m])
      && forall i, who :: (i, who) in r <==> i == id && who in whos
  {
    hide Pairs;
    var r := Pairs(id, whos);
    forall i, who ensures (i, who) in r <==> i == id && who in whos {
      if (i, who) in r { var l :| 0 <= l < |r| && r[l] == (i, who); }
      if i == id && who in whos { var l :| 0 <= l < |whos| && whos[l] == who; assert r[l] == (i, who); }
    }
  }

  lemma CountWithout<T>(s: seq<T>, index: nat)
    requires index < |s|
    ensures multiset(s[..index] + s[index + 1..]) + multiset([s[index]]) == multiset(s)
  {
    assert s == s[..index] + [s[index]] + s[index + 1..];
  }

  lemma PairsWithout(id: nat, whos: seq<Subscriber>, index: nat)
    requires index < |whos|
    ensures multiset(Pairs(id, whos[..index] + whos[index + 1..])) + multiset([(id, whos[index])])
      == multiset(Pairs(id, whos))
  {
    var all := Pairs(id, whos);
    assert Pairs(id, whos[..index] + whos[index + 1..]) == all[..index] + all[index + 1..];
    CountWithout(all, index);
  }

  lemma NextOfPublication(s: State, t: State, step: Step)
    requires Inv(s) && Next(s, t, step) && s.publishing.Some? && !step.EndPublish?
    ensures t.publishing.Some? && multiset(SendOf(s, step)) + multiset(Pending(t)) == multiset(Pending(s))
  {
    hide *;
    if step.Published? {
      AfterOneSend(s, t, step.index, step.acknowledged);
    } else {
      NothingPublished(s, t, step);
    }
  }

  lemma AfterOneSend(s: State, t: State, index: nat, acknowledged: bool)
    requires Next(s, t, Published(index, acknowledged))
    ensures t.publishing.Some?
    ensures multiset(SendOf(s, Published(index, acknowledged))) + multiset(Pending(t)) == multiset(Pending(s))
  {
    hide Pairs;
    var p := s.publishing.value;
    PairsWithout(p.id, p.pending, index);
    assert t.publishing == Some(Shortened(p, index));
  }

  lemma NothingPublished(s: State, t: State, step: Step)
    requires Inv(s) && Next(s, t, step) && s.publishing.Some? && !step.EndPublish? && !step.Published?
    ensures t.publishing == s.publishing && SendOf(s, step) == [] && Pending(t) == Pending(s)
  {
    hide WasNotified, NotNotified, Starts, AcksOk, ReplayOk, PendingOk;
  }

  lemma GoesOn(run: seq<State>, steps: seq<Step>, j: nat, k: nat)
    requires IsRun(run, steps) && j < k < |steps| && run[k].publishing.Some? && Underway(run, steps, j, k)
    requires !steps[k].EndPublish?
    ensures run[k + 1].publishing.Some? && Underway(run, steps, j, k + 1)
  {
    RunKeeps(run, steps, k);
    OneStep(run, steps, k);
    hide IsRun, Next, SendOf, Inv, Pending;
    NextOfPublication(run[k], run[k + 1], steps[k]);
    assert multiset(Sends(run, steps, j, k + 1)) ==
      multiset(Sends(run, steps, j, k)) + multiset(SendOf(run[k], steps[k]));
  }

  lemma OneStep(run: seq<State>, steps: seq<Step>, k: nat)
    requires IsRun(run, steps) && k < |steps|
    ensures Next(run[k], run[k + 1], steps[k])
  {
  }

  lemma PublishingBefore(steps: seq<Step>, j: nat, k: nat)
    requires k <= |steps| && Publishing(steps, j, k)
    ensures j < k && steps[j].Publish?
    ensures k > j + 1 ==> Publishing(steps, j, k - 1) && !steps[k - 1].EndPublish?
  {
  }

  lemma NothingSentYet(run: seq<State>, steps: seq<Step>, j: nat)
    requires IsRun(run, steps) && j < |steps| && steps[j].Publish?
    ensures run[j + 1].publishing.Some? && Underway(run, steps, j, j + 1)
  {
    OneStep(run, steps, j);
    assert Sends(run, steps, j, j + 1) == [];
  }

  lemma {:induction false} IsUnderway(run: seq<State>, steps: seq<Step>, j: nat, k: nat)
    requires IsRun(run, steps) && k <= |steps| && Publishing(steps, j, k)
    ensures run[k].publishing.Some? && Underway(run, steps, j, k)
  {
    hide *;
    PublishingBefore(steps, j, k);
    if k == j + 1 {
      NothingSentYet(run, steps, j);
    } else {
      IsUnderway(run, steps, j, k - 1);
      GoesOn(run, steps, j, k - 1);
    }
  }

  /** A publication that ends has sent its message, and nothing else, exactly once to everyone who
      had subscribed to its queue and not acknowledged it when it began, and to nobody else. When
      every send was acknowledged, everyone who had subscribed has been notified. */
  lemma PublicationEnds(run: seq<State>, steps: seq<Step>, k: nat) returns (j: nat)
    requires IsRun(run, steps) && k < |steps| && steps[k] == EndPublish
    ensures j < k && steps[j].Publish? && forall l :: j < l < k ==> !steps[l].Publish? && !steps[l].EndPublish?
    ensures var sends := Sends(run, steps, j, k);
      && (forall l, m :: 0 <= l < m < |sends| ==> sends[l] != sends[m])
      && forall id, who :: (id, who) in sends <==> (
          id == steps[j].id && Subscribe(steps[j].operation, who) in steps[..j] && (id, who) !in run[j].acks)
    ensures (forall l :: j < l < k && steps[l].Published? ==> steps[l].acknowledged) ==>
      forall who :: Subscribe(steps[j].operation, who) in steps[..j] ==> (steps[j].id, who) in run[k].acks
    ensures steps[j].id in run[k].cache && run[k].cache[steps[j].id] == steps[j].operation
  {
    OneStep(run, steps, k);
    j := PublishedLast(run, steps, k);
    IsUnderway(run, steps, j, k);
    Begins(run, steps, j);
    assert PublishedAt(steps, j, k, steps[j].id, steps[j].operation);
    CachedExactly(run, steps, k, steps[j].id, steps[j].operation);
    AcksSince(run, steps, j, k);
    OnlyPublished(run, steps, j, k);
    if NoneLost(steps, j, k) { AllAcked(run, steps, j, k); }
    hide IsRun, Sends, Acks;
    assert Pending(run[k]) == [];
    SameSends(Sends(run, steps, j, k), Pending(run[j + 1]));
  }

  /** Nothing is replayed during a publication. */
  lemma {:induction false} OnlyPublished(run: seq<State>, steps: seq<Step>, j: nat, k: nat)
    requires IsRun(run, steps) && k <= |steps| && Publishing(steps, j, k)
    ensures forall l :: j <= l < k ==> !steps[l].Replayed?
  {
    forall l | j < l < k ensures !steps[l].Replayed? {
      OneStep(run, steps, l);
      RunKeeps(run, steps, l);
      IsUnderway(run, steps, j, l);
      hide IsRun, AcksOk, ReplayOk, PendingOk;
    }
  }

  lemma SameSends(a: seq<(nat, Subscriber)>, b: seq<(nat, Subscriber)>)
    requires multiset(a) == multiset(b) && forall l, m :: 0 <= l < m < |b| ==> b[l] != b[m]
    ensures forall x :: x in a <==> x in b
    ensures forall l, m :: 0 <= l < m < |a| ==> a[l] != a[m]
  {
    forall x ensures x in a <==> x in b {
      assert x in a <==> x in multiset(a);
    }
    forall l, m | 0 <= l < m < |a| ensures a[l] != a[m] {
      AtLeastTwice(a, l, m);
      AtMostOnce(b, a[l]);
    }
  }

  lemma AtLeastTwice<T>(s: seq<T>, l: nat, m: nat)
    requires l < m < |s|
    ensures s[l] == s[m] ==> multiset(s)[s[l]] >= 2
  {
    assert s == s[..l] + [s[l]] + s[l + 1..m] + [s[m]] + s[m + 1..];
  }

  lemma AtMostOnce<T>(s: seq<T>, x: T)
    requires forall l, m :: 0 <= l < m < |s| ==> s[l] != s[m]
    ensures multiset(s)[x] <= 1
  {
    if i :| 0 <= i < |s| && s[i] == x {
      CountWithout(s, i);
      var rest := s[..i] + s[i + 1..];
      assert forall h :: 0 <= h < |rest| ==> rest[h] == s[if h < i then h else h + 1];
      assert x !in rest;
    }
  }

  // ---- Replays ----

  /** What the thread sends from step a to before step b. */
  ghost function SentBy(run: seq<State>, steps: seq<Step>, thread: nat, a: nat, b: nat): seq<(nat, Subscriber)>
    requires b <= |steps| < |run|
  {
    if b <= a then []
    else
      SentBy(run, steps, thread, a, b - 1)
      + (if steps[b - 1].Replayed? && steps[b - 1].thread == thread then SendOf(run[b - 1], steps[b - 1]) else [])
  }

  /** Step j starts a replay of the thread that has not ended before k. */
  ghost predicate Replaying(steps: seq<Step>, thread: nat, j: nat, k: nat)
    requires k <= |steps|
  {
    && j < k && steps[j].StartReplay? && steps[j].thread == thread
    && forall l :: j < l < k ==> steps[l] != EndReplay(thread)
  }

  lemma {:induction false} StartedLast(run: seq<State>, steps: seq<Step>, k: nat, thread: nat) returns (j: nat)
    requires IsRun(run, steps) && k <= |steps| && thread in run[k].replays
    ensures Replaying(steps, thread, j, k)
  {
    assert k > 0 && Next(run[k - 1], run[k - 1 + 1], steps[k - 1]);
    if steps[k - 1].StartReplay? && steps[k - 1].thread == thread {
      j := k - 1;
    } else {
      hide WasNotified, NotNotified, Subscribed, ToSend;
      j := StartedLast(run, steps, k - 1, thread);
    }
  }

  function MessageIds(sends: seq<(nat, Subscriber)>): (ids: seq<nat>)
    ensures |ids| == |sends| && forall i :: 0 <= i < |ids| ==> ids[i] == sends[i].0
  {
    if sends == [] then [] else MessageIds(sends[..|sends| - 1]) + [sends[|sends| - 1].0]
  }

  /** What the thread has sent since j and what it still has to send are what was to be sent then. */
  ghost predicate OnItsWay(run: seq<State>, steps: seq<Step>, thread: nat, j: nat, k: nat)
    requires j < k <= |steps| < |run| && steps[j].StartReplay?
  {
    && thread in run[k].replays && Serves(run[k].replays[thread], steps[j].operation, steps[j].who)
    && run[k].cache == run[j].cache
    && (forall x :: x in SentBy(run, steps, thread, j, k) ==> x.1 == steps[j].who)
    && ToSend(run[j], steps[j].operation, steps[j].who,
        MessageIds(SentBy(run, steps, thread, j, k)) + run[k].replays[thread].pending)
  }

  lemma ReplayBegins(run: seq<State>, steps: seq<Step>, thread: nat, j: nat)
    requires IsRun(run, steps) && j < |steps| && steps[j].StartReplay? && steps[j].thread == thread
    ensures OnItsWay(run, steps, thread, j, j + 1)
  {
    assert Next(run[j], run[j + 1], steps[j]);
    hide ToSend;
    assert SentBy(run, steps, thread, j, j + 1) == [];
    assert [] + run[j + 1].replays[thread].pending == run[j + 1].replays[thread].pending;
  }

  /** One step of the thread's own replay: the head of what is pending is sent. */
  lemma OwnStep(s: State, t: State, step: Step, thread: nat)
    requires Next(s, t, step) && step.Replayed? && step.thread == thread
    ensures thread in s.replays && s.replays[thread].pending != []
    ensures SendOf(s, step) == [(s.replays[thread].pending[0], s.replays[thread].subscriber)]
    ensures thread in t.replays && t.replays[thread] == After(s.replays[thread]) && t.cache == s.cache
  {
    SentIs(s, thread, step.acknowledged);
  }

  lemma OwnSend(run: seq<State>, steps: seq<Step>, thread: nat, j: nat, k: nat)
    requires IsRun(run, steps) && j < k < |steps| && steps[j].StartReplay? && OnItsWay(run, steps, thread, j, k)
    requires steps[k].Replayed? && steps[k].thread == thread
    ensures OnItsWay(run, steps, thread, j, k + 1)
  {
    assert Next(run[k], run[k + 1], steps[k]);
    hide ToSend, IsRun, Next, NoOverlap, SendOf;
    OwnStep(run[k], run[k + 1], steps[k], thread);
    var r, sent := run[k].replays[thread], SentBy(run, steps, thread, j, k);
    assert SentBy(run, steps, thread, j, k + 1) == sent + [(r.pending[0], r.subscriber)];
    MessageIdsMore(sent, r);
  }

  lemma MessageIdsMore(sent: seq<(nat, Subscriber)>, r: Replay)
    requires r.pending != []
    ensures MessageIds(sent + [(r.pending[0], r.subscriber)]) + After(r).pending == MessageIds(sent) + r.pending
  {
  }

  lemma OtherStep(s: State, t: State, step: Step, thread: nat)
    requires Inv(s) && Next(s, t, step) && thread in s.replays && step != EndReplay(thread)
    requires !(step.Replayed? && step.thread == thread)
    ensures thread in t.replays && t.replays[thread] == s.replays[thread] && t.cache == s.cache
  {
    hide WasNotified, NotNotified, ToSend, AcksOk, ReplayOk, PendingOk;
  }

  lemma ReplayGoesOn(run: seq<State>, steps: seq<Step>, thread: nat, j: nat, k: nat)
    requires IsRun(run, steps) && j < k < |steps| && steps[j].StartReplay? && OnItsWay(run, steps, thread, j, k)
    requires steps[k] != EndReplay(thread)
    ensures OnItsWay(run, steps, thread, j, k + 1)
  {
    if steps[k].Replayed? && steps[k].thread == thread {
      hide *;
      OwnSend(run, steps, thread, j, k);
    } else {
      RunKeeps(run, steps, k);
      assert Next(run[k], run[k + 1], steps[k]);
      hide ToSend, IsRun, Next, NoOverlap, Inv, SendOf;
      OtherStep(run[k], run[k + 1], steps[k], thread);
      assert SentBy(run, steps, thread, j, k + 1) == SentBy(run, steps, thread, j, k);
    }
  }

  lemma ReplayingBefore(steps: seq<Step>, thread: nat, j: nat, k: nat)
    requires k <= |steps| && Replaying(steps, thread, j, k)
    ensures j < k && steps[j].StartReplay? && steps[j].thread == thread
    ensures k > j + 1 ==> Replaying(steps, thread, j, k - 1) && steps[k - 1] != EndReplay(thread)
  {
  }

  lemma {:induction false} IsOnItsWay(run: seq<State>, steps: seq<Step>, thread: nat, j: nat, k: nat)
    requires IsRun(run, steps) && k <= |steps| && Replaying(steps, thread, j, k)
    ensures OnItsWay(run, steps, thread, j, k)
  {
    hide *;
    ReplayingBefore(steps, thread, j, k);
    if k == j + 1 {
      ReplayBegins(run, steps, thread, j);
    } else {
      IsOnItsWay(run, steps, thread, j, k - 1);
      ReplayGoesOn(run, steps, thread, j, k - 1);
    }
  }

  /** Every send of the thread from step a to before step b is acknowledged. */
  predicate NoneOfItsLost(steps: seq<Step>, thread: nat, a: nat, b: nat)
    requires b <= |steps|
  {
    forall l :: a <= l < b && steps[l].Replayed? && steps[l].thread == thread ==> steps[l].acknowledged
  }

  lemma {:induction false} ItsAcked(run: seq<State>, steps: seq<Step>, thread: nat, a: nat, b: nat)
    requires IsRun(run, steps) && a <= b <= |steps| && NoneOfItsLost(steps, thread, a, b)
    ensures forall x :: x in SentBy(run, steps, thread, a, b) || x in run[a].acks ==> x in run[b].acks
  {
    if a < b {
      hide Next, NoOverlap, SendOf;
      ItsAcked(run, steps, thread, a, b - 1);
      StepAcks(run[b - 1], run[b - 1 + 1], steps[b - 1]);
    }
  }

  /** A replay begun at step j that ends has sent, in the order of their ids and each once, exactly
      the cached messages of the queue that the subscriber had not acknowledged when it began.
      When each of them was acknowledged, the subscriber has been notified of every message of the
      queue that is cached. */
  lemma ReplayEnds(run: seq<State>, steps: seq<Step>, thread: nat, j: nat, k: nat)
    requires IsRun(run, steps) && k < |steps| && steps[k] == EndReplay(thread)
    requires j < k && steps[j].StartReplay? && steps[j].thread == thread
    requires forall l :: j < l < k ==> steps[l] != EndReplay(thread)
    ensures var sent := SentBy(run, steps, thread, j, k);
      && (forall l, m :: 0 <= l < m < |sent| ==> sent[l].0 < sent[m].0)
      && forall id, who :: (id, who) in sent <==> (
          && who == steps[j].who && id in run[j].cache && run[j].cache[id] == steps[j].operation
          && (id, who) !in run[j].acks)
    ensures (forall l :: j < l < k && steps[l].Replayed? && steps[l].thread == thread ==> steps[l].acknowledged) ==>
      forall id :: id in run[k].cache && run[k].cache[id] == steps[j].operation ==> (id, steps[j].who) in run[k].acks
  {
    assert Next(run[k], run[k + 1], steps[k]);
    IsOnItsWay(run, steps, thread, j, k);
    AcknowledgedOnce(run, steps, j);
    if NoneOfItsLost(steps, thread, j, k) { ItsAcked(run, steps, thread, j, k); }
    assert run[k].replays[thread].pending == [];
    hide IsRun, Next, NoOverlap, SentBy, WasNotified, ToSend;
    assert MessageIds(SentBy(run, steps, thread, j, k)) + [] == MessageIds(SentBy(run, steps, thread, j, k));
    WhatWasSent(run[j], steps[j].operation, steps[j].who, SentBy(run, steps, thread, j, k));
  }

  lemma WhatWasSent(s: State, op: Operation, who': Subscriber, sent: seq<(nat, Subscriber)>)
    requires ToSend(s, op, who', MessageIds(sent)) && forall x :: x in sent ==> x.1 == who'
    ensures forall l, m :: 0 <= l < m < |sent| ==> sent[l].0 < sent[m].0
    ensures forall id, who :: (id, who) in sent <==> (
      who == who' && id in s.cache && s.cache[id] == op && !WasNotified(s, id, who))
  {
    hide WasNotified, MessageIds;
    forall l,
      m | 0 <= l < m < |sent| ensures sent[l].0 < sent[m].0 { assert MessageIds(sent)[l] < MessageIds(sent)[m]; }
    IdSent(sent, who');
  }

  lemma IdSent(sent: seq<(nat, Subscriber)>, who': Subscriber)
    requires forall x :: x in sent ==> x.1 == who'
    ensures forall id, who :: (id, who) in sent <==> who == who' && id in MessageIds(sent)
  {
    hide MessageIds;
    forall id | id in MessageIds(sent) ensures (id, who') in sent {
      var l :| 0 <= l < |sent| && MessageIds(sent)[l] == id;
      assert sent[l] in sent && sent[l] == (id, who');
    }
    forall id, who | (id, who) in sent ensures id in MessageIds(sent) {
      var l :| 0 <= l < |sent| && sent[l] == (id, who);
      assert MessageIds(sent)[l] == id;
    }
  }

  /** The replay that ends at step k was begun. */
  lemma ReplayBegan(run: seq<State>, steps: seq<Step>, thread: nat, k: nat) returns (j: nat)
    requires IsRun(run, steps) && k < |steps| && steps[k] == EndReplay(thread)
    ensures j < k && steps[j].StartReplay? && steps[j].thread == thread
    ensures forall l :: j < l < k ==> steps[l] != EndReplay(thread)
  {
    assert Next(run[k], run[k + 1], steps[k]);
    j := StartedLast(run, steps, k, thread);
  }

  // ---- Nobody misses anything ----

  /** Every send to that subscriber from step a to before step b is acknowledged. */
  ghost predicate NoneLostFor(run: seq<State>, steps: seq<Step>, who: Subscriber, a: nat, b: nat)
    requires b <= |steps| < |run|
  {
    forall l, id :: a <= l < b && (id, who) in SendOf(run[l], steps[l]) ==> Answered(steps[l])
  }

  /** Every cached message of the queue is acknowledged or about to be sent to the subscriber. */
  ghost predicate Told(s: State, op: Operation, who: Subscriber) {
    forall id :: id in s.cache && s.cache[id] == op ==>
      || WasNotified(s, id, who)
      || (s.publishing.Some? && s.publishing.value.id == id && who in s.publishing.value.pending)
  }

  lemma StillTold(s: State, t: State, step: Step, op: Operation, who: Subscriber)
    requires Inv(s) && Next(s, t, step) && Told(s, op, who)
    requires op in s.subscribers && who in s.subscribers[op]
    requires forall id :: (id, who) in SendOf(s, step) ==> Answered(step)
    ensures Told(t, op, who)
  {
    match step
    case Publish(id, o, evicted) => ToldOfNew(s, t, id, o, evicted, op, who);
    case Published(index, acknowledged) => ToldOfPublished(s, t, index, acknowledged, op, who);
    case Replayed(thread, acknowledged) => ToldMore(s, t, thread, acknowledged, op, who);
    case _ =>
      SameNotifications(s, t);
      hide WasNotified, ToSend;
  }

  lemma SameNotifications(s: State, t: State)
    requires t.notified == s.notified
    ensures forall id, who :: WasNotified(t, id, who) == WasNotified(s, id, who)
  {
  }

  lemma ToldMore(s: State, t: State, thread: nat, acknowledged: bool, op: Operation, who: Subscriber)
    requires Next(s, t, Replayed(thread, acknowledged)) && Told(s, op, who)
    ensures Told(t, op, who)
  {
    SentIs(s, thread, acknowledged);
    assert t.publishing == s.publishing;
    hide WasNotified, Sent;
  }

  lemma ToldOfNew(s: State, t: State, id: nat, o: Operation, evicted: set<nat>, op: Operation, who: Subscriber)
    requires Inv(s) && Next(s, t, Publish(id, o, evicted)) && Told(s, op, who)
    requires op in s.subscribers && who in s.subscribers[op]
    ensures Told(t, op, who)
  {
    var whos := if o in s.subscribers then s.subscribers[o] else [];
    var sends := NotNotified(s, id, whos);
    assert s.publishing == None && t.cache == (s.cache - evicted)[id := o] && t.publishing ==
      Some(Publication(id, sends));
    FilterKeeps(s, id, whos);
    SameNotifications(s, t);
    hide Next, Inv, WasNotified, NotNotified;
    forall i | i in t.cache && t.cache[i] == op ensures WasNotified(t, i, who) || (i == id && who in sends) {
      if i != id { assert i in s.cache && s.cache[i] == op; }
    }
  }

  lemma ToldOfPublished(s: State, t: State, index: nat, acknowledged: bool, op: Operation, who: Subscriber)
    requires Next(s, t, Published(index, acknowledged)) && Told(s, op, who)
    requires forall id :: (id, who) in SendOf(s, Published(index, acknowledged)) ==> acknowledged
    ensures Told(t, op, who)
  {
    var p := s.publishing.value;
    var rest := p.pending[..index] + p.pending[index + 1..];
    var after := s.(publishing := Some(Shortened(p, index)));
    assert forall i, w :: WasNotified(after, i, w) == WasNotified(s, i, w);
    AcknowledgedIs(after, p.id, p.pending[index]);
    hide WasNotified;
    if who in p.pending && who != p.pending[index] {
      var k :| 0 <= k < |p.pending| && p.pending[k] == who;
      assert rest[if k < index then k else k - 1] == who;
    }
    if who == p.pending[index] { assert (p.id, who) in SendOf(s, Published(index, acknowledged)); }
  }

  lemma {:induction false} RemainsTold(run: seq<State>, steps: seq<Step>, a: nat, k: nat, op: Operation,
                                       who: Subscriber)
    requires IsRun(run, steps) && a <= k <= |steps| && Told(run[a], op, who)
    requires Subscribe(op, who) in steps[..a] && NoneLostFor(run, steps, who, a, k)
    ensures Told(run[k], op, who)
  {
    hide *;
    RunLength(run, steps);
    if a < k {
      SendAnswered(run, steps, who, a, k);
      RemainsTold(run, steps, a, k - 1, op, who);
      RunKeeps(run, steps, k - 1);
      StillSubscribed(run, steps, a, k - 1, op, who);
      OneStep(run, steps, k - 1);
      StillTold(run[k - 1], run[k - 1 + 1], steps[k - 1], op, who);
    }
  }

  lemma StillSubscribed(run: seq<State>, steps: seq<Step>, a: nat, k: nat, op: Operation, who: Subscriber)
    requires IsRun(run, steps) && a <= k <= |steps| && Subscribe(op, who) in steps[..a]
    ensures |run| == |steps| + 1 && op in run[k].subscribers && who in run[k].subscribers[op]
  {
    hide *;
    SubscribedExactly(run, steps, k, op, who);
    assert steps[..a] <= steps[..k];
    RunLength(run, steps);
  }

  lemma RunLength(run: seq<State>, steps: seq<Step>)
    requires IsRun(run, steps)
    ensures |run| == |steps| + 1
  {
  }

  lemma SendAnswered(run: seq<State>, steps: seq<Step>, who: Subscriber, a: nat, b: nat)
    requires a < b <= |steps| < |run| && NoneLostFor(run, steps, who, a, b)
    ensures |run| > b
    ensures forall id :: (id, who) in SendOf(run[b - 1], steps[b - 1]) ==> Answered(steps[b - 1])
    ensures NoneLostFor(run, steps, who, a, b - 1)
  {
  }

  /** Whoever has subscribed and had the cached messages replayed has, from then on, been notified
      of every cached message of the queue whenever no publication is under way, as long as what
      is sent to it is acknowledged: nothing published meanwhile falls between the two. */
  lemma NobodyMisses(run: seq<State>, steps: seq<Step>, thread: nat, j: nat, e: nat, k: nat)
    requires IsRun(run, steps) && e < k <= |steps| && steps[e] == EndReplay(thread)
    requires j < e && steps[j].StartReplay? && steps[j].thread == thread
    requires forall l :: j < l < e ==> steps[l] != EndReplay(thread)
    requires Subscribe(steps[j].operation, steps[j].who) in steps[..j]
    requires forall l, id :: j < l < k && (id, steps[j].who) in SendOf(run[l], steps[l]) ==> steps[l].acknowledged
    requires run[k].publishing == None
    ensures forall id :: id in run[k].cache && run[k].cache[id] == steps[j].operation ==>
      (id, steps[j].who) in run[k].acks
  {
    var op, who := steps[j].operation, steps[j].who;
    assert NoneLostFor(run, steps, who, j, k);
    ItsSends(run, steps, thread, j, e, k);
    assert forall l :: j < l < e && steps[l].Replayed? && steps[l].thread == thread ==> steps[l].acknowledged;
    ReplayEnds(run, steps, thread, j, e);
    AcknowledgedOnce(run, steps, e);
    assert Next(run[e], run[e + 1], steps[e]);
    assert Told(run[e + 1], op, who) by {
      assert forall i, w :: WasNotified(run[e + 1], i, w) == WasNotified(run[e], i, w);
      hide WasNotified;
    }
    hide Next, NoOverlap, WasNotified, SentBy, SendOf;
    assert steps[..j] <= steps[..e + 1];
    RemainsTold(run, steps, e + 1, k, op, who);
    AcknowledgedOnce(run, steps, k);
  }

  lemma ItsSends(run: seq<State>, steps: seq<Step>, thread: nat, j: nat, e: nat, k: nat)
    requires IsRun(run, steps) && e < k <= |steps| && Replaying(steps, thread, j, e)
    requires NoneLostFor(run, steps, steps[j].who, j, k)
    ensures NoneOfItsLost(steps, thread, j, e)
  {
    forall l | j <= l < e && steps[l].Replayed? && steps[l].thread == thread ensures steps[l].acknowledged {
      assert l > j;
      assert Next(run[l], run[l + 1], steps[l]);
      IsOnItsWay(run, steps, thread, j, l);
      assert (run[l].replays[thread].pending[0], steps[j].who) in SendOf(run[l], steps[l]);
    }
  }

  // ---- Two replays at a time ----

  /** The run goes on from s, and nobody subscribes again too early any more. */
  ghost predicate Continues(run: seq<State>, steps: seq<Step>, s: State) {
    && |run| == |steps| + 1 && run[0] == s
    && forall i :: 0 <= i < |steps| ==> Next(run[i], run[i + 1], steps[i]) && NoOverlap(run[i], steps[i])
  }

  /** From s a message can still come to be acknowledged twice. */
  ghost predicate MayRepeat(s: State) {
    exists run, steps :: Continues(run, steps, s) && !Once(run[|run| - 1])
  }

  lemma {:induction false} ContinuesKeeps(run: seq<State>, steps: seq<Step>, s: State)
    requires Continues(run, steps, s) && Inv(s)
    ensures Inv(run[|run| - 1])
    decreases |steps|
  {
    hide Next, NoOverlap, Inv;
    var n := |steps|;
    if n > 0 {
      ContinuesKeeps(run[..n], steps[..n - 1], s);
      StepKeeps(run[n - 1], run[n - 1 + 1], steps[n - 1]);
    }
  }

  /** The run begins with that step to t. */
  lemma Prepend(s: State, t: State, step: Step, run: seq<State>, steps: seq<Step>)
    requires Next(s, t, step) && NoOverlap(s, step) && Continues(run, steps, t)
    ensures Continues([s] + run, [step] + steps, s) && ([s] + run)[|run|] == run[|run| - 1]
  {
    var more, all := [step] + steps, [s] + run;
    forall i | 0 <= i < |more| ensures Next(all[i], all[i + 1], more[i]) && NoOverlap(all[i], more[i]) {
      if i > 0 { assert all[i] == run[i - 1] && all[i + 1] == run[i - 1 + 1] && more[i] == steps[i - 1]; }
    }
  }

  /** A replay can go on until a message it has left to send is acknowledged. */
  lemma {:induction false} SentInTheEnd(s: State, thread: nat, id: nat) returns (run: seq<State>, steps: seq<Step>)
    requires thread in s.replays && id in s.replays[thread].pending
    ensures Continues(run, steps, s)
    ensures s.acks < run[|run| - 1].acks
    ensures run[|run| - 1].acks[|run[|run| - 1].acks| - 1] == (id, s.replays[thread].subscriber)
    decreases |s.replays[thread].pending|
  {
    var r := s.replays[thread];
    var t := Sent(s, thread, true);
    assert t.replays[thread] == After(r);
    if r.pending[0] == id {
      run, steps := [s, t], [Replayed(thread, true)];
    } else {
      assert r.pending == [r.pending[0]] + r.pending[1..];
      run, steps := SentInTheEnd(t, thread, id);
      Prepend(s, t, Replayed(thread, true), run, steps);
      run, steps := [s] + run, [Replayed(thread, true)] + steps;
    }
  }

  /** The acknowledgements of a thread that goes on until the message is acknowledged once more. */
  lemma Repeats(s: State, n: nat, thread: nat)
    requires n in s.replays && thread in s.replays && n != thread && s.replays[n].pending != []
    requires s.replays[n].pending[0] in s.replays[thread].pending
    requires s.replays[n].subscriber == s.replays[thread].subscriber
    ensures MayRepeat(s)
  {
    var id, who := s.replays[n].pending[0], s.replays[n].subscriber;
    var t := Sent(s, n, true);
    assert t.acks == s.acks + [(id, who)] && t.replays[thread] == s.replays[thread];
    var run, steps := SentInTheEnd(t, thread, id);
    Prepend(s, t, Replayed(n, true), run, steps);
    var last := run[|run| - 1].acks;
    assert last[|t.acks| - 1] == t.acks[|t.acks| - 1] == (id, who) == last[|last| - 1];
    assert !Once(run[|run| - 1]);
  }

  /** Subscribing again lets a message be acknowledged twice if and only if there was something
      of the queue left to send that subscriber. */
  lemma TwiceExactly(s: State, t: State, thread: nat, op: Operation, who: Subscriber)
    requires Inv(s) && Next(s, t, StartReplay(thread, op, who))
    ensures MayRepeat(t) <==> !NothingPending(s, op, who)
  {
    hide ToSend, MayRepeat;
    if NothingPending(s, op, who) {
      StartKeeps(s, t, thread, op, who);
      NeverRepeats(t);
    } else {
      var n :| n in s.replays && Serves(s.replays[n], op, who) && s.replays[n].pending != [];
      StartsWithAll(s, t, thread, op, who, s.replays[n]);
      hide Next;
      Repeats(t, n, thread);
    }
  }

  lemma NeverRepeats(s: State)
    requires Inv(s)
    ensures !MayRepeat(s)
  {
    forall run, steps | Continues(run, steps, s) ensures Once(run[|run| - 1]) {
      ContinuesKeeps(run, steps, s);
    }
  }

  /** A new replay has to send whatever another one still has to. */
  lemma StartsWithAll(s: State, t: State, thread: nat, op: Operation, who: Subscriber, r: Replay)
    requires Next(s, t, StartReplay(thread, op, who)) && ReplayOk(s, r) && Serves(r, op, who)
    ensures thread in t.replays && t.replays - {thread} == s.replays
    ensures Serves(t.replays[thread], op, who) && forall id :: id in r.pending ==> id in t.replays[thread].pending
  {
  }

  /** Such a state comes about: a message is published, and someone subscribes. */
  lemma OverlapComesAbout(id: nat, op: Operation, who: Subscriber) returns (run: seq<State>, steps: seq<Step>)
    ensures IsRun(run, steps) && !NothingPending(run[|run| - 1], op, who)
  {
    var s0 := State(map[], map[], map[], map[], None, []);
    var s1 := s0.(cache := map[id := op], publishing := Some(Publication(id, [])));
    var s2 := s1.(publishing := None);
    var s3 := s2.(replays := map[0 := Replay(op, who, [id])]);
    run, steps := [s0, s1, s2, s3], [Publish(id, op, {}), EndPublish, StartReplay(0, op, who)];
    assert s1.cache == (s0.cache - {})[id := op];
    assert ToSend(s2, op, who, [id]) && s3.replays == s2.replays[0 := Replay(op, who, [id])];
    assert 0 in s3.replays && Serves(s3.replays[0], op, who);
  }
}
