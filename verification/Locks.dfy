/** The readers-writer lock on the cache (broker/src/mem.c): any number of threads, one step per
    access to READERS, its mutex or the write semaphore. */
module Locks {
  import opened Protocol

  /** Where a thread is in lock_memory_for_read, unlock_memory_for_read, lock_memory_for_write
      or between them. */
  datatype Pc =
    | Idle
    | ReadWait       // before MEMORY_READERS_MUTEX is locked
    | ReadIn         // inside, before READERS++
    | ReadCounted    // after it, before the semaphore is waited for, if it is
    | ReadEntered    // after that
    | Reading        // MEMORY_READERS_MUTEX is unlocked
    | LeaveWait      // before it is locked again
    | LeaveIn        // inside, before READERS--
    | LeaveCounted   // after it, before the semaphore is posted, if it is
    | Left           // after that
    | WriteWait      // before the semaphore is waited for
    | Writing

  /** mutex is the thread that has MEMORY_READERS_MUTEX locked, and sem the value of
      MEMORY_WRITE_MUTEX. */
  datatype State = State(threads: seq<Pc>, mutex: Option<nat>, readers: int, sem: int)

  ghost predicate Init(s: State) {
    s.mutex == None && s.readers == 0 && s.sem == 1 && AllIdle(s)
  }

  ghost predicate AllIdle(s: State) {
    forall i :: 0 <= i < |s.threads| ==> s.threads[i] == Idle
  }

  function To(s: State, i: nat, pc: Pc): State
    requires i < |s.threads|
  {
    s.(threads := s.threads[i := pc])
  }

  /** A thread asks for the lock. */
  ghost predicate Arrives(s: State, t: State, i: nat) {
    i < |s.threads| && s.threads[i] == Idle
    && (t == To(s, i, ReadWait) || t == To(s, i, WriteWait))
  }

  /** The one step a thread that is not idle may take, if it is not blocked. */
  function Stepped(s: State, i: nat): Option<State>
    requires i < |s.threads|
  {
    match s.threads[i]
    case Idle => None
    case ReadWait => if s.mutex == None then Some(To(s, i, ReadIn).(mutex := Some(i))) else None
    case ReadIn => Some(To(s, i, ReadCounted).(readers := s.readers + 1))
    case ReadCounted =>
      if s.readers != 1 then Some(To(s, i, ReadEntered))
      else if s.sem > 0 then Some(To(s, i, ReadEntered).(sem := s.sem - 1))
      else None
    case ReadEntered => Some(To(s, i, Reading).(mutex := None))
    case Reading => Some(To(s, i, LeaveWait))
    case LeaveWait => if s.mutex == None then Some(To(s, i, LeaveIn).(mutex := Some(i))) else None
    case LeaveIn => Some(To(s, i, LeaveCounted).(readers := s.readers - 1))
    case LeaveCounted => Some(To(s, i, Left).(sem := if s.readers == 0 then s.sem + 1 else s.sem))
    case Left => Some(To(s, i, Idle).(mutex := None))
    case WriteWait => if s.sem > 0 then Some(To(s, i, Writing).(sem := s.sem - 1)) else None
    case Writing => Some(To(s, i, Idle).(sem := s.sem + 1))
  }

  ghost predicate Steps(s: State, t: State, i: nat) {
    i < |s.threads| && Stepped(s, i) == Some(t)
  }

  /** Some thread that is not idle steps. */
  ghost predicate Moves(s: State, t: State) { exists i: nat :: Steps(s, t, i) }

  ghost predicate CanMove(s: State) { exists i: nat :: i < |s.threads| && Stepped(s, i).Some? }

  ghost predicate Arrival(s: State, t: State) { exists i: nat :: Arrives(s, t, i) }

  // ---- Counting threads ----

  function Count(ts: seq<Pc>, q: set<Pc>): nat {
    if ts == [] then 0 else Count(ts[..|ts| - 1], q) + (if ts[|ts| - 1] in q then 1 else 0)
  }

  lemma {:induction false} CountMoved(ts: seq<Pc>, i: nat, pc: Pc, q: set<Pc>)
    requires i < |ts|
    ensures Count(ts[i := pc], q) == Count(ts, q) - (if ts[i] in q then 1 else 0) + (if pc in q then 1 else 0)
  {
    var n := |ts| - 1;
    if i < n {
      CountMoved(ts[..n], i, pc, q);
      assert ts[i := pc][..n] == ts[..n][i := pc];
    } else {
      assert ts[i := pc][..n] == ts[..n];
    }
  }

  lemma {:induction false} CountOne(ts: seq<Pc>, q: set<Pc>, i: nat)
    requires i < |ts| && ts[i] in q
    ensures Count(ts, q) >= 1
  {
    if i < |ts| - 1 { CountOne(ts[..|ts| - 1], q, i); }
  }

  lemma {:induction false} CountTwo(ts: seq<Pc>, q: set<Pc>, i: nat, j: nat)
    requires i < j < |ts| && ts[i] in q && ts[j] in q
    ensures Count(ts, q) >= 2
  {
    if j < |ts| - 1 { CountTwo(ts[..|ts| - 1], q, i, j); } else { CountOne(ts[..|ts| - 1], q, i); }
  }

  lemma {:induction false} CountSome(ts: seq<Pc>, q: set<Pc>) returns (i: nat)
    requires Count(ts, q) >= 1
    ensures i < |ts| && ts[i] in q
  {
    i := |ts| - 1;
    if ts[i] !in q { i := CountSome(ts[..i], q); }
  }

  lemma {:induction false} CountNone(ts: seq<Pc>, q: set<Pc>)
    requires forall i :: 0 <= i < |ts| ==> ts[i] !in q
    ensures Count(ts, q) == 0
  {
    if ts != [] { CountNone(ts[..|ts| - 1], q); }
  }

  // ---- The invariant ----

  /** Where a thread has the readers' mutex locked. */
  const INSIDE: set<Pc> := {ReadIn, ReadCounted, ReadEntered, LeaveIn, LeaveCounted, Left}

  /** Where a thread is counted in READERS. */
  const COUNTED: set<Pc> := {ReadCounted, ReadEntered, Reading, LeaveWait, LeaveIn}

  function Writers(s: State): nat { Count(s.threads, {Writing}) }

  /** The readers together have the semaphore: one of them is past waiting for it, and the last
      of them has not posted it. */
  function ReadersHold(s: State): bool {
    match s.mutex
    case Some(i) =>
      if i < |s.threads| && s.threads[i] == ReadCounted then s.readers > 1
      else if i < |s.threads| && s.threads[i] == LeaveCounted then true
      else s.readers > 0
    case None => s.readers > 0
  }

  /** One writer or the readers together, or nobody. */
  function Holders(s: State): nat { Writers(s) + (if ReadersHold(s) then 1 else 0) }

  ghost predicate MutexOk(s: State) {
    && (forall i :: 0 <= i < |s.threads| ==> (s.threads[i] in INSIDE <==> s.mutex == Some(i)))
    && (s.mutex.Some? ==> s.mutex.value < |s.threads|)
  }

  ghost predicate Inv(s: State) {
    && MutexOk(s)
    && s.readers == Count(s.threads, COUNTED)
    && s.sem >= 0 && s.sem + Holders(s) == 1
  }

  lemma InitInv(s: State)
    requires Init(s)
    ensures Inv(s)
  {
    CountNone(s.threads, COUNTED);
    CountNone(s.threads, {Writing});
  }

  lemma ArrivesKeeps(s: State, t: State, i: nat)
    requires Inv(s) && Arrives(s, t, i)
    ensures Inv(t)
  {
    CountMoved(s.threads, i, t.threads[i], COUNTED);
    CountMoved(s.threads, i, t.threads[i], {Writing});
  }

  lemma StepKeepsMutex(s: State, t: State, i: nat)
    requires MutexOk(s) && Steps(s, t, i)
    ensures MutexOk(t) && t.threads == s.threads[i := t.threads[i]]
  {
  }

  /** Every step of every thread keeps the invariant: in particular, the value of the semaphore
      and its holders add up to one. */
  lemma StepKeeps(s: State, t: State, i: nat)
    requires Inv(s) && Steps(s, t, i)
    ensures Inv(t)
  {
    StepKeepsMutex(s, t, i);
    StepKeepsReaders(s, t, i);
    StepKeepsSem(s, t, i);
  }

  lemma StepKeepsReaders(s: State, t: State, i: nat)
    requires Inv(s) && Steps(s, t, i)
    ensures t.readers == Count(t.threads, COUNTED)
  {
    hide MutexOk, Count, ReadersHold, Writers;
    CountMoved(s.threads, i, t.threads[i], COUNTED);
  }

  lemma StepKeepsSem(s: State, t: State, i: nat)
    requires Inv(s) && Steps(s, t, i) && t.readers == Count(t.threads, COUNTED)
    ensures t.sem >= 0 && t.sem + Holders(t) == 1
  {
    assert s.threads[i] in INSIDE ==> s.mutex == Some(i);
    hide MutexOk, Count;
    CountMoved(s.threads, i, t.threads[i], {Writing});
    if s.threads[i] in COUNTED { CountOne(s.threads, COUNTED, i); }
  }

  // ---- Exclusion ----

  /** A writer is alone: no other writer, and no reader between its two critical sections. */
  lemma Exclusion(s: State, i: nat, j: nat)
    requires Inv(s) && i < |s.threads| && j < |s.threads| && i != j && s.threads[i] == Writing
    ensures s.threads[j] != Writing && s.threads[j] !in {ReadEntered, Reading, LeaveWait, LeaveIn}
  {
    CountOne(s.threads, {Writing}, i);
    if s.threads[j] == Writing {
      if i < j { CountTwo(s.threads, {Writing}, i, j); } else { CountTwo(s.threads, {Writing}, j, i); }
    } else if s.threads[j] in COUNTED {
      CountOne(s.threads, COUNTED, j);
      if s.mutex.Some? && s.threads[s.mutex.value] == ReadCounted && s.threads[j] != ReadCounted {
        var k := s.mutex.value;
        if k < j { CountTwo(s.threads, COUNTED, k, j); } else { CountTwo(s.threads, COUNTED, j, k); }
      }
    }
  }

  /** Readers share: while one reads and the readers' mutex is free, another that asks for the lock
      gets it by its own steps alone. */
  lemma ReadersShare(s: State, i: nat, j: nat) returns (ss: seq<State>)
    requires Inv(s) && i < |s.threads| && j < |s.threads| && s.threads[i] == Reading && s.threads[j] == ReadWait
    requires s.mutex == None
    ensures |ss| == 5 && ss[0] == s && forall k :: 0 <= k < 4 ==> Steps(ss[k], ss[k + 1], j)
    ensures ss[4] == State(s.threads[j := Reading], None, s.readers + 1, s.sem)
  {
    CountOne(s.threads, COUNTED, i);
    var a := To(s, j, ReadIn).(mutex := Some(j));
    var b := To(a, j, ReadCounted).(readers := s.readers + 1);
    var c := To(b, j, ReadEntered);
    var d := To(c, j, Reading).(mutex := None);
    assert d.threads == s.threads[j := Reading];
    ss := [s, a, b, c, d];
    assert Steps(s, a, j) && Steps(a, b, j) && Steps(b, c, j) && Steps(c, d, j);
  }

  /** When everyone has let go of it, the lock is as it was at the start. */
  lemma IdleIsInit(s: State)
    requires Inv(s) && AllIdle(s)
    ensures s.mutex == None && s.readers == 0 && s.sem == 1
  {
    CountNone(s.threads, COUNTED);
    CountNone(s.threads, {Writing});
  }

  // ---- Progress ----

  /** Unless all threads are idle, one of them can take a step, also while the first reader
      waits for a writer with the readers' mutex locked. */
  lemma Progress(s: State) returns (i: nat)
    requires Inv(s) && !AllIdle(s)
    ensures i < |s.threads| && Stepped(s, i).Some?
  {
    var k: nat :| k < |s.threads| && s.threads[k] != Idle;
    i := k;
    if s.mutex.Some? {
      i := s.mutex.value;
      if s.threads[i] == ReadCounted && s.readers == 1 && s.sem == 0 {
        i := CountSome(s.threads, {Writing});
      }
    } else if s.threads[k] == WriteWait && s.sem == 0 {
      if Writers(s) >= 1 {
        i := CountSome(s.threads, {Writing});
      } else {
        i := CountSome(s.threads, COUNTED);
      }
    }
  }

  /** How many steps the thread has left until it is idle. */
  function StepsLeft(pc: Pc): nat {
    match pc
    case Idle => 0
    case ReadWait => 9
    case ReadIn => 8
    case ReadCounted => 7
    case ReadEntered => 6
    case Reading => 5
    case LeaveWait => 4
    case LeaveIn => 3
    case LeaveCounted => 2
    case Left => 1
    case WriteWait => 2
    case Writing => 1
  }

  function Work(ts: seq<Pc>): nat {
    if ts == [] then 0 else Work(ts[..|ts| - 1]) + StepsLeft(ts[|ts| - 1])
  }

  lemma {:induction false} WorkMoved(ts: seq<Pc>, i: nat, pc: Pc)
    requires i < |ts|
    ensures Work(ts[i := pc]) == Work(ts) - StepsLeft(ts[i]) + StepsLeft(pc)
  {
    var n := |ts| - 1;
    if i < n {
      WorkMoved(ts[..n], i, pc);
      assert ts[i := pc][..n] == ts[..n][i := pc];
    } else {
      assert ts[i := pc][..n] == ts[..n];
    }
  }

  lemma StepWorks(s: State, t: State, i: nat)
    requires Steps(s, t, i)
    ensures |t.threads| == |s.threads| && Work(t.threads) == Work(s.threads) - 1
  {
    WorkMoved(s.threads, i, t.threads[i]);
  }

  lemma {:induction false} NoWorkIsIdle(s: State)
    requires forall i :: 0 <= i < |s.threads| ==> s.threads[i] == Idle
    ensures Work(s.threads) == 0
    decreases |s.threads|
  {
    if s.threads != [] { NoWorkIsIdle(s.(threads := s.threads[..|s.threads| - 1])); }
  }

  // ---- Runs ----

  ghost predicate IsRun(run: seq<State>) {
    && run != [] && Init(run[0])
    && forall k :: 0 <= k < |run| - 1 ==> Moves(run[k], run[k + 1]) || Arrival(run[k], run[k + 1])
  }

  lemma {:induction false} RunKeeps(run: seq<State>, k: nat)
    requires IsRun(run) && k < |run|
    ensures Inv(run[k])
  {
    if k == 0 {
      InitInv(run[0]);
    } else {
      RunKeeps(run, k - 1);
      var s, t := run[k - 1], run[k - 1 + 1];
      if Moves(s, t) {
        var i: nat :| Steps(s, t, i);
        StepKeeps(s, t, i);
      } else {
        var i: nat :| Arrives(s, t, i);
        ArrivesKeeps(s, t, i);
      }
    }
  }

  /** At every point of every interleaving of any number of threads, no writer overlaps a
      reader or another writer, and the semaphore and its holders add up to one. */
  lemma AlwaysExclusive(run: seq<State>, k: nat, i: nat, j: nat)
    requires IsRun(run) && k < |run| && i < |run[k].threads| && j < |run[k].threads| && i != j
    ensures run[k].threads[i] == Writing ==> run[k].threads[j] !in {Writing, Reading}
    ensures run[k].sem + Holders(run[k]) == 1
  {
    RunKeeps(run, k);
    if run[k].threads[i] == Writing { Exclusion(run[k], i, j); }
  }

  /** ss are the states of a run in which nobody new arrives. */
  ghost predicate Draining(ss: seq<State>) {
    ss != [] && forall k :: 0 <= k < |ss| - 1 ==> Moves(ss[k], ss[k + 1])
  }

  /** If nobody new arrives, every thread that asked for the lock gets it and lets it go,
      whatever the schedule: a run takes exactly as many steps as there were left to take,
      unless it stops with someone able to go on. */
  lemma {:induction false} AllGetThrough(ss: seq<State>)
    requires Draining(ss) && Inv(ss[0])
    ensures Inv(ss[|ss| - 1]) && |ss| - 1 + Work(ss[|ss| - 1].threads) == Work(ss[0].threads)
    ensures AllIdle(ss[|ss| - 1]) <==> |ss| - 1 == Work(ss[0].threads)
    ensures AllIdle(ss[|ss| - 1]) || CanMove(ss[|ss| - 1])
  {
    var n := |ss| - 1;
    if n > 0 {
      AllGetThrough(ss[..n]);
      var s, t := ss[n - 1], ss[n - 1 + 1];
      var i: nat :| Steps(s, t, i);
      StepKeeps(s, t, i);
      StepWorks(s, t, i);
    }
    AtTheEnd(ss[n]);
  }

  lemma AtTheEnd(s: State)
    requires Inv(s)
    ensures AllIdle(s) <==> Work(s.threads) == 0
    ensures AllIdle(s) || CanMove(s)
  {
    if AllIdle(s) {
      NoWorkIsIdle(s);
    } else {
      var i := Progress(s);
      StepWorks(s, Stepped(s, i).value, i);
    }
  }
}
