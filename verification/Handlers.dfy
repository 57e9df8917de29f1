/** Concurrent New and Catch handlers over the shared block bitmap (gamecard/src/
    manejoDeArchivos.c, bloques.c, reintentoOperacion.c), one step per critical section. File
    creation is not modelled: every file exists. */
module Handlers {
  import opened Blocks

  datatype Meta = Meta(blocks: seq<nat>, size: nat)

  /** Where the handler that has a file open is. working is its list of blocks. */
  datatype Phase =
    | Closed                                       // OPEN=N, no handler inside
    | Growing(working: seq<nat>, text: string)     // New: taking blocks for the new text
    | RollingBack(working: seq<nat>)               // New: the disk was full, giving back
    | Shrinking(working: seq<nat>, text: string)   // Catch: giving back what is no longer needed
    | Emptying(working: seq<nat>)                  // Catch: the last record is gone, giving back all
    | Sizing(text: string)                         // contents and BLOCKS are written, SIZE is not
    | Finished                                     // about to close

  /** text is what the file holds according to its metadata; the program has it only on disk. */
  datatype File = File(meta: Meta, text: string, phase: Phase)

  /** blockSize and the number of blocks are fixed; bitmap[b] is set when block b is taken. */
  datatype State = State(blockSize: nat, bitmap: seq<bool>, disk: seq<string>, files: map<string, File>)

  /** The blocks a file owns: its handler's working list while that is the truth, and its
      metadata otherwise. */
  function Owned(f: File): seq<nat> {
    match f.phase
    case Growing(w, _) => w
    case RollingBack(w) => w
    case Shrinking(w, _) => w
    case Emptying(w) => w
    case _ => f.meta.blocks
  }

  // ---- The steps ----

  datatype Step =
    | OpenNew(name: string, text: string)
    | OpenCatch(name: string, text: string)
    | OpenOnly(name: string)        // Get, or a Catch that finds nothing
    | Take(name: string)
    | DiskFull(name: string)
    | GiveBack(name: string)
    | StopGiving(name: string)
    | WriteBlocks(name: string)
    | WriteSize(name: string)
    | Close(name: string)

  function Put(s: State, name: string, f: File): State { s.(files := s.files[name := f]) }

  ghost predicate IsFirstFree(bitmap: seq<bool>, b: nat) {
    b < |bitmap| && !bitmap[b] && forall c :: 0 <= c < b ==> bitmap[c]
  }

  ghost predicate Full(bitmap: seq<bool>) {
    forall b :: 0 <= b < |bitmap| ==> bitmap[b]
  }

  function WithWorking(p: Phase, w: seq<nat>): Phase {
    match p
    case Growing(_, text) => Growing(w, text)
    case RollingBack(_) => RollingBack(w)
    case Shrinking(_, text) => Shrinking(w, text)
    case Emptying(_) => Emptying(w)
    case _ => p
  }

  /** The first free block b is marked, emptied and added to the handler's list. */
  ghost predicate Taking(s: State, t: State, n: string, b: nat)
    requires n in s.files
  {
    var f := s.files[n];
    && IsFirstFree(s.bitmap, b)
    && b < |s.disk|
    && t == Put(s, n, f.(phase := WithWorking(f.phase, Owned(f) + [b]))).(bitmap := s.bitmap[b := true],
      disk := s.disk[b := ""])
  }

  /** The last block of the handler's list is unmarked and dropped from it. */
  ghost predicate Giving(s: State, t: State, n: string)
    requires n in s.files
  {
    var f := s.files[n];
    var w := Owned(f);
    && w != [] && w[|w| - 1] < |s.bitmap|
    && t == Put(s, n, f.(phase := WithWorking(f.phase, w[..|w| - 1]))).(bitmap := s.bitmap[w[|w| - 1] := false])
  }

  /** The contents and the list of blocks are written, the size is still to come. */
  ghost predicate Writing(s: State, t: State, n: string, w: seq<nat>, text: string)
    requires n in s.files && s.blockSize > 0
  {
    var f := s.files[n];
    && InDisk(w, |s.disk|)
    && t ==
      Put(s, n, f.(meta := f.meta.(blocks := w), phase := Sizing(text))).(disk := Dump(s.disk, w, text, s.blockSize))
  }

  /** One step of the handler of the file named in it. */
  ghost predicate Next(s: State, t: State, step: Step)
    requires s.blockSize > 0
  {
    step.name in s.files &&
    var n := step.name;
    var f := s.files[n];
    match step
    // puedeAccederAArchivo: the flag is tested and set under the file's mutex
    case OpenNew(_, text) =>
      && f.phase.Closed? && text != "" && |text| >= f.meta.size
      && t == Put(s, n, f.(phase := Growing(f.meta.blocks, text)))
    case OpenCatch(_, text) =>
      f.phase.Closed? && f.meta.size > 0 && |text| <= f.meta.size
      && t == Put(s, n, f.(phase := if text == "" then Emptying(f.meta.blocks) else Shrinking(f.meta.blocks, text)))
    case OpenOnly(_) =>
      f.phase.Closed? && t == Put(s, n, f.(phase := Finished))
    // asignarBloqueLibre, under the bitmap's mutex
    case Take(_) =>
      f.phase.Growing? && |f.phase.working| < BlocksFor(|f.phase.text|, s.blockSize)
      && exists b: nat :: Taking(s, t, n, b)
    case DiskFull(_) =>
      f.phase.Growing? && |f.phase.working| < BlocksFor(|f.phase.text|, s.blockSize)
      && Full(s.bitmap) && t == Put(s, n, f.(phase := RollingBack(f.phase.working)))
    // liberarBloque of the last block, under the bitmap's mutex
    case GiveBack(_) =>
      && (match f.phase
          case RollingBack(w) => |w| > BlocksFor(f.meta.size, s.blockSize)
          case Shrinking(w, text) => |w| > BlocksFor(|text|, s.blockSize)
          case Emptying(w) => |w| > 0
          case _ => false)
      && Giving(s, t, n)
    // the rollback is over: nothing is written
    case StopGiving(_) =>
      f.phase.RollingBack? && |f.phase.working| <= BlocksFor(f.meta.size, s.blockSize)
      && t == Put(s, n, f.(phase := Finished))
    // dumpearArchivo, then BLOCKS
    case WriteBlocks(_) => (
      match f.phase
      case Growing(w, text) => |w| >= BlocksFor(|text|, s.blockSize) && Writing(s, t, n, w, text)
      case Shrinking(w, text) => |w| <= BlocksFor(|text|, s.blockSize) && Writing(s, t, n, w, text)
      case Emptying(w) => w == [] && Writing(s, t, n, [], "")
      case _ => false)
    // SIZE
    case WriteSize(_) =>
      f.phase.Sizing? && t == Put(s, n, File(f.meta.(size := |f.phase.text|), f.phase.text, Finished))
    // cerrarArchivo
    case Close(_) =>
      f.phase.Finished? && t == Put(s, n, f.(phase := Closed))
  }

  // ---- The invariant ----

  /** A file that nobody is in the middle of changing has as many blocks as its size needs,
      and none when it is empty. */
  ghost predicate MetaOk(m: Meta, blockSize: nat)
    requires blockSize > 0
  {
    |m.blocks| == if m.size == 0 then 0 else BlocksFor(m.size, blockSize)
  }

  ghost predicate FileOk(f: File, blockSize: nat)
    requires blockSize > 0
  {
    match f.phase
    case Growing(w, text) => MetaOk(f.meta, blockSize) && text != "" && |text| >= f.meta.size
      && f.meta.blocks <= w && |w| <= BlocksFor(|text|, blockSize)
    case RollingBack(w) => MetaOk(f.meta, blockSize) && f.meta.blocks <= w
    case Shrinking(w, text) => MetaOk(f.meta, blockSize) && 0 < |text| <= f.meta.size && w <= f.meta.blocks
      && |w| >= BlocksFor(|text|, blockSize)
    case Emptying(w) => MetaOk(f.meta, blockSize) && w <= f.meta.blocks
    case Sizing(text) => MetaOk(f.meta.(size := |text|), blockSize)
    case _ => MetaOk(f.meta, blockSize)
  }

  ghost predicate AllTaken(w: seq<nat>, bitmap: seq<bool>) {
    forall b :: b in w ==> b < |bitmap| && bitmap[b]
  }

  ghost predicate Disjoint(v: seq<nat>, w: seq<nat>) {
    forall b :: b in v ==> b !in w
  }

  ghost predicate Inv(s: State) {
    && s.blockSize > 0 && |s.disk| == |s.bitmap|
    && (forall n :: n in s.files ==> FileOk(s.files[n], s.blockSize) && DistinctBlocks(Owned(s.files[n])))
    && (forall n :: n in s.files ==> AllTaken(Owned(s.files[n]), s.bitmap))
    && (forall n, m :: n in s.files && m in s.files && n != m ==> Disjoint(Owned(s.files[n]), Owned(s.files[m])))
  }

  /** Every taken block belongs to a file. */
  ghost predicate NothingLost(s: State) {
    forall b :: 0 <= b < |s.bitmap| && s.bitmap[b] ==> exists n :: n in s.files && b in Owned(s.files[n])
  }

  /** What one step does to the file it is about. */
  lemma FileStep(s: State, t: State, step: Step)
    requires Inv(s) && Next(s, t, step)
    ensures step.name in s.files && step.name in t.files && t.files == s.files[step.name := t.files[step.name]]
    ensures t.blockSize == s.blockSize
    ensures |t.bitmap| == |s.bitmap| && |t.disk| == |t.bitmap| && FileOk(t.files[step.name], t.blockSize)
  {
    var f := s.files[step.name];
    assert FileOk(f, s.blockSize);
    if step.OpenNew? { MoreBlocks(f.meta.size, |step.text|, s.blockSize); }
    if step.OpenCatch? && step.text != "" { MoreBlocks(|step.text|, f.meta.size, s.blockSize); }
  }

  /** What a file owns and the bitmap change together: a taken block was free, a given-back
      one is the last of the list, and otherwise the file owns a prefix of what it owned. */
  lemma OwnedStep(s: State, t: State, step: Step)
    requires Inv(s) && Next(s, t, step)
    ensures step.name in s.files && step.name in t.files
    ensures var v, w := Owned(s.files[step.name]), Owned(t.files[step.name]);
      && Changed(s.bitmap, t.bitmap, v, w)
      && (!step.Take? && !step.GiveBack? && !step.StopGiving? ==> w == v && t.bitmap == s.bitmap)
      && (step.Take? ==> exists b: nat :: IsFirstFree(s.bitmap, b) && w == v + [b] && t.bitmap == s.bitmap[b := true])
      && (step.GiveBack? ==>
        v != [] && w == v[..|v| - 1] && v[|v| - 1] < |s.bitmap| && t.bitmap == s.bitmap[v[|v| - 1] := false])
  {
    var f := s.files[step.name];
    assert FileOk(f, s.blockSize);
  }

  /** Ownership survives a change to one file if nobody else owns its new blocks and nobody
      loses a bit. */
  lemma OwnershipKept(s: State, t: State, n: string)
    requires Inv(s) && n in s.files && n in t.files && t.files == s.files[n := t.files[n]] && t.blockSize == s.blockSize
    requires |t.disk| == |t.bitmap| && FileOk(t.files[n], t.blockSize) && DistinctBlocks(Owned(t.files[n]))
    requires AllTaken(Owned(t.files[n]), t.bitmap)
    requires forall m :: m in s.files && m != n ==>
      Disjoint(Owned(s.files[m]), Owned(t.files[n])) && AllTaken(Owned(s.files[m]), t.bitmap)
    ensures Inv(t)
  {
    forall m, k | m in t.files && k in t.files && m != k ensures Disjoint(Owned(t.files[m]), Owned(t.files[k])) {
      assert m != n ==> t.files[m] == s.files[m];
      assert k != n ==> t.files[k] == s.files[k];
    }
  }

  /** Whatever handler takes a step, no block comes to belong to two files, and every owned
      block stays marked as taken. */
  lemma StepKeeps(s: State, t: State, step: Step)
    requires Inv(s) && Next(s, t, step)
    ensures Inv(t)
  {
    var n := step.name;
    var v, w := Owned(s.files[n]), Owned(t.files[n]);
    FileStep(s, t, step);
    OwnedStep(s, t, step);
    hide Next, FileOk, Owned;
    forall m | m in s.files && m != n
      ensures Disjoint(Owned(s.files[m]), w) && AllTaken(Owned(s.files[m]), t.bitmap)
    {
      OthersKept(s.bitmap, t.bitmap, v, w, Owned(s.files[m]));
    }
    SelfKept(s.bitmap, t.bitmap, v, w);
    OwnershipKept(s, t, n);
  }

  /** The three ways a list of owned blocks and the bitmap change together. */
  ghost predicate Changed(old_: seq<bool>, new_: seq<bool>, v: seq<nat>, w: seq<nat>) {
    || (exists b: nat :: IsFirstFree(old_, b) && w == v + [b] && new_ == old_[b := true])
    || (v != [] && w == v[..|v| - 1] && v[|v| - 1] < |old_| && new_ == old_[v[|v| - 1] := false])
    || (w <= v && new_ == old_)
  }

  lemma SelfKept(old_: seq<bool>, new_: seq<bool>, v: seq<nat>, w: seq<nat>)
    requires Changed(old_, new_, v, w) && DistinctBlocks(v) && AllTaken(v, old_)
    ensures DistinctBlocks(w) && AllTaken(w, new_)
  {
    if b: nat :| IsFirstFree(old_, b) && w == v + [b] && new_ == old_[b := true] {
      assert forall i :: 0 <= i < |v| ==> v[i] in v;
    } else if v != [] && w == v[..|v| - 1] {
      forall b | b in w ensures b in v && b != v[|v| - 1] { LastElsewhere(v, b); }
    }
  }

  lemma OthersKept(old_: seq<bool>, new_: seq<bool>, v: seq<nat>, w: seq<nat>, other: seq<nat>)
    requires Changed(old_, new_, v, w) && AllTaken(v, old_) && AllTaken(other, old_) && Disjoint(v, other)
    ensures Disjoint(other, w) && AllTaken(other, new_)
  {
    if b: nat :| IsFirstFree(old_, b) && w == v + [b] && new_ == old_[b := true] {
    } else if v != [] && w == v[..|v| - 1] {
      assert v[|v| - 1] in v;
    }
  }

  lemma LastElsewhere(v: seq<nat>, b: nat)
    requires DistinctBlocks(v) && v != [] && b in v[..|v| - 1]
    ensures b in v && b != v[|v| - 1]
  {
  }

  // ---- Contents ----

  /** None of the file's blocks has been given back yet. */
  predicate Whole(f: File) {
    match f.phase
    case Shrinking(w, _) => w == f.meta.blocks
    case Emptying(w) => w == f.meta.blocks
    case _ => true
  }

  /** Reading the file gives its text. Once a Catch has begun to give back blocks nothing is
      claimed: its handler has read the text already. */
  ghost predicate ContentOk(f: File, disk: seq<string>, blockSize: nat)
    requires blockSize > 0
  {
    && |f.text| == f.meta.size
    && (match f.phase
        case Sizing(text) => InDisk(f.meta.blocks, |disk|) && Read(disk, f.meta.blocks, |text|, blockSize) == text
        case _ => Whole(f) ==>
          InDisk(f.meta.blocks, |disk|) && Read(disk, f.meta.blocks, f.meta.size, blockSize) == f.text)
  }

  ghost predicate Contents(s: State)
    requires s.blockSize > 0
  {
    forall n :: n in s.files ==> ContentOk(s.files[n], s.disk, s.blockSize)
  }

  /** A step writes only to blocks of its own file, or to a block nobody owned. */
  lemma DiskStep(s: State, t: State, step: Step, b: nat)
    requires Inv(s) && Next(s, t, step) && step.name in s.files && b < |s.disk| && |t.disk| == |s.disk|
    requires b !in Owned(s.files[step.name]) && s.bitmap[b]
    ensures t.disk[b] == s.disk[b]
  {
    var f := s.files[step.name];
    assert FileOk(f, s.blockSize);
    if step.WriteBlocks? && !f.phase.Emptying? {
      DumpElsewhere(s.disk, f.phase.working, f.phase.text, s.blockSize, b);
    }
  }

  lemma OthersContent(s: State, t: State, step: Step, m: string)
    requires Inv(s) && Next(s, t, step) && step.name in s.files && m in s.files && m != step.name
    requires |t.disk| == |s.disk| && ContentOk(s.files[m], s.disk, s.blockSize)
    ensures ContentOk(s.files[m], t.disk, s.blockSize)
  {
    var g := s.files[m];
    assert FileOk(g, s.blockSize) && Disjoint(Owned(g), Owned(s.files[step.name])) && AllTaken(Owned(g), s.bitmap);
    if Whole(g) {
      forall b | b in g.meta.blocks ensures b < |s.disk| && t.disk[b] == s.disk[b] {
        PrefixIn(g.meta.blocks, Owned(g), b);
        DiskStep(s, t, step, b);
      }
      ReadSame(s.disk, t.disk, g.meta.blocks, if g.phase.Sizing? then |g.phase.text| else g.meta.size, s.blockSize);
    }
  }

  lemma PrefixIn(v: seq<nat>, w: seq<nat>, b: nat)
    requires v <= w && b in v
    ensures b in w
  {
    var i :| 0 <= i < |v| && v[i] == b;
    assert w[i] == b;
  }

  lemma OwnContent(s: State, t: State, step: Step)
    requires Inv(s) && Next(s, t, step) && step.name in s.files && step.name in t.files
    requires ContentOk(s.files[step.name], s.disk, s.blockSize) && t.blockSize == s.blockSize
    ensures ContentOk(t.files[step.name], t.disk, t.blockSize)
  {
    var f := s.files[step.name];
    assert FileOk(f, s.blockSize) && DistinctBlocks(Owned(f)) && AllTaken(Owned(f), s.bitmap);
    match step
    case WriteBlocks(_) =>
      if f.phase.Emptying? {
      } else {
        ReadDump(s.disk, f.phase.working, f.phase.text, s.blockSize);
      }
    case Take(_) =>
      var b: nat :| Taking(s, t, step.name, b);
      forall c | c in f.meta.blocks ensures s.disk[c] == t.disk[c] { PrefixIn(f.meta.blocks, Owned(f), c); }
      ReadSame(s.disk, t.disk, f.meta.blocks, f.meta.size, s.blockSize);
    case _ =>
  }

  /** No handler's step changes what another file reads as, and a file reads as the text its
      last completed New or Catch wrote. */
  lemma StepContents(s: State, t: State, step: Step)
    requires Inv(s) && Contents(s) && Next(s, t, step)
    ensures t.blockSize == s.blockSize && Contents(t)
  {
    FileStep(s, t, step);
    OwnContent(s, t, step);
    forall m | m in t.files ensures ContentOk(t.files[m], t.disk, t.blockSize) {
      if m != step.name { OthersContent(s, t, step, m); }
    }
  }

  // ---- Runs ----

  ghost predicate IsRun(run: seq<State>, steps: seq<Step>) {
    && |run| == |steps| + 1
    && forall i :: 0 <= i < |steps| ==> run[i].blockSize > 0 && Next(run[i], run[i + 1], steps[i])
  }

  /** At any point of any interleaving, no two files own the same block, and every file that
      is not being changed reads as its text. */
  lemma {:induction false} RunKeeps(run: seq<State>, steps: seq<Step>, i: nat)
    requires IsRun(run, steps) && Inv(run[0]) && Contents(run[0]) && i < |run|
    ensures Inv(run[i]) && Contents(run[i])
  {
    if i > 0 {
      RunKeeps(run, steps, i - 1);
      StepKeeps(run[i - 1], run[i], steps[i - 1]);
      StepContents(run[i - 1], run[i], steps[i - 1]);
    }
  }

  /** A file system whose files are empty and whose blocks are free is a way to start. */
  lemma StartsWell(s: State)
    requires s.blockSize > 0 && |s.disk| == |s.bitmap| && forall b :: 0 <= b < |s.bitmap| ==> !s.bitmap[b]
    requires forall n :: n in s.files ==> s.files[n] == File(Meta([], 0), "", Closed)
    ensures Inv(s) && Contents(s) && NothingLost(s)
  {
  }

  /** At any point of any interleaving, a closed file has blocks exactly when it is not empty, and
      as many as its text needs; they are marked, no other closed file has any of them, and no
      handler has taken any; and the k-th character of the text is where it belongs. */
  lemma ClosedFile(run: seq<State>, steps: seq<Step>, i: nat, n: string)
    requires IsRun(run, steps) && Inv(run[0]) && Contents(run[0]) && i < |run|
    requires n in run[i].files && run[i].files[n].phase.Closed?
    ensures var s, m := run[i], run[i].files[n].meta;
      && s.blockSize > 0 && |s.files[n].text| == m.size
      && |m.blocks| == (if m.size == 0 then 0 else m.size / s.blockSize + 1)
      && (forall j, k :: 0 <= j < k < |m.blocks| ==> m.blocks[j] != m.blocks[k])
      && (forall b :: b in m.blocks ==> b < |s.bitmap| && s.bitmap[b])
    ensures var s, m := run[i], run[i].files[n].meta; forall o :: o in s.files && o != n ==>
      forall b :: b in m.blocks ==>
      && (s.files[o].phase.Closed? ==> b !in s.files[o].meta.blocks)
      && (s.files[o].phase.Growing? || s.files[o].phase.RollingBack? ==> b !in s.files[o].phase.working)
      && (s.files[o].phase.Shrinking? || s.files[o].phase.Emptying? ==> b !in s.files[o].phase.working)
    ensures TextStands(run[i].disk, run[i].files[n].meta.blocks, run[i].files[n].text, run[i].blockSize)
  {
    RunKeeps(run, steps, i);
    hide *;
    ClosedParts(run[i], n);
    ClosedApart(run[i], n);
  }

  lemma ClosedApart(s: State, n: string)
    requires Inv(s) && n in s.files && s.files[n].phase.Closed?
    ensures forall o :: o in s.files && o != n ==> forall b :: b in s.files[n].meta.blocks ==>
      && (s.files[o].phase.Closed? ==> b !in s.files[o].meta.blocks)
      && (s.files[o].phase.Growing? || s.files[o].phase.RollingBack? ==> b !in s.files[o].phase.working)
      && (s.files[o].phase.Shrinking? || s.files[o].phase.Emptying? ==> b !in s.files[o].phase.working)
  {
    assert forall o :: o in s.files && o != n ==> Disjoint(Owned(s.files[n]), Owned(s.files[o]));
  }

  lemma ClosedParts(s: State, n: string)
    requires Inv(s) && Contents(s) && n in s.files && s.files[n].phase.Closed?
    ensures var m := s.files[n].meta;
      && s.blockSize > 0 && |s.files[n].text| == m.size
      && |m.blocks| == (if m.size == 0 then 0 else m.size / s.blockSize + 1)
      && (forall j, k :: 0 <= j < k < |m.blocks| ==> m.blocks[j] != m.blocks[k])
      && (forall b :: b in m.blocks ==> b < |s.bitmap| && s.bitmap[b])
    ensures TextStands(s.disk, s.files[n].meta.blocks, s.files[n].text, s.blockSize)
  {
    var f := s.files[n];
    assert FileOk(f, s.blockSize) && DistinctBlocks(Owned(f)) && AllTaken(Owned(f), s.bitmap);
    assert ContentOk(f, s.disk, s.blockSize);
    hide Read, TextStands, Inv, Contents;
    ReadStands(s.disk, f.meta.blocks, f.text, s.blockSize);
  }

  // ---- What a full disk leaves behind ----

  /** A New that finds the disk full ends owning exactly the blocks it started with, if and
      only if its file was not empty or it had taken none: for an empty file one block is
      kept back, and nobody owns it any more. */
  lemma RollbackExact(s: State, t: State, name: string)
    requires Inv(s) && Next(s, t, StopGiving(name))
    ensures var f := s.files[name];
      && t.files[name].meta == f.meta && t.bitmap == s.bitmap
      && (Owned(f) == f.meta.blocks <==> f.meta.size > 0 || Owned(f) == [])
  {
    var f := s.files[name];
    assert FileOk(f, s.blockSize);
    if f.meta.size > 0 { assert |Owned(f)| == |f.meta.blocks|; }
  }

  lemma NothingLostAround(s: State, t: State, n: string)
    requires NothingLost(s) && n in s.files && n in t.files && t.files == s.files[n := t.files[n]]
    requires |t.bitmap| == |s.bitmap|
    requires forall b :: 0 <= b < |t.bitmap| && t.bitmap[b] ==>
      b in Owned(t.files[n]) || (s.bitmap[b] && b !in Owned(s.files[n]))
    ensures NothingLost(t)
  {
    forall b | 0 <= b < |t.bitmap| && t.bitmap[b] ensures exists m :: m in t.files && b in Owned(t.files[m]) {
      if b in Owned(t.files[n]) {
        assert n in t.files;
      } else {
        var m :| m in s.files && b in Owned(s.files[m]);
        assert m != n && t.files[m] == s.files[m] && m in t.files;
      }
    }
  }

  lemma Lost(s: State, t: State, n: string, b: nat)
    requires Inv(s) && n in s.files && n in t.files && t.files == s.files[n := t.files[n]] && t.bitmap == s.bitmap
    requires b in Owned(s.files[n]) && b !in Owned(t.files[n])
    ensures !NothingLost(t)
  {
    assert b < |s.bitmap| && s.bitmap[b];
    forall m | m in t.files ensures b !in Owned(t.files[m]) {
      if m != n { assert Disjoint(Owned(s.files[n]), Owned(s.files[m])) && t.files[m] == s.files[m]; }
    }
  }

  /** A step loses a block exactly when it ends such a rollback. */
  lemma LossExactly(s: State, t: State, step: Step)
    requires Inv(s) && NothingLost(s) && Next(s, t, step)
    ensures step.name in s.files
    ensures NothingLost(t) <==>
      !(step.StopGiving? && s.files[step.name].meta.size == 0 && Owned(s.files[step.name]) != [])
  {
    var n := step.name;
    var v, w := Owned(s.files[n]), Owned(t.files[n]);
    FileStep(s, t, step);
    OwnedStep(s, t, step);
    if step.StopGiving? && s.files[n].meta.size == 0 && v != [] {
      EmptyHasNone(s, n);
      Lost(s, t, n, v[0]);
    } else {
      if step.StopGiving? { RollbackExact(s, t, n); }
      NothingLostAround(s, t, n);
    }
  }

  /** A disk of one block of 4 characters, and one file, which is empty. */
  function TinyDisk(name: string, taken: bool, phase: Phase): State {
    State(4, [taken], [""], map[name := File(Meta([], 0), "", phase)])
  }

  lemma TinyStep(name: string, taken: bool, p: Phase, q: Phase)
    ensures Put(TinyDisk(name, taken, p), name, File(Meta([], 0), "", q)) == TinyDisk(name, taken, q)
  {
  }

  lemma TinyTake(name: string, text: string)
    requires |text| == 6
    ensures Next(TinyDisk(name, false, Growing([], text)), TinyDisk(name, true, Growing([0], text)), Take(name))
  {
    var s, t := TinyDisk(name, false, Growing([], text)), TinyDisk(name, true, Growing([0], text));
    TinyStep(name, false, Growing([], text), Growing([0], text));
    assert s.bitmap[0 := true] == t.bitmap && s.disk[0 := ""] == t.disk && [] + [0 as nat] == [0];
    assert Taking(s, t, name, 0);
  }

  /** It comes about: a first record of 6 characters takes the block, finds the disk full, and
      the rollback keeps the block. */
  lemma BlockLost(name: string) returns (run: seq<State>, steps: seq<Step>)
    ensures IsRun(run, steps) && Inv(run[0]) && Contents(run[0]) && NothingLost(run[0])
    ensures run[|run| - 1] == TinyDisk(name, true, Closed) && !NothingLost(run[|run| - 1])
  {
    var text := "1-1=1\n";
    run := [TinyDisk(name, false, Closed), TinyDisk(name, false, Growing([], text)),
            TinyDisk(name, true, Growing([0], text)), TinyDisk(name, true, RollingBack([0])),
            TinyDisk(name, true, Finished), TinyDisk(name, true, Closed)];
    steps := [OpenNew(name, text), Take(name), DiskFull(name), StopGiving(name), Close(name)];
    TinyStart(name);
    TinyOpen(name, text);
    TinyTake(name, text);
    TinyRest(name, text);
    hide Next, TinyDisk, Inv, Contents, NothingLost;
  }

  lemma TinyStart(name: string)
    ensures Inv(TinyDisk(name, false, Closed)) && Contents(TinyDisk(name, false, Closed))
    ensures NothingLost(TinyDisk(name, false, Closed)) && !NothingLost(TinyDisk(name, true, Closed))
  {
    var t := TinyDisk(name, true, Closed);
    assert t.bitmap[0] && Owned(t.files[name]) == [];
  }

  lemma TinyOpen(name: string, text: string)
    requires |text| == 6
    ensures Next(TinyDisk(name, false, Closed), TinyDisk(name, false, Growing([], text)), OpenNew(name, text))
  {
    TinyStep(name, false, Closed, Growing([], text));
  }

  lemma TinyRest(name: string, text: string)
    requires |text| == 6
    ensures Next(TinyDisk(name, true, Growing([0], text)), TinyDisk(name, true, RollingBack([0])), DiskFull(name))
    ensures Next(TinyDisk(name, true, RollingBack([0])), TinyDisk(name, true, Finished), StopGiving(name))
    ensures Next(TinyDisk(name, true, Finished), TinyDisk(name, true, Closed), Close(name))
  {
    TinyStep(name, true, Growing([0], text), RollingBack([0]));
    TinyStep(name, true, RollingBack([0]), Finished);
    TinyStep(name, true, Finished, Closed);
  }

  lemma EmptyHasNone(s: State, n: string)
    requires Inv(s) && n in s.files && s.files[n].phase.RollingBack?
    ensures s.files[n].meta.size == 0 ==> s.files[n].meta.blocks == []
  {
    assert FileOk(s.files[n], s.blockSize);
  }

  // ---- Block sizes larger than a record ----

  /** With such a block size an empty file needs one block for its first record. */
  ghost predicate SmallFirst(s: State)
    requires s.blockSize > 0
  {
    forall n :: n in s.files && s.files[n].meta.size == 0 ==>
      && (s.files[n].phase.Growing? ==> |s.files[n].phase.text| < s.blockSize)
      && (s.files[n].phase.RollingBack? ==> s.files[n].phase.working == [])
  }

  lemma SmallStep(s: State, t: State, step: Step)
    requires Inv(s) && SmallFirst(s) && NothingLost(s) && Next(s, t, step)
    requires step.OpenNew? && s.files[step.name].meta.size == 0 ==> |step.text| < s.blockSize
    ensures t.blockSize == s.blockSize && SmallFirst(t) && NothingLost(t)
  {
    FileStep(s, t, step);
    LossExactly(s, t, step);
    var f, g := s.files[step.name], t.files[step.name];
    if step.DiskFull? && f.meta.size == 0 { OneBlock(|f.phase.text|, s.blockSize); }
    assert g.meta.size == 0 ==>
      (g.phase.Growing? ==> |g.phase.text| < s.blockSize) && (g.phase.RollingBack? ==> g.phase.working == []);
  }

  lemma OneBlock(size: nat, blockSize: nat)
    requires size < blockSize
    ensures BlocksFor(size, blockSize) == 1
  {
  }

  /** Every New that opens an empty file writes a first record that fits in one block. */
  ghost predicate SmallOpens(run: seq<State>, steps: seq<Step>)
    requires |run| == |steps| + 1
  {
    forall k :: 0 <= k < |steps| && steps[k].OpenNew? && steps[k].name in run[k].files ==>
      run[k].files[steps[k].name].meta.size > 0 || |steps[k].text| < run[k].blockSize
  }

  /** With blocks larger than any first record, the taken blocks are exactly the owned ones at
      every point of every run, full disks included. */
  lemma {:induction false} NothingEverLost(run: seq<State>, steps: seq<Step>, i: nat)
    requires IsRun(run, steps) && Inv(run[0]) && SmallFirst(run[0]) && NothingLost(run[0]) && i < |run|
    requires SmallOpens(run, steps)
    ensures Inv(run[i]) && SmallFirst(run[i]) && NothingLost(run[i])
  {
    if i > 0 {
      NothingEverLost(run, steps, i - 1);
      StepKeeps(run[i - 1], run[i], steps[i - 1]);
      SmallStep(run[i - 1], run[i], steps[i - 1]);
    }
  }
}
