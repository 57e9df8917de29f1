/** The file system as gamecard keeps it: the bitmap, the block files and the metadata files,
    and the handlers' code over them (gamecard/src/bloques.c, mapeo.c, manejoDeArchivos.c).
    state is the state of Handlers.dfy; every change made here is one of its steps. */
module TallGrass {
  import opened Blocks
  import opened Handlers
  import opened Records

  function FreeCount(bitmap: seq<bool>): nat {
    if bitmap == [] then 0 else (if bitmap[0] then 0 else 1) + FreeCount(bitmap[1..])
  }

  lemma {:induction false} FreeCountSet(bitmap: seq<bool>, b: nat)
    requires b < |bitmap| && !bitmap[b]
    ensures FreeCount(bitmap[b := true]) == FreeCount(bitmap) - 1
  {
    if b > 0 {
      assert bitmap[b := true][1..] == bitmap[1..][b - 1 := true];
      FreeCountSet(bitmap[1..], b - 1);
    } else {
      assert bitmap[b := true][1..] == bitmap[1..];
    }
  }

  /** It is the length of the list of the blocks that are not marked. */
  lemma {:induction false} FreeCountIs(bitmap: seq<bool>) returns (free: seq<nat>)
    ensures |free| == FreeCount(bitmap) && forall i, j :: 0 <= i < j < |free| ==> free[i] < free[j]
    ensures forall b: nat :: b in free <==> b < |bitmap| && !bitmap[b]
  {
    if bitmap == [] {
      free := [];
    } else {
      var later := FreeCountIs(bitmap[1..]);
      var shifted := seq(|later|, i requires 0 <= i < |later| => later[i] + 1);
      free := (if bitmap[0] then [] else [0]) + shifted;
      forall b: nat | b in shifted ensures 0 < b < |bitmap| && !bitmap[b] {
        var i :| 0 <= i < |shifted| && shifted[i] == b;
        assert later[i] in later && bitmap[1..][b - 1] == bitmap[b];
      }
      forall b: nat | 0 < b < |bitmap| && !bitmap[b] ensures b in shifted {
        assert bitmap[1..][b - 1] == bitmap[b] && b - 1 in later;
        var i :| 0 <= i < |later| && later[i] == b - 1;
        assert shifted[i] == b;
      }
    }
  }

  lemma {:induction false} FullIsNone(bitmap: seq<bool>)
    ensures Full(bitmap) <==> FreeCount(bitmap) == 0
  {
    if bitmap != [] {
      FullIsNone(bitmap[1..]);
      if Full(bitmap) {
        assert Full(bitmap[1..]);
      } else {
        var b :| 0 <= b < |bitmap| && !bitmap[b];
        if b > 0 { assert !bitmap[1..][b - 1]; }
      }
    }
  }

  /** bitmap after taking the blocks of w. */
  function Marked(bitmap: seq<bool>, w: seq<nat>): (r: seq<bool>)
    ensures |r| == |bitmap|
  {
    if w == [] then bitmap
    else
      var rest := Marked(bitmap, w[..|w| - 1]);
      if w[|w| - 1] < |rest| then rest[w[|w| - 1] := true] else rest
  }

  /** Each block of w was free when it was taken. */
  predicate Taken(bitmap: seq<bool>, w: seq<nat>) {
    w == [] || (
      && Taken(bitmap, w[..|w| - 1])
      && w[|w| - 1] < |bitmap| && !Marked(bitmap, w[..|w| - 1])[w[|w| - 1]])
  }

  lemma TakeAnother(bitmap: seq<bool>, w: seq<nat>, b: nat)
    requires Taken(bitmap, w) && b < |bitmap| && !Marked(bitmap, w)[b]
    ensures Taken(bitmap, w + [b]) && Marked(bitmap, w + [b]) == Marked(bitmap, w)[b := true]
  {
    assert (w + [b])[..|w|] == w;
  }

  lemma GiveLast(bitmap: seq<bool>, w: seq<nat>)
    requires Taken(bitmap, w) && w != []
    ensures w[|w| - 1] < |bitmap| && Taken(bitmap, w[..|w| - 1])
    ensures Marked(bitmap, w)[w[|w| - 1] := false] == Marked(bitmap, w[..|w| - 1])
  {
  }

  /** Every block taken leaves one fewer free. */
  lemma {:induction false} MarkedCount(bitmap: seq<bool>, w: seq<nat>)
    requires Taken(bitmap, w)
    ensures FreeCount(Marked(bitmap, w)) == FreeCount(bitmap) - |w|
  {
    if w != [] {
      MarkedCount(bitmap, w[..|w| - 1]);
      FreeCountSet(Marked(bitmap, w[..|w| - 1]), w[|w| - 1]);
    }
  }

  lemma MovedBack(s: State, name: string, p: Phase)
    requires name in s.files && s.files[name].phase.Closed?
    ensures Moved(Moved(s, name, p), name, Closed) == s
    ensures InPhase(InPhase(s.files, name, p), name, Closed) == s.files
    ensures InPhase(InPhase(InPhase(s.files, name, p), name, Finished), name, Closed) == s.files
  {
    PhaseTwice(s.files, name, p, Closed);
    PhaseTwice(s.files, name, p, Finished);
    PhaseTwice(s.files, name, Finished, Closed);
    PhaseTwice(s.files, name, Closed, Closed);
  }

  lemma Replaced(files: map<string, File>, name: string, p: Phase)
    requires name in files
    ensures name in InPhase(files, name, p)
    ensures forall f: File ::
      InPhase(InPhase(files, name, p)[name := f], name, Closed) == files[name := f.(phase := Closed)]
  {
  }

  lemma SetTwice(files: map<string, Meta>, name: string, a: Meta, b: Meta)
    ensures files[name := a][name := b] == files[name := b]
  {
  }

  lemma Overwritten(files: map<string, File>, name: string, p: Phase, f: File, g: File)
    requires name in files
    ensures name in InPhase(files, name, p) && InPhase(files, name, p)[name := f][name := g] == files[name := g]
  {
  }

  lemma EmptyText(rs: seq<Record>)
    requires Render(rs) == ""
    ensures rs == []
  {
  }

  lemma AddFirst(x: nat, y: nat, quantity: nat)
    ensures Render(Add([], x, y, quantity)) == Line(Record(x, y, quantity))
  {
    assert Add([], x, y, quantity) == [Record(x, y, quantity)];
  }

  lemma EmptyStart(s: State, name: string, bitmap: seq<bool>, size: nat)
    requires Inv(s) && name in s.files && s.files[name].phase.Growing?
    ensures MetaOk(s.files[name].meta, s.blockSize) && |s.files[name].phase.text| >= s.files[name].meta.size
    ensures Taken(bitmap, []) && Marked(bitmap, []) == bitmap
    ensures InPhase(s.files, name, s.files[name].phase) == s.files
  {
    assert FileOk(s.files[name], s.blockSize);
    PhaseTwice(s.files, name, s.files[name].phase, Closed);
  }

  /** The disk is full before the file has all it needs. */
  lemma DiskIsFull(first: seq<bool>, m: Meta, blocks: seq<nat>, size: nat, blockSize: nat)
    requires blockSize > 0 && MetaOk(m, blockSize) && m.blocks <= blocks && |blocks| < BlocksFor(size, blockSize)
    requires Taken(first, blocks[|m.blocks|..]) && Full(Marked(first, blocks[|m.blocks|..]))
    ensures FreeCount(first) < Missing(m.blocks, size, blockSize)
    ensures m.size == 0 ==> (|blocks| == 0 <==> Full(first))
  {
    MarkedCount(first, blocks[|m.blocks|..]);
    FullIsNone(first);
    FullIsNone(Marked(first, blocks[|m.blocks|..]));
  }

  lemma DiskIsEnough(first: seq<bool>, m: Meta, blocks: seq<nat>, size: nat, blockSize: nat)
    requires blockSize > 0 && m.blocks <= blocks && |blocks| >= BlocksFor(size, blockSize)
    requires |blocks| <= |m.blocks| + Missing(m.blocks, size, blockSize)
    requires Taken(first, blocks[|m.blocks|..])
    ensures FreeCount(Marked(first, blocks[|m.blocks|..])) == FreeCount(first) - Missing(m.blocks, size, blockSize)
  {
    MarkedCount(first, blocks[|m.blocks|..]);
  }

  lemma EnoughMeans(blocks: seq<nat>, size: nat, blockSize: nat, free: nat)
    requires blockSize > 0
    ensures Missing(blocks, size, blockSize) <= free <==> size / blockSize + 1 <= |blocks| + free
  {
  }

  lemma AsManyAs(s: State, name: string, blocks: seq<nat>, text: string)
    requires Inv(s) && name in s.files && s.files[name].phase.Growing? && s.files[name].phase.text == text
    requires s.files[name].meta.blocks <= blocks && |blocks| >= BlocksFor(|text|, s.blockSize)
    requires |blocks| <= |s.files[name].meta.blocks| + Missing(s.files[name].meta.blocks, |text|, s.blockSize)
    ensures |blocks| == |text| / s.blockSize + 1
  {
    assert FileOk(s.files[name], s.blockSize);
    MoreBlocks(s.files[name].meta.size, |text|, s.blockSize);
  }

  lemma MissingAtLeast(blocks: seq<nat>, m: Meta, size: nat, blockSize: nat)
    requires blockSize > 0 && m.blocks <= blocks && |blocks| < BlocksFor(size, blockSize)
    ensures |blocks| < |m.blocks| + Missing(m.blocks, size, blockSize)
  {
  }

  lemma MarksLast(bitmap: seq<bool>, w: seq<nat>)
    requires Taken(bitmap, w) && w != []
    ensures Marked(bitmap, w) != bitmap
  {
    MarkedCount(bitmap, w);
  }

  /** When a rollback ends, the bitmap is as before unless the file was empty and a block had
      been taken. */
  lemma Restored(bitmap: seq<bool>, m: Meta, left: seq<nat>, all: seq<nat>, blockSize: nat)
    requires blockSize > 0 && MetaOk(m, blockSize) && m.blocks <= left <= all && Taken(bitmap, left[|m.blocks|..])
    requires |left| <= BlocksFor(m.size, blockSize) && (|left| < |all| ==> |left| == BlocksFor(m.size, blockSize))
    ensures Marked(bitmap, left[|m.blocks|..]) == bitmap <==> m.size > 0 || |all| == 0
  {
    if m.size == 0 && |all| > 0 { MarksLast(bitmap, left[|m.blocks|..]); }
  }

  /** How many more blocks a file needs for a text of that length. */
  function Missing(blocks: seq<nat>, size: nat, blockSize: nat): nat
    requires blockSize > 0
  {
    if BlocksFor(size, blockSize) <= |blocks| then 0 else BlocksFor(size, blockSize) - |blocks|
  }

  /** files after the handler of the file has moved on to that phase. */
  function InPhase(files: map<string, File>, name: string, phase: Phase): map<string, File>
    requires name in files
  {
    files[name := files[name].(phase := phase)]
  }

  lemma PhaseTwice(files: map<string, File>, name: string, p: Phase, q: Phase)
    requires name in files
    ensures InPhase(InPhase(files, name, p), name, q) == InPhase(files, name, q)
    ensures files[name].phase == p ==> InPhase(files, name, p) == files
  {
  }

  lemma MovedFiles(s: State, name: string, phase: Phase)
    requires name in s.files
    ensures Moved(s, name, phase).files == InPhase(s.files, name, phase)
  {
  }

  function Moved(s: State, name: string, phase: Phase): State
    requires name in s.files
  {
    s.(files := InPhase(s.files, name, phase))
  }

  /** A handler in that phase with that list of blocks has as many as its text needs. */
  ghost predicate WriteReady(p: Phase, blocks: seq<nat>, text: string, blockSize: nat)
    requires blockSize > 0
  {
    match p
    case Growing(w, u) => w == blocks && u == text && |w| >= BlocksFor(|text|, blockSize)
    case Shrinking(w, u) => w == blocks && u == text && |w| <= BlocksFor(|text|, blockSize)
    case Emptying(w) => w == blocks == [] && text == ""
    case _ => false
  }

  /** s after the contents and the list of blocks are written. */
  ghost function Written(s: State, name: string, blocks: seq<nat>, text: string): State
    requires name in s.files && s.blockSize > 0 && InDisk(blocks, |s.disk|)
  {
    var f := s.files[name];
    Put(s, name,
      f.(meta := f.meta.(blocks := blocks), phase := Sizing(text))).(disk := Dump(s.disk, blocks, text, s.blockSize))
  }

  lemma CanWrite(s: State, name: string, blocks: seq<nat>, text: string)
    requires Inv(s) && name in s.files && WriteReady(s.files[name].phase, blocks, text, s.blockSize)
    ensures InDisk(blocks, |s.disk|) && Next(s, Written(s, name, blocks, text), WriteBlocks(name))
  {
    assert AllTaken(blocks, s.bitmap) && forall i :: 0 <= i < |blocks| ==> blocks[i] in blocks;
  }

  lemma MayStop(s: State, name: string, w: seq<nat>)
    requires s.blockSize > 0 && name in s.files && s.files[name].phase == RollingBack(w)
    requires |w| <= BlocksFor(s.files[name].meta.size, s.blockSize)
    ensures Next(s, Moved(s, name, Finished), StopGiving(name))
  {
  }

  ghost function AfterTake(s: State, name: string, b: nat): State
    requires name in s.files && b < |s.bitmap| && b < |s.disk|
  {
    var f := s.files[name];
    Moved(s, name, WithWorking(f.phase, Owned(f) + [b])).(bitmap := s.bitmap[b := true], disk := s.disk[b := ""])
  }

  lemma MayTake(s: State, name: string, b: nat)
    requires s.blockSize > 0 && name in s.files && s.files[name].phase.Growing? && b < |s.disk|
    requires IsFirstFree(s.bitmap, b)
    requires |Owned(s.files[name])| < BlocksFor(|s.files[name].phase.text|, s.blockSize)
    ensures Taking(s, AfterTake(s, name, b), name, b) && Next(s, AfterTake(s, name, b), Take(name))
  {
    var t := AfterTake(s, name, b);
    assert Taking(s, t, name, b);
  }

  lemma MayFail(s: State, name: string)
    requires s.blockSize > 0 && name in s.files && s.files[name].phase.Growing? && Full(s.bitmap)
    requires |Owned(s.files[name])| < BlocksFor(|s.files[name].phase.text|, s.blockSize)
    ensures Next(s, Moved(s, name, RollingBack(Owned(s.files[name]))), DiskFull(name))
  {
  }

  lemma TakingGrows(s: State, t: State, name: string, b: nat, w: seq<nat>, text: string)
    requires name in s.files && s.files[name].phase == Growing(w, text) && Taking(s, t, name, b)
    ensures t.files == InPhase(s.files, name, Growing(w + [b], text)) && t.bitmap == s.bitmap[b := true] && !s.bitmap[b]
  {
  }

  lemma GivingShrinks(s: State, t: State, name: string)
    requires name in s.files && Giving(s, t, name)
    ensures var f := s.files[name]; var w := Owned(f);
      && w != [] && w[|w| - 1] < |s.bitmap| && t.bitmap == s.bitmap[w[|w| - 1] := false]
      && t.files == InPhase(s.files, name, WithWorking(f.phase, w[..|w| - 1]))
  {
  }

  /** The results of a Catch. */
  const OK := 1
  const FAIL := 2

  /** What a Catch at (x, y) is about to do with the file once it has it open. */
  function CatchPhase(blocks: seq<nat>, rs: seq<Record>, x: nat, y: nat): Phase {
    if At(rs, x, y) == 0 then Finished
    else if Render(TakeOne(rs, x, y)) == "" then Emptying(blocks)
    else Shrinking(blocks, Render(TakeOne(rs, x, y)))
  }

  /** The bitmap is as before but for those blocks, which are free. */
  ghost predicate Cleared(before: seq<bool>, after: seq<bool>, blocks: seq<nat>) {
    && |after| == |before|
    && forall b :: 0 <= b < |before| ==> after[b] == (before[b] && b !in blocks)
  }

  lemma ClearedMeans(before: seq<bool>, after: seq<bool>, blocks: seq<nat>)
    requires Cleared(before, after, blocks)
    ensures |after| == |before| && forall b :: 0 <= b < |before| ==> (after[b] <==> before[b] && b !in blocks)
  {
  }

  lemma SameLength(before: seq<bool>, after: seq<bool>, blocks: seq<nat>)
    requires Cleared(before, after, blocks)
    ensures |after| == |before|
  {
  }

  lemma NoneCleared(bitmap: seq<bool>)
    ensures Cleared(bitmap, bitmap, [])
  {
  }

  lemma ClearedOne(before: seq<bool>, after: seq<bool>, blocks: seq<nat>, k: nat)
    requires 0 < k <= |blocks| && Cleared(before, after, blocks[k..]) && blocks[k - 1] < |before|
    ensures Cleared(before, after[blocks[k - 1] := false], blocks[k - 1..])
  {
    assert blocks[k - 1..] == [blocks[k - 1]] + blocks[k..];
  }

  lemma MayOpenNew(s: State, name: string, rs: seq<Record>, x: nat, y: nat, quantity: nat)
    requires Inv(s) && Contents(s) && name in s.files
    requires s.files[name].phase.Closed? ==> s.files[name].text == Render(rs)
    ensures s.files[name].phase.Closed? ==> Next(s, Moved(s, name, Growing(s.files[name].meta.blocks,
      Render(Add(rs, x, y, quantity)))), OpenNew(name, Render(Add(rs, x, y, quantity))))
  {
    AddGrows(rs, x, y, quantity);
    assert ContentOk(s.files[name], s.disk, s.blockSize);
  }

  function CatchStep(name: string, rs: seq<Record>, x: nat, y: nat): Step {
    if At(rs, x, y) == 0 then OpenOnly(name) else OpenCatch(name, Render(TakeOne(rs, x, y)))
  }

  lemma MayOpenCatch(s: State, name: string, rs: seq<Record>, x: nat, y: nat)
    requires Inv(s) && Contents(s) && name in s.files
    requires s.files[name].phase.Closed? ==> s.files[name].text == Render(rs)
    ensures s.files[name].phase.Closed? ==>
      Next(s, Moved(s, name, CatchPhase(s.files[name].meta.blocks, rs, x, y)), CatchStep(name, rs, x, y))
  {
    assert ContentOk(s.files[name], s.disk, s.blockSize);
    if At(rs, x, y) >= 1 { TakeShrinks(rs, x, y); }
  }

  /** The positions of the records are those with any Pokemon. */
  lemma PositionsAre(rs: seq<Record>, positions: seq<(nat, nat)>)
    requires Proper(rs) && |positions| == |rs| && forall i :: 0 <= i < |rs| ==> positions[i] == (rs[i].x, rs[i].y)
    ensures forall x: nat, y: nat :: (x, y) in positions <==> At(rs, x, y) >= 1
  {
    forall x: nat, y: nat ensures (x, y) in positions <==> At(rs, x, y) >= 1 {
      var i := Find(rs, x, y);
      if i < |rs| { assert positions[i] == (x, y); }
    }
  }

  class FileSystem {
    const blockSize: nat
    const bitmap: array<bool>
    const disk: array<string>
    /** BLOCKS and SIZE of each metadata file. */
    var files: map<string, Meta>
    /** The files with OPEN=Y. */
    var open: set<string>
    ghost var state: State

    /** The ghost state is the real one. */
    ghost predicate Linked()
      reads this, bitmap, disk
    {
      && state.blockSize == blockSize && state.bitmap == bitmap[..] && state.disk == disk[..]
      && state.files.Keys == files.Keys && (forall n :: n in files ==> state.files[n].meta == files[n])
      && (forall n :: n in files ==> (n in open <==> !state.files[n].phase.Closed?))
    }

    ghost predicate Ok()
      reads this, bitmap, disk
    {
      Linked() && Inv(state) && Contents(state)
    }

    /** The file is open, with its handler in that phase. */
    ghost predicate Inside(name: string, phase: Phase)
      reads this, bitmap, disk
    {
      Ok() && name in state.files && state.files[name].phase == phase && !phase.Closed?
    }

    /** The ghost state makes a step. */
    ghost method Advance(t: State, step: Step)
      requires Inv(state) && Contents(state) && Next(state, t, step)
      modifies this`state
      ensures state == t && Inv(t) && Contents(t)
    {
      StepKeeps(state, t, step);
      StepContents(state, t, step);
      state := t;
    }

    // ---- reintentoOperacion.c ----

    /** puedeAccederAArchivo: the OPEN flag is a lock that is tried. The step says what the
        handler is about to do with the file. */
    method TryOpen(name: string, ghost step: Step, ghost phase: Phase) returns (free: bool)
      requires Ok() && name in files && step.name == name && !phase.Closed?
      requires state.files[name].phase.Closed? ==> Next(state, Moved(state, name, phase), step)
      modifies this
      ensures free == old(state.files[name].phase.Closed?)
      ensures Ok() && state == (if free then Moved(old(state), name, phase) else old(state)) && files == old(files)
      ensures free ==> Inside(name, phase) && state.files[name].text == old(state.files[name].text)
    {
      free := name !in open;
      if free {
        open := open + {name};
        Advance(Moved(state, name, phase), step);
      }
    }

    /** cerrarArchivo */
    method CloseFile(name: string)
      requires Inside(name, Finished)
      modifies this
      ensures Ok() && state == Moved(old(state), name, Closed) && files == old(files)
      ensures name in state.files && state.files[name].phase.Closed?
      ensures state.files[name].text == old(state.files[name].text)
    {
      open := open - {name};
      Advance(Moved(state, name, Closed), Close(name));
    }

    // ---- bloques.c ----

    /** asignarBloqueLibre, for the handler of a file that needs another block */
    method AssignFreeBlock(ghost name: string) returns (block: int)
      requires name in state.files && Inside(name, state.files[name].phase) && state.files[name].phase.Growing?
      requires |Owned(state.files[name])| < BlocksFor(|state.files[name].phase.text|, blockSize)
      modifies bitmap, disk, this`state
      ensures Ok() && -1 <= block
      ensures block == -1 ==> Full(old(bitmap[..])) && bitmap[..] == old(bitmap[..])
      ensures block == -1 ==> state == Moved(old(state), name, RollingBack(old(Owned(state.files[name]))))
      ensures block >= 0 ==> Taking(old(state), state, name, block)
      ensures block == -1 ==> disk[..] == old(disk[..]) && forall c :: 0 <= c < bitmap.Length ==> old(bitmap[c])
      ensures block >= 0 ==>
        block < bitmap.Length && !old(bitmap[block]) && forall c :: 0 <= c < block ==> old(bitmap[c])
      ensures block >= 0 ==> block < disk.Length && bitmap[..] == old(bitmap[..])[block := true]
      ensures block >= 0 ==> disk[..] == old(disk[..])[block := ""]
    {
      block := -1;
      var a := 0;
      while a < bitmap.Length && bitmap[a]
        invariant a <= bitmap.Length && forall c :: 0 <= c < a ==> bitmap[c]
      {
        a := a + 1;
      }
      assert disk.Length == bitmap.Length && blockSize > 0;
      hide Inv, Contents, Next, InPhase, Owned, WithWorking, BlocksFor, Taking;
      if a < bitmap.Length {
        block := a;
        MarkBlock(a, name);
      } else {
        MayFail(state, name);
        FailsToTake(name);
      }
    }

    ghost method FailsToTake(name: string)
      requires Ok() && name in state.files && !state.files[name].phase.Closed? && state.blockSize > 0
      requires Next(state, Moved(state, name, RollingBack(Owned(state.files[name]))), DiskFull(name))
      modifies this`state
      ensures Ok() && state == Moved(old(state), name, RollingBack(Owned(old(state.files[name]))))
    {
      hide Inv, Contents, Next, Owned;
      Advance(Moved(state, name, RollingBack(Owned(state.files[name]))), DiskFull(name));
    }

    /** The bit is set, and the block emptied. */
    method MarkBlock(a: nat, ghost name: string)
      requires Ok() && a < bitmap.Length == disk.Length && IsFirstFree(bitmap[..], a) && state.blockSize > 0
      requires name in state.files && state.files[name].phase.Growing?
      requires |Owned(state.files[name])| < BlocksFor(|state.files[name].phase.text|, state.blockSize)
      modifies bitmap, disk, this`state
      ensures Ok() && Taking(old(state), state, name, a)
      ensures bitmap[..] == old(bitmap[..])[a := true] && disk[..] == old(disk[..])[a := ""]
    {
      ghost var s := state;
      hide Inv, Contents, Next, Owned, BlocksFor, Taking, IsFirstFree;
      MayTake(s, name, a);
      bitmap[a] := true;
      disk[a] := "";
      Advance(AfterTake(s, name, a), Take(name));
    }

    /** A handler may give back its last block. */
    ghost predicate MayGive(name: string)
      reads this, bitmap, disk
    {
      && name in state.files && Inside(name, state.files[name].phase)
      && (match state.files[name].phase
          case RollingBack(w) => |w| > BlocksFor(state.files[name].meta.size, blockSize)
          case Shrinking(w, text) => |w| > BlocksFor(|text|, blockSize)
          case Emptying(w) => |w| > 0
          case _ => false)
    }

    /** liberarBloque, for the last block of the handler's list */
    method FreeBlock(block: nat, ghost name: string)
      requires MayGive(name) && block == Owned(state.files[name])[|Owned(state.files[name])| - 1]
      modifies bitmap, this`state
      ensures Ok() && Giving(old(state), state, name)
      ensures block < bitmap.Length && bitmap[..] == old(bitmap[..])[block := false]
    {
      ghost var f := state.files[name];
      ghost var w := Owned(f);
      assert AllTaken(w, state.bitmap) && block in w;
      bitmap[block] := false;
      Advance(Moved(state, name, WithWorking(f.phase, w[..|w| - 1])).(bitmap := bitmap[..]), GiveBack(name));
    }

    /** What that does, by phases: p is the handler's phase before, q after. */
    method GiveBackLast(block: nat, ghost name: string, ghost p: Phase, ghost q: Phase, ghost w: seq<nat>)
      requires MayGive(name) && state.files[name].phase == p && Owned(state.files[name]) == w && w != []
      requires block == w[|w| - 1]
      requires q == WithWorking(p, w[..|w| - 1])
      modifies bitmap, this`state
      ensures Inside(name, q) && state.files == InPhase(old(state.files), name, q)
      ensures block < bitmap.Length && bitmap[..] == old(bitmap[..])[block := false]
    {
      FreeBlock(block, name);
      hide Inv, Contents, Next, FileOk, MayGive;
      GivingShrinks(old(state), state, name);
    }

    // ---- mapeo.c ----

    /** mapearArchivoEnString */
    method MapFile(blocks: seq<nat>, size: nat) returns (text: string)
      requires InDisk(blocks, disk.Length) && blockSize > 0
      ensures text == Read(disk[..], blocks, size, blockSize)
    {
      hide Front;
      text := "";
      var read := 0;
      for a := 0 to |blocks|
        invariant read <= size
        invariant text + Read(disk[..], blocks[a..], size - read, blockSize) == Read(disk[..], blocks, size, blockSize)
      {
        var current := if size - read < blockSize then size - read else blockSize;
        assert blocks[a..][0] == blocks[a] && blocks[a..][1..] == blocks[a + 1..];
        text := text + Front(disk[blocks[a]], current);
        read := read + current;
      }
    }

    /** dumpearArchivo */
    method DumpFile(blocks: seq<nat>, text: string)
      requires InDisk(blocks, disk.Length) && blockSize > 0
      modifies disk
      ensures disk[..] == Dump(old(disk[..]), blocks, text, blockSize)
    {
      var displacement := 0;
      for a := 0 to |blocks|
        invariant displacement <= |text|
        invariant Dump(disk[..], blocks[a..], text[displacement..], blockSize) ==
          Dump(old(disk[..]), blocks, text, blockSize)
      {
        var current := if |text| - displacement < blockSize then |text| - displacement else blockSize;
        ghost var before := disk[..];
        assert blocks[a..][0] == blocks[a] && blocks[a..][1..] == blocks[a + 1..];
        assert text[displacement..][..current] == text[displacement..displacement + current];
        assert text[displacement..][current..] == text[displacement + current..];
        disk[blocks[a]] := Padded(text[displacement..displacement + current], blockSize);
        displacement := displacement + current;
        assert disk[..] == before[blocks[a] := Padded(text[displacement - current..displacement], blockSize)];
      }
    }

    // ---- manejoDeArchivos.c ----

    /** The end of New and of Catch: the contents and BLOCKS are written. */
    method WriteContents(name: string, blocks: seq<nat>, text: string)
      requires Ok() && name in state.files && !state.files[name].phase.Closed? && blockSize > 0
      requires WriteReady(state.files[name].phase, blocks, text, blockSize)
      modifies this`files, this`state, disk
      ensures Inside(name, Sizing(text)) && state.bitmap == old(state.bitmap)
      ensures files == old(files)[name := Meta(blocks, old(files[name].size))]
      ensures state.files ==
        old(state.files)[name := File(Meta(blocks, old(files[name].size)), old(state.files[name].text), Sizing(text))]
    {
      hide Inv, Contents, WriteReady, Next, InDisk, Dump;
      CanWrite(state, name, blocks, text);
      DumpFile(blocks, text);
      files := files[name := files[name].(blocks := blocks)];
      Advance(Written(state, name, blocks, text), WriteBlocks(name));
    }

    /** SIZE is written. */
    method WriteLength(name: string, ghost text: string, size: nat)
      requires Inside(name, Sizing(text)) && size == |text|
      modifies this`files, this`state
      ensures Inside(name, Finished) && state.bitmap == old(state.bitmap)
      ensures files == old(files)[name := Meta(old(files[name].blocks), |text|)]
      ensures state.files == old(state.files)[name := File(Meta(old(files[name].blocks), |text|), text, Finished)]
    {
      hide Contents, Inv;
      ghost var m := state.files[name].meta;
      files := files[name := files[name].(size := size)];
      Advance(Put(state, name, File(m.(size := size), text, Finished)), WriteSize(name));
    }

    /** The rollback of agregarCoordenadaPokemon: blocks are given back until there are as
        many as the old size asks for. */
    method RollBack(name: string, blocks: seq<nat>, ghost first: seq<bool>)
      requires name in files && Inside(name, RollingBack(blocks)) && files[name].blocks <= blocks
      requires Taken(first, blocks[|files[name].blocks|..])
      requires bitmap[..] == Marked(first, blocks[|files[name].blocks|..])
      modifies bitmap, this`state
      ensures Inside(name, Finished) && state.files == InPhase(old(state.files), name, Finished)
      ensures bitmap[..] == first <==> files[name].size > 0 || |blocks| == 0
    {
      var left := blocks;
      ghost var m := files[name];
      assert MetaOk(m, blockSize) by { assert FileOk(state.files[name], blockSize); }
      hide Linked, Inv, Contents, Next, Marked, Taken, BlocksFor, FileOk, MetaOk, InPhase;
      PhaseTwice(state.files, name, RollingBack(left), Finished);
      while |left| > BlocksFor(files[name].size, blockSize)
        invariant Inside(name, RollingBack(left)) && m.blocks <= left <= blocks && name in files && files[name] == m
        invariant state.files == InPhase(old(state.files), name, RollingBack(left))
        invariant Taken(first, left[|m.blocks|..]) && bitmap[..] == Marked(first, left[|m.blocks|..])
        invariant |left| < |blocks| ==> |left| >= BlocksFor(m.size, blockSize)
      {
        PhaseTwice(old(state.files), name, RollingBack(left), RollingBack(left[..|left| - 1]));
        left := GiveBackOne(name, left, first);
      }
      Restored(first, m, left, blocks, blockSize);
      PhaseTwice(old(state.files), name, RollingBack(left), Finished);
      EndRollBack(name, left);
    }

    /** Nothing is written. */
    ghost method EndRollBack(name: string, left: seq<nat>)
      requires Inside(name, RollingBack(left)) && blockSize > 0 && name in files
      requires |left| <= BlocksFor(files[name].size, blockSize)
      modifies this`state
      ensures Inside(name, Finished) && state == Moved(old(state), name, Finished)
    {
      hide Inv, Contents, Next;
      MayStop(state, name, left);
      Advance(Moved(state, name, Finished), StopGiving(name));
    }

    /** One turn of that loop. */
    method GiveBackOne(name: string, blocks: seq<nat>, ghost first: seq<bool>) returns (left: seq<nat>)
      requires name in files && Inside(name, RollingBack(blocks)) && files[name].blocks <= blocks
      requires blockSize > 0 && |blocks| > BlocksFor(files[name].size, blockSize)
      requires Taken(first, blocks[|files[name].blocks|..])
      requires bitmap[..] == Marked(first, blocks[|files[name].blocks|..])
      modifies bitmap, this`state
      ensures left == blocks[..|blocks| - 1] && files[name].blocks <= left && Inside(name, RollingBack(left))
      ensures state.files == InPhase(old(state.files), name, RollingBack(left))
      ensures Taken(first, left[|files[name].blocks|..]) && bitmap[..] == Marked(first, left[|files[name].blocks|..])
    {
      hide *;
      ghost var k := |files[name].blocks|;
      MayRollBack(name, blocks);
      left := blocks[..|blocks| - 1];
      GiveLast(first, blocks[k..]);
      assert blocks[k..][..|blocks| - k - 1] == left[k..] && blocks[k..][|blocks| - k - 1] == blocks[|blocks| - 1];
      GiveBackLast(blocks[|blocks| - 1], name, RollingBack(blocks), RollingBack(left), blocks);
    }

    lemma MayRollBack(name: string, blocks: seq<nat>)
      requires name in files && Inside(name, RollingBack(blocks)) && files[name].blocks <= blocks && blockSize > 0
      requires |blocks| > BlocksFor(files[name].size, blockSize)
      ensures |files[name].blocks| < |blocks| && MayGive(name) && name in state.files
      ensures state.files[name].phase == RollingBack(blocks) && Owned(state.files[name]) == blocks
      ensures WithWorking(RollingBack(blocks), blocks[..|blocks| - 1]) == RollingBack(blocks[..|blocks| - 1])
    {
      assert FileOk(state.files[name], blockSize);
      hide Inv, Contents;
    }

    /** One turn of the loop of agregarCoordenadaPokemon: another block, or -1. */
    method TakeOneMore(name: string, blocks: seq<nat>, ghost text: string, ghost first: seq<bool>)
      returns (block: int, more: seq<nat>)
      requires name in files && Inside(name, Growing(blocks, text)) && files[name].blocks <= blocks
      requires blockSize > 0 && |blocks| < BlocksFor(|text|, blockSize)
      requires Taken(first, blocks[|files[name].blocks|..])
      requires bitmap[..] == Marked(first, blocks[|files[name].blocks|..])
      modifies bitmap, disk, this`state
      ensures block == -1 ==> more == blocks && Full(bitmap[..]) && Inside(name, RollingBack(blocks))
      ensures block == -1 ==> state.files == InPhase(old(state.files), name, RollingBack(blocks))
      ensures block == -1 ==> bitmap[..] == old(bitmap[..])
      ensures block != -1 ==> |more| == |blocks| + 1 && blocks <= more && Inside(name, Growing(more, text))
      ensures block != -1 ==> state.files == InPhase(old(state.files), name, Growing(more, text))
      ensures Taken(first, more[|files[name].blocks|..]) && bitmap[..] == Marked(first, more[|files[name].blocks|..])
    {
      hide *;
      ghost var k, s := |files[name].blocks|, state;
      more := blocks;
      InGrowing(name, blocks, text);
      block := AssignFreeBlock(name);
      if block >= 0 {
        more := blocks + [block];
        assert more[k..] == blocks[k..] + [block];
        TakingGrows(s, state, name, block, blocks, text);
        TakeAnother(first, blocks[k..], block);
        NowInside(name, s.files, Growing(more, text));
      } else {
        MovedFiles(s, name, RollingBack(blocks));
        NowInside(name, s.files, RollingBack(blocks));
      }
    }

    lemma InGrowing(name: string, blocks: seq<nat>, text: string)
      requires Inside(name, Growing(blocks, text)) && blockSize > 0
      ensures Ok() && name in state.files && state.files[name].phase == Growing(blocks, text)
      ensures Owned(state.files[name]) == blocks && state.bitmap == bitmap[..] && |state.bitmap| == bitmap.Length
    {
    }

    lemma NowInside(name: string, before: map<string, File>, phase: Phase)
      requires Ok() && name in before && state.files == InPhase(before, name, phase) && !phase.Closed?
      ensures Inside(name, phase)
    {
      hide Linked, Inv, Contents;
    }

    /** agregarCoordenadaPokemon, by the handler that has the file open. It fails exactly when
        there are not enough free blocks. */
    method AddCoordinate(name: string, x: nat, y: nat, quantity: nat, ghost rs: seq<Record>) returns (r: int)
      requires name in files && Inside(name, Growing(files[name].blocks, Render(Add(rs, x, y, quantity))))
      requires state.files[name].text == Render(rs)
      modifies bitmap, disk, this`files, this`state
      ensures Inside(name, Finished) && (r == 0 || r == -1)
      ensures r == 0 <==>
        Missing(old(files[name].blocks), |Render(Add(rs, x, y, quantity))|, blockSize) <= FreeCount(old(bitmap[..]))
      ensures r == 0 <==>
        (|Render(Add(rs, x, y, quantity))| / blockSize + 1 <= old(|files[name].blocks|) + FreeCount(old(bitmap[..])))
      ensures r == 0 ==> old(files[name].blocks) <= files[name].blocks
      ensures r == 0 ==> |files[name].blocks| == |Render(Add(rs, x, y, quantity))| / blockSize + 1
      ensures r == 0 ==> state.files == old(state.files)[name := File(Meta(files[name].blocks,
        |Render(Add(rs, x, y, quantity))|), Render(Add(rs, x, y, quantity)), Finished)]
      ensures r == 0 ==> (FreeCount(bitmap[..]) ==
        FreeCount(old(bitmap[..])) - Missing(old(files[name].blocks), |Render(Add(rs, x, y, quantity))|, blockSize))
      ensures r == -1 ==> state.files == InPhase(old(state.files), name, Finished)
      ensures r == -1 ==> (bitmap[..] == old(bitmap[..]) <==> old(files[name].size) > 0 || Full(old(bitmap[..])))
    {
      ghost var m, first := files[name], bitmap[..];
      var text := TextWith(name, x, y, quantity, rs);
      var blocks := files[name].blocks;
      EmptyStart(state, name, first, |text|);
      hide Linked, Inv, Contents, Marked, Taken, InPhase, BlocksFor, Missing, Full, FreeCount, FileOk;
      while |blocks| < BlocksFor(|text|, blockSize)
        invariant name in files && files[name] == m && m.blocks <= blocks && Inside(name, Growing(blocks, text))
        invariant state.files == InPhase(old(state.files), name, Growing(blocks, text))
        invariant Taken(first, blocks[|m.blocks|..]) && bitmap[..] == Marked(first, blocks[|m.blocks|..])
        invariant |blocks| <= |m.blocks| + Missing(m.blocks, |text|, blockSize)
      {
        MissingAtLeast(blocks, m, |text|, blockSize);
        var block, more := TakeOneMore(name, blocks, text, first);
        PhaseTwice(old(state.files), name, Growing(blocks, text), Growing(more, text));
        if block == -1 {
          DiskIsFull(first, m, blocks, |text|, blockSize);
          PhaseTwice(old(state.files), name, Growing(blocks, text), RollingBack(blocks));
          PhaseTwice(old(state.files), name, RollingBack(blocks), Finished);
          RollBack(name, blocks, first);
          EnoughMeans(m.blocks, |text|, blockSize, FreeCount(first));
          return -1;
        }
        blocks := more;
      }
      DiskIsEnough(first, m, blocks, |text|, blockSize);
      Overwritten(old(state.files), name, Growing(blocks, text),
        File(Meta(blocks, m.size), old(state.files[name].text), Sizing(text)),
        File(Meta(blocks, |text|), text, Finished));
      AsManyAs(old(state), name, blocks, text);
      WriteContents(name, blocks, text);
      WriteLength(name, text, |text|);
      EnoughMeans(m.blocks, |text|, blockSize, FreeCount(first));
      return 0;
    }

    /** What the file will hold: its records with the new ones added. */
    method TextWith(name: string, x: nat, y: nat, quantity: nat, ghost rs: seq<Record>) returns (text: string)
      requires name in files && Inside(name, Growing(files[name].blocks, Render(Add(rs, x, y, quantity))))
      requires state.files[name].text == Render(rs)
      ensures text == Render(Add(rs, x, y, quantity))
    {
      var m := files[name];
      assert FileOk(state.files[name], blockSize) && ContentOk(state.files[name], state.disk, blockSize);
      hide Inv, Contents, FileOk, MetaOk, Add, Line, Parse;
      if m.size == 0 {
        EmptyText(rs);
        AddFirst(x, y, quantity);
        text := Line(Record(x, y, quantity));
      } else {
        text := MapFile(m.blocks, m.size);
        ParseRender(rs);
        text := Render(Add(Parse(text), x, y, quantity));
      }
    }

    // ---- Catch ----

    /** quitarCoordenadaPokemon, by the handler that has the file open. It fails exactly when
        there is none of the species at (x, y); otherwise it gives back the blocks past those
        the shorter text needs, and all of them with the last record. */
    method RemoveCoordinate(name: string, x: nat, y: nat, ghost rs: seq<Record>) returns (r: int)
      requires name in files && Inside(name, CatchPhase(files[name].blocks, rs, x, y))
      requires state.files[name].text == Render(rs)
      modifies bitmap, disk, this`files, this`state
      ensures Inside(name, Finished) && r == (if At(rs, x, y) == 0 then FAIL else OK)
      ensures r == FAIL ==> state == old(state) && files == old(files)
      ensures r == OK ==> var t := Render(TakeOne(rs, x, y)); var kept := if |t| == 0 then 0 else |t| / blockSize + 1;
        && blockSize > 0 && kept <= old(|files[name].blocks|)
        && files == old(files)[name := Meta(old(files[name].blocks)[..kept], |t|)]
        && state.files == old(state.files)[name := File(Meta(old(files[name].blocks)[..kept], |t|), t, Finished)]
        && Cleared(old(bitmap[..]), bitmap[..], old(files[name].blocks)[kept..])
    {
      if files[name].size == 0 {
        assert ContentOk(state.files[name], state.disk, blockSize);
        EmptyText(rs);
        return FAIL;
      }
      var text := TextIn(name, rs);
      var records := Parse(text);
      ParseRender(rs);
      if At(records, x, y) == 0 { return FAIL; }
      text := Render(TakeOne(records, x, y));
      if |text| == 0 {
        EmptyOut(name);
      } else {
        ShrinkOut(name, text);
      }
      r := OK;
    }

    /** What the file holds, for a handler that has changed nothing yet. */
    method TextIn(name: string, ghost rs: seq<Record>) returns (text: string)
      requires name in state.files && Inside(name, state.files[name].phase) && blockSize > 0
      requires Whole(state.files[name]) && !state.files[name].phase.Sizing? && state.files[name].text == Render(rs)
      ensures text == Render(rs)
    {
      assert ContentOk(state.files[name], state.disk, blockSize);
      text := MapFile(files[name].blocks, files[name].size);
    }

    /** The last record is gone: every block is given back. */
    method EmptyOut(name: string)
      requires name in files && Inside(name, Emptying(files[name].blocks))
      modifies bitmap, disk, this`files, this`state
      ensures Inside(name, Finished) && files == old(files)[name := Meta([], 0)]
      ensures state.files == old(state.files)[name := File(Meta([], 0), "", Finished)]
      ensures Cleared(old(bitmap[..]), bitmap[..], old(files[name].blocks))
    {
      var blocks := files[name].blocks;
      var a := |blocks|;
      PhaseTwice(state.files, name, Emptying(blocks), Finished);
      assert blocks[..a] == blocks && blocks[a..] == [];
      hide Linked, Inv, Contents, InPhase, Cleared, Giving, Next, FileOk;
      assert Cleared(bitmap[..], bitmap[..], blocks[a..]) by { NoneCleared(bitmap[..]); }
      while a > 0
        invariant 0 <= a <= |blocks| && name in files && files == old(files) && Inside(name, Emptying(blocks[..a]))
        invariant state.files == InPhase(old(state.files), name, Emptying(blocks[..a]))
        invariant Cleared(old(bitmap[..]), bitmap[..], blocks[a..])
      {
        a := a - 1;
        PhaseTwice(old(state.files), name, Emptying(blocks[..a + 1]), Emptying(blocks[..a]));
        assert blocks[..a + 1][..a] == blocks[..a];
        ghost var before := bitmap[..];
        GiveBackLast(blocks[a], name, Emptying(blocks[..a + 1]), Emptying(blocks[..a]), blocks[..a + 1]);
        ClearedOne(old(bitmap[..]), before, blocks, a + 1);
      }
      Overwritten(old(state.files), name, Emptying([]),
        File(Meta([], files[name].size), old(state.files[name].text), Sizing("")),
        File(Meta([], 0), "", Finished));
      SetTwice(files, name, Meta([], files[name].size), Meta([], 0));
      WriteContents(name, [], "");
      WriteLength(name, "", 0);
    }

    /** Some records are left: the blocks past those their text needs are given back. */
    method ShrinkOut(name: string, text: string)
      requires name in files && Inside(name, Shrinking(files[name].blocks, text)) && blockSize > 0
      modifies bitmap, disk, this`files, this`state
      ensures BlocksFor(|text|, blockSize) <= old(|files[name].blocks|)
      ensures Inside(name, Finished)
      ensures files == old(files)[name := Meta(old(files[name].blocks)[..BlocksFor(|text|, blockSize)], |text|)]
      ensures state.files == old(state.files)[name := File(Meta(old(files[name].blocks)[..BlocksFor(|text|, blockSize)],
        |text|), text, Finished)]
      ensures Cleared(old(bitmap[..]), bitmap[..], old(files[name].blocks)[BlocksFor(|text|, blockSize)..])
    {
      hide *;
      var blocks := files[name].blocks;
      ghost var all := blocks;
      ShrinkStarts(name, text);
      PhaseTwice(state.files, name, Shrinking(blocks, text), Finished);
      assert all[..|blocks|] == blocks && all[|blocks|..] == [];
      NoneCleared(bitmap[..]);
      while |blocks| > BlocksFor(|text|, blockSize)
        invariant BlocksFor(|text|, blockSize) <= |blocks| <= |all| && blocks == all[..|blocks|]
        invariant name in files && files == old(files) && Inside(name, Shrinking(blocks, text))
        invariant state.files == InPhase(old(state.files), name, Shrinking(blocks, text))
        invariant Cleared(old(bitmap[..]), bitmap[..], all[|blocks|..])
      {
        var n := |blocks| - 1;
        PhaseTwice(old(state.files), name, Shrinking(blocks, text), Shrinking(all[..n], text));
        assert blocks[..n] == all[..n];
        ghost var before := bitmap[..];
        MayShrink(name, blocks, text);
        GiveBackLast(blocks[n], name, Shrinking(blocks, text), Shrinking(all[..n], text), blocks);
        SameLength(old(bitmap[..]), before, all[n + 1..]);
        ClearedOne(old(bitmap[..]), before, all, n + 1);
        blocks := blocks[..n];
      }
      Overwritten(old(state.files), name, Shrinking(blocks, text),
        File(Meta(blocks, files[name].size), old(state.files[name].text), Sizing(text)),
        File(Meta(blocks, |text|), text, Finished));
      SetTwice(files, name, Meta(blocks, files[name].size), Meta(blocks, |text|));
      ShrunkReady(name, blocks, text, old(state.files));
      WriteContents(name, blocks, text);
      WriteLength(name, text, |text|);
    }

    lemma ShrinkStarts(name: string, text: string)
      requires name in files && Inside(name, Shrinking(files[name].blocks, text)) && blockSize > 0
      ensures |files[name].blocks| >= BlocksFor(|text|, blockSize) && name in state.files
      ensures state.files[name].phase == Shrinking(files[name].blocks, text)
    {
      assert FileOk(state.files[name], blockSize);
      hide Inv, Contents, BlocksFor;
    }

    lemma MayShrink(name: string, blocks: seq<nat>, text: string)
      requires name in files && Inside(name, Shrinking(blocks, text)) && blockSize > 0
      requires |blocks| > BlocksFor(|text|, blockSize)
      ensures MayGive(name) && name in state.files && state.files[name].phase == Shrinking(blocks, text)
      ensures Owned(state.files[name]) == blocks && blocks != []
      ensures WithWorking(Shrinking(blocks, text), blocks[..|blocks| - 1]) == Shrinking(blocks[..|blocks| - 1], text)
    {
      hide Inv, Contents;
    }

    lemma ShrunkReady(name: string, blocks: seq<nat>, text: string, before: map<string, File>)
      requires name in files && Inside(name, Shrinking(blocks, text)) && blockSize > 0
      requires |blocks| <= BlocksFor(|text|, blockSize) && name in before
      requires state.files == InPhase(before, name, Shrinking(blocks, text))
      ensures Ok() && name in state.files && !state.files[name].phase.Closed?
      ensures WriteReady(state.files[name].phase, blocks, text, blockSize)
      ensures state.files[name].text == before[name].text
    {
      hide Linked, Inv, Contents, BlocksFor;
    }

    // ---- Get ----

    /** obtenerCoordenadasPokemon */
    method GetCoordinates(name: string, ghost rs: seq<Record>) returns (positions: seq<(nat, nat)>)
      requires name in files && Inside(name, Finished) && state.files[name].text == Render(rs)
      ensures |positions| == |rs| && forall i :: 0 <= i < |rs| ==> positions[i] == (rs[i].x, rs[i].y)
    {
      positions := [];
      if files[name].size == 0 {
        assert ContentOk(state.files[name], state.disk, blockSize);
        EmptyText(rs);
        return;
      }
      var text := TextIn(name, rs);
      ParseRender(rs);
      var records := Parse(text);
      for a := 0 to |records|
        invariant |positions| == a && forall i :: 0 <= i < a ==> positions[i] == (records[i].x, records[i].y)
      {
        positions := positions + [(records[a].x, records[a].y)];
      }
    }

    // ---- Requests (gamecard/src/fileSystem.c) ----

    /** The file is closed and holds those records. */
    ghost predicate Holds(name: string, rs: seq<Record>)
      reads this, bitmap, disk
    {
      Ok() && name in state.files && state.files[name].phase.Closed? && state.files[name].text == Render(rs)
    }

    /** What a file holds is in its blocks. */
    lemma HeldOnDisk(name: string, rs: seq<Record>)
      requires Holds(name, rs)
      ensures name in files && files[name].size == |Render(rs)|
      ensures TextStands(disk[..], files[name].blocks, Render(rs), blockSize)
    {
      ClosedParts(state, name);
      hide Inv, Contents, TextStands, Render;
    }

    /** One attempt of procesarNew; tried is false when another handler has the file open.
        Either the file holds the Pokemon it is told about besides those it held, or nothing
        has changed in it. */
    method ProcessNew(name: string, x: nat, y: nat, quantity: nat, ghost rs: seq<Record>) returns (tried: bool, r: int)
      requires Ok() && name in files && (state.files[name].phase.Closed? ==> Holds(name, rs))
      modifies this, bitmap, disk
      ensures tried == old(state.files[name].phase.Closed?) && (!tried ==> Ok() && state == old(state))
      ensures tried ==> (r == 0 <==>
        Missing(old(files[name].blocks), |Render(Add(rs, x, y, quantity))|, blockSize) <= FreeCount(old(bitmap[..])))
      ensures tried ==> blockSize > 0 && (r == 0 <==>
        |Render(Add(rs, x, y, quantity))| / blockSize + 1 <= old(|files[name].blocks|) + FreeCount(old(bitmap[..])))
      ensures tried && r == 0 ==> Holds(name, Add(rs, x, y, quantity)) && name in files
      ensures tried && r == 0 ==> |files[name].blocks| == |Render(Add(rs, x, y, quantity))| / blockSize + 1
      ensures tried && r == 0 ==>
        state.files == old(state.files)[name := File(files[name], Render(Add(rs, x, y, quantity)), Closed)]
      ensures tried && r == 0 ==> files[name].size == |Render(Add(rs, x, y, quantity))|
      ensures tried && r == 0 ==> TextStands(disk[..], files[name].blocks, Render(Add(rs, x, y, quantity)), blockSize)
      ensures tried && r != 0 ==> Holds(name, rs) && state.files == old(state.files)
      ensures tried && r != 0 && old(files[name].size) > 0 ==> bitmap[..] == old(bitmap[..])
    {
      ghost var text := Render(Add(rs, x, y, quantity));
      ghost var working := Growing(files[name].blocks, text);
      MayOpenNew(state, name, rs, x, y, quantity);
      tried := TryOpen(name, OpenNew(name, text), working);
      r := -1;
      hide Linked, Inv, Contents, Next, InPhase, Add, Render, Missing, FreeCount, Full, BlocksFor;
      if tried {
        MovedBack(old(state), name, working);
        Replaced(old(state.files), name, working);
        r := AddCoordinate(name, x, y, quantity, rs);
        CloseFile(name);
        if r == 0 { HeldOnDisk(name, Add(rs, x, y, quantity)); }
      }
    }

    lemma ClosedAgain(f: File)
      ensures f.(phase := Closed) == File(f.meta, f.text, Closed)
    {
    }

    lemma CatchResults()
      ensures OK == 1 && FAIL == 2
    {
    }

    lemma MayTryCatch(name: string, x: nat, y: nat, rs: seq<Record>)
      requires Ok() && name in files && (state.files[name].phase.Closed? ==> Holds(name, rs))
      ensures name in state.files && CatchStep(name, rs, x, y).name == name
      ensures state.blockSize > 0 && !CatchPhase(files[name].blocks, rs, x, y).Closed?
      ensures state.files[name].phase.Closed? ==> state.files[name].text == Render(rs)
      ensures state.files[name].phase.Closed? ==>
        Next(state, Moved(state, name, CatchPhase(files[name].blocks, rs, x, y)), CatchStep(name, rs, x, y))
    {
      MayOpenCatch(state, name, rs, x, y);
      assert files[name].blocks == state.files[name].meta.blocks;
      hide Next, Inv, Contents, Render, TakeOne, Moved;
    }

    /** The part of procesarCatch between opening the file and answering. */
    method CatchOpened(name: string, x: nat, y: nat, ghost rs: seq<Record>) returns (r: int)
      requires name in files && Inside(name, CatchPhase(files[name].blocks, rs, x, y))
      requires state.files[name].text == Render(rs)
      modifies this, bitmap, disk
      ensures r == (if At(rs, x, y) == 0 then FAIL else OK)
      ensures r == FAIL ==> Holds(name, rs) && state == Moved(old(state), name, Closed)
      ensures r == OK ==> Holds(name, TakeOne(rs, x, y)) && name in files
      ensures r == OK ==> files[name].blocks <= old(files[name].blocks)
      ensures r == OK ==> (state.files ==
        InPhase(old(state.files)[name := File(files[name], Render(TakeOne(rs, x, y)), Finished)], name, Closed))
      ensures r == OK ==> files.Keys == old(files.Keys)
      ensures r == OK ==> Cleared(old(bitmap[..]), bitmap[..], old(files[name].blocks)[|files[name].blocks|..])
    {
      hide Linked, Inv, Contents, Next, InPhase, TakeOne, Render, BlocksFor, CatchPhase, CatchStep, Cleared;
      r := RemoveCoordinate(name, x, y, rs);
      CloseFile(name);
    }

    /** One attempt of procesarCatch: it takes one Pokemon where the file has any, and gives
        back exactly the blocks past those the file still needs. */
    method ProcessCatch(name: string, x: nat, y: nat, ghost rs: seq<Record>) returns (tried: bool, r: int)
      requires Ok() && (name in files && state.files[name].phase.Closed? ==> Holds(name, rs))
      modifies this, bitmap, disk
      ensures tried == (name in old(files) ==> old(state.files[name].phase.Closed?))
      ensures !tried || name !in old(files) ==> Ok() && state == old(state)
      ensures tried ==> r == if name !in old(files) || At(rs, x, y) == 0 then FAIL else OK
      ensures tried ==> r == if name in old(files) && At(rs, x, y) >= 1 then 1 else 2
      ensures tried && name in old(files) && r == FAIL ==> Holds(name, rs) && state == old(state)
      ensures tried && r == OK ==> Holds(name, TakeOne(rs, x, y)) && name in files
      ensures tried && r == OK ==>
        state.files == old(state.files)[name := File(files[name], Render(TakeOne(rs, x, y)), Closed)]
      ensures tried && r == OK ==> files.Keys == old(files.Keys) && files[name].blocks <= old(files[name].blocks)
      ensures tried && r == OK ==> files[name].size == |Render(TakeOne(rs, x, y))|
      ensures tried && r == OK ==> TextStands(disk[..], files[name].blocks, Render(TakeOne(rs, x, y)), blockSize)
      ensures tried && r == OK ==> forall b :: 0 <= b < bitmap.Length ==>
        (bitmap[b] <==> old(bitmap[b]) && b !in old(files[name].blocks)[|files[name].blocks|..])
    {
      hide *;
      if name !in files {
        CatchResults();
        return true, FAIL;
      }
      ghost var phase := CatchPhase(files[name].blocks, rs, x, y);
      ghost var step := CatchStep(name, rs, x, y);
      MayTryCatch(name, x, y, rs);
      tried := TryOpen(name, step, phase);
      r := FAIL;
      CatchResults();
      if tried {
        MovedBack(old(state), name, phase);
        MovedFiles(old(state), name, phase);
        Replaced(old(state.files), name, phase);
        r := CatchOpened(name, x, y, rs);
        if r == OK {
          ClosedAgain(File(files[name], Render(TakeOne(rs, x, y)), Finished));
          HeldOnDisk(name, TakeOne(rs, x, y));
          ClearedMeans(old(bitmap[..]), bitmap[..], old(files[name].blocks)[|files[name].blocks|..]);
        }
      }
    }

    /** One attempt of procesarLocalized: exactly the positions where the file has any. */
    method ProcessGet(name: string, ghost rs: seq<Record>) returns (tried: bool, positions: seq<(nat, nat)>)
      requires Ok() && (name in files && state.files[name].phase.Closed? ==> Holds(name, rs) && Proper(rs))
      modifies this
      ensures tried == (name in old(files) ==> old(state.files[name].phase.Closed?)) && Ok() && state == old(state)
      ensures tried && name !in old(files) ==> positions == []
      ensures tried && name in old(files) ==> |positions| == |rs| && forall x: nat, y: nat :: (x, y) in positions <==>
        At(rs, x, y) >= 1
    {
      positions := [];
      if name !in files { return true, []; }
      tried := TryOpen(name, OpenOnly(name), Finished);
      hide Linked, Inv, Contents, Next, Render;
      if tried {
        MovedBack(old(state), name, Finished);
        positions := GetCoordinates(name, rs);
        CloseFile(name);
        PositionsAre(rs, positions);
      }
    }
  }
}
