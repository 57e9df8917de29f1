/** What a file holds after any run of concurrent handlers: Handlers.dfy and Records.dfy together. */
module Sightings {
  import opened Blocks
  import opened Handlers
  import opened Records
  import opened Protocol

  /** What a handler was asked to do with its file: a New or a Catch. */
  datatype Ask = Seen(x: nat, y: nat, quantity: nat) | Caught(x: nat, y: nat)

  /** The ask makes sense of those records: something is seen, or there is one to catch. */
  predicate Fits(rs: seq<Record>, a: Ask) {
    match a
    case Seen(_, _, quantity) => quantity >= 1
    case Caught(x, y) => At(rs, x, y) >= 1
  }

  function After(rs: seq<Record>, a: Ask): seq<Record>
    requires Fits(rs, a)
  {
    match a
    case Seen(x, y, quantity) => Add(rs, x, y, quantity)
    case Caught(x, y) => TakeOne(rs, x, y)
  }

  /** How many Pokemon the ask adds at (x, y). */
  function Change(a: Ask, x: nat, y: nat): int {
    match a
    case Seen(u, v, quantity) => if u == x && v == y then quantity else 0
    case Caught(u, v) => if u == x && v == y then -1 else 0
  }

  function Total(done: seq<Ask>, x: nat, y: nat): int {
    if done == [] then 0 else Total(done[..|done| - 1], x, y) + Change(done[|done| - 1], x, y)
  }

  lemma AfterCounts(rs: seq<Record>, a: Ask, x: nat, y: nat)
    requires Proper(rs) && Fits(rs, a)
    ensures Proper(After(rs, a)) && At(After(rs, a), x, y) == At(rs, x, y) + Change(a, x, y)
  {
    match a
    case Seen(u, v, quantity) => AddCounts(rs, u, v, quantity, x, y);
    case Caught(u, v) => TakeCounts(rs, u, v, x, y);
  }

  // ---- Runs with asks ----

  /** The text a handler opens its file for is what the ask makes of the file's records. */
  ghost predicate AsAsked(s: State, step: Step, a: Ask) {
    (step.OpenNew? || step.OpenCatch?) && step.name in s.files ==>
      && (step.OpenNew? <==> a.Seen?)
      && Fits(Parse(s.files[step.name].text), a)
      && step.text == Render(After(Parse(s.files[step.name].text), a))
  }

  ghost predicate Asked(run: seq<State>, steps: seq<Step>, asks: seq<Ask>) {
    && IsRun(run, steps) && |asks| == |steps|
    && forall k :: 0 <= k < |steps| ==> AsAsked(run[k], steps[k], asks[k])
  }

  /** What the file's handler was last asked, among the first i steps. */
  function LastAsk(steps: seq<Step>, asks: seq<Ask>, n: string, i: nat): Ask
    requires i <= |steps| == |asks|
  {
    if i == 0 then Caught(0, 0)
    else if (steps[i - 1].OpenNew? || steps[i - 1].OpenCatch?) && steps[i - 1].name == n then asks[i - 1]
    else LastAsk(steps, asks, n, i - 1)
  }

  /** What has been carried out on the file in the first i steps: every New and Catch that got
      as far as writing the size. */
  function Done(steps: seq<Step>, asks: seq<Ask>, n: string, i: nat): seq<Ask>
    requires i <= |steps| == |asks|
  {
    if i == 0 then []
    else if steps[i - 1] == WriteSize(n) then Done(steps, asks, n, i - 1) + [LastAsk(steps, asks, n, i - 1)]
    else Done(steps, asks, n, i - 1)
  }

  /** The text a handler in that phase will leave, if it is about to leave one. */
  function Coming(p: Phase): Option<string> {
    match p
    case Growing(_, text) => Some(text)
    case Shrinking(_, text) => Some(text)
    case Emptying(_) => Some("")
    case Sizing(text) => Some(text)
    case _ => None
  }

  /** The file holds rs, and its handler, if it is about to change it, has been asked a. */
  ghost predicate HoldsAsked(f: File, rs: seq<Record>, a: Ask) {
    && Proper(rs) && f.text == Render(rs)
    && (Coming(f.phase).Some? ==> Fits(rs, a) && Coming(f.phase).value == Render(After(rs, a)))
  }

  lemma OtherFile(s: State, t: State, step: Step, n: string)
    requires s.blockSize > 0 && Next(s, t, step) && n in s.files && n != step.name
    ensures n in t.files && t.files[n] == s.files[n]
  {
  }

  /** One step of the file's own handler. */
  lemma OwnStep(s: State, t: State, step: Step, rs: seq<Record>, a: Ask, b: Ask)
    requires s.blockSize > 0 && Next(s, t, step) && step.name in s.files && HoldsAsked(s.files[step.name], rs, a)
    requires AsAsked(s, step, b) && (!step.OpenNew? && !step.OpenCatch? ==> b == a)
    ensures step.name in t.files
    ensures step.WriteSize? ==> Fits(rs, a) && HoldsAsked(t.files[step.name], After(rs, a), b)
    ensures !step.WriteSize? ==> HoldsAsked(t.files[step.name], rs, b)
  {
    ParseRender(rs);
    hide Parse, Render, After, Fits, Proper;
    var f, g := s.files[step.name], t.files[step.name];
    if step.WriteSize? { AfterProper(rs, a); }
  }

  lemma AfterProper(rs: seq<Record>, a: Ask)
    requires Proper(rs) && Fits(rs, a)
    ensures Proper(After(rs, a))
  {
    AfterCounts(rs, a, 0, 0);
  }

  /** At any point of any interleaving of News, Catches and Gets on any files, full disks
      included, a file holds at each position what it held at the start, plus what the News
      carried out there added, minus the Catches carried out there. */
  lemma {:induction false} HeldIsSum(run: seq<State>, steps: seq<Step>, asks: seq<Ask>, n: string, first: seq<Record>,
                                     i: nat)
    returns (rs: seq<Record>)
    requires Asked(run, steps, asks) && i <= |steps|
    requires n in run[0].files && Proper(first) && run[0].files[n].text == Render(first)
    requires run[0].files[n].phase.Closed?
    ensures n in run[i].files && HoldsAsked(run[i].files[n], rs, LastAsk(steps, asks, n, i))
    ensures forall x: nat, y: nat :: At(rs, x, y) == At(first, x, y) + Total(Done(steps, asks, n, i), x, y)
  {
    if i == 0 {
      rs := first;
    } else {
      rs := HeldIsSum(run, steps, asks, n, first, i - 1);
      var s, t, step := run[i - 1], run[i - 1 + 1], steps[i - 1];
      assert AsAsked(s, step, asks[i - 1]) && Next(s, t, step);
      hide AsAsked, Next, HoldsAsked, At, Total, After, Fits, Change;
      if step.name == n {
        var a := LastAsk(steps, asks, n, i - 1);
        OwnStep(s, t, step, rs, a, LastAsk(steps, asks, n, i));
        if step.WriteSize? {
          DoneOneMore(steps, asks, n, i);
          forall x: nat, y: nat
            ensures At(After(rs, a), x, y) == At(first, x, y) + Total(Done(steps, asks, n, i), x, y)
          {
            AfterCounts(rs, a, x, y);
          }
          rs := After(rs, a);
        }
      } else {
        OtherFile(s, t, step, n);
      }
    }
  }

  lemma DoneOneMore(steps: seq<Step>, asks: seq<Ask>, n: string, i: nat)
    requires 0 < i <= |steps| == |asks| && steps[i - 1] == WriteSize(n)
    ensures var d := Done(steps, asks, n, i - 1); forall x: nat, y: nat ::
      (Total(Done(steps, asks, n, i), x, y) == Total(d, x, y) + Change(LastAsk(steps, asks, n, i - 1), x, y))
  {
    var d, a := Done(steps, asks, n, i - 1), LastAsk(steps, asks, n, i - 1);
    assert (d + [a])[..|d|] == d;
  }

  /** And that is what its blocks give when it is closed. */
  lemma BlocksHoldSum(run: seq<State>, steps: seq<Step>, asks: seq<Ask>, n: string, first: seq<Record>, i: nat)
    returns (rs: seq<Record>)
    requires Asked(run, steps, asks) && i <= |steps| && Inv(run[0]) && Contents(run[0])
    requires n in run[0].files && Proper(first) && run[0].files[n].text == Render(first)
    requires run[0].files[n].phase.Closed?
    ensures forall x: nat, y: nat :: At(rs, x, y) == At(first, x, y) + Total(Done(steps, asks, n, i), x, y)
    ensures n in run[i].files && run[i].blockSize > 0
    ensures var s, m := run[i], run[i].files[n].meta; s.files[n].phase.Closed? ==>
      InDisk(m.blocks, |s.disk|) && Parse(Read(s.disk, m.blocks, m.size, s.blockSize)) == rs
  {
    rs := HeldIsSum(run, steps, asks, n, first, i);
    RunKeeps(run, steps, i);
    hide Inv, Render, Parse, Proper;
    assert ContentOk(run[i].files[n], run[i].disk, run[i].blockSize);
    ParseRender(rs);
  }
}
