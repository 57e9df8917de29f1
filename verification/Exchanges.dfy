/** Trainers as values, what they lack and what they have to spare, and what swapping does to
    it (team/.../ServicioDeResolucionDeDeadlocks.c, Entrenador.c). A counter dictionary of
    species is the multiset of its counts. */
module Exchanges {

  datatype Trainer = Trainer(id: string, captured: multiset<string>, goal: multiset<string>)

  /** objetivos menos capturas, capturas menos objetivos. */
  function Need(t: Trainer): multiset<string> { t.goal - t.captured }

  function Surplus(t: Trainer): multiset<string> { t.captured - t.goal }

  function Deficit(t: Trainer): nat { |Need(t)| }

  function CapturedBy(team: seq<Trainer>, n: nat): multiset<string>
    requires n <= |team|
  {
    if n == 0 then multiset{} else CapturedBy(team, n - 1) + team[n - 1].captured
  }

  function WantedBy(team: seq<Trainer>, n: nat): multiset<string>
    requires n <= |team|
  {
    if n == 0 then multiset{} else WantedBy(team, n - 1) + team[n - 1].goal
  }

  function TotalDeficit(team: seq<Trainer>, n: nat): nat
    requires n <= |team|
  {
    if n == 0 then 0 else TotalDeficit(team, n - 1) + Deficit(team[n - 1])
  }

  /** Every trainer has captured as many as it wants. */
  ghost predicate Full(team: seq<Trainer>) {
    forall i :: 0 <= i < |team| ==> |team[i].captured| == |team[i].goal|
  }

  /** Every trainer is full, and the team has captured exactly what it wants. */
  ghost predicate Balanced(team: seq<Trainer>) {
    && Full(team)
    && CapturedBy(team, |team|) == WantedBy(team, |team|)
  }

  ghost predicate DistinctNames(team: seq<Trainer>) {
    forall i, j :: 0 <= i < j < |team| ==> team[i].id != team[j].id
  }

  // ---- Who can help whom ----

  lemma {:induction false} CountsAtMost(team: seq<Trainer>, n: nat, x: string, i: int)
    requires n <= |team|
    requires forall j :: 0 <= j < n && j != i ==> team[j].captured[x] <= team[j].goal[x]
    requires 0 <= i < n ==> team[i].captured[x] < team[i].goal[x]
    ensures CapturedBy(team, n)[x] <= WantedBy(team, n)[x]
    ensures 0 <= i < n ==> CapturedBy(team, n)[x] < WantedBy(team, n)[x]
    decreases n
  {
    if n > 0 { CountsAtMost(team, n - 1, x, i); }
  }

  /** In a balanced team, whatever one trainer lacks another one has to spare. */
  lemma SomeoneHasIt(team: seq<Trainer>, i: nat, x: string) returns (j: nat)
    requires Balanced(team) && i < |team| && x in Need(team[i])
    ensures j < |team| && j != i && x in Surplus(team[j])
  {
    if j' :| 0 <= j' < |team| && j' != i && team[j'].captured[x] > team[j'].goal[x] {
      j := j';
    } else {
      CountsAtMost(team, |team|, x, i);
    }
  }

  lemma SizeOfDifference(a: multiset<string>, b: multiset<string>)
    ensures |a - b| + |a * b| == |a| && a * b == b * a
  {
    assert a == (a - b) + (a * b);
  }

  /** A full trainer who lacks something has something to spare, and as much of it. */
  lemma NeedIsSurplus(t: Trainer)
    requires |t.captured| == |t.goal|
    ensures |Need(t)| == |Surplus(t)|
    ensures |Need(t)| == 0 <==> t.captured == t.goal
  {
    SizeOfDifference(t.goal, t.captured);
    SizeOfDifference(t.captured, t.goal);
    if |Need(t)| == 0 {
      assert Need(t) == multiset{} && Surplus(t) == multiset{};
      forall x ensures t.captured[x] == t.goal[x] {
        assert x !in Need(t) && x !in Surplus(t);
      }
    }
  }

  /** Trainer b has to spare something trainer a lacks. */
  ghost predicate Helps(team: seq<Trainer>, a: nat, b: nat) {
    a < |team| && b < |team| && a != b && Need(team[a]) * Surplus(team[b]) != multiset{}
  }

  /** Somebody depends on somebody as long as anybody lacks anything. */
  lemma DependencyExists(team: seq<Trainer>, a: nat) returns (b: nat)
    requires Balanced(team) && a < |team| && Need(team[a]) != multiset{}
    ensures Helps(team, a, b)
  {
    var x :| x in Need(team[a]);
    b := SomeoneHasIt(team, a, x);
    assert x in Need(team[a]) * Surplus(team[b]);
  }

  // ---- Swapping ----

  /** One side of a swap: trainer who gives one species away and receives another. */
  datatype Half = Half(who: nat, gives: string, gets: string)

  function Swap(t: Trainer, gives: string, gets: string): Trainer {
    t.(captured := t.captured - multiset{gives} + multiset{gets})
  }

  ghost predicate CanSwap(team: seq<Trainer>, h: Half) {
    h.who < |team| && h.gives in team[h.who].captured
  }

  function Apply(team: seq<Trainer>, h: Half): (r: seq<Trainer>)
    requires h.who < |team|
    ensures |r| == |team|
  {
    team[h.who := Swap(team[h.who], h.gives, h.gets)]
  }

  lemma SwapNeed(t: Trainer, gives: string, gets: string)
    requires gives in Surplus(t)
    ensures Need(Swap(t, gives, gets)) == (if gets in Need(t) then Need(t) - multiset{gets} else Need(t))
  {
    var u := Swap(t, gives, gets);
    forall x ensures Need(u)[x] == (if gets in Need(t) then Need(t) - multiset{gets} else Need(t))[x] {
      assert u.captured[x] == t.captured[x] - (if x == gives then 1 else 0) + (if x == gets then 1 else 0);
    }
  }

  /** Giving away something to spare never makes a trainer lack more; receiving something it
      lacks makes it lack exactly that one less. */
  lemma SwapLowers(t: Trainer, gives: string, gets: string)
    requires gives in Surplus(t)
    ensures var u := Swap(t, gives, gets);
      && |u.captured| == |t.captured|
      && Need(u) == (if gets in Need(t) then Need(t) - multiset{gets} else Need(t))
      && Deficit(u) == (if gets in Need(t) then Deficit(t) - 1 else Deficit(t))
  {
    SwapNeed(t, gives, gets);
    assert gives in t.captured;
  }

  /** An exchange: mover and waiter are positions in the team. */
  datatype Exchange = Exchange(mover: nat, waiter: nat, moverGets: string, waiterGets: string)

  function MoverHalf(e: Exchange): Half { Half(e.mover, e.waiterGets, e.moverGets) }

  function WaiterHalf(e: Exchange): Half { Half(e.waiter, e.moverGets, e.waiterGets) }

  /** What buscarPokemonQueNecesitoEnElOtro may answer: something needed if there is any, and
      otherwise something the other one has to spare. */
  ghost predicate MayPick(who: Trainer, giver: Trainer, s: string) {
    s in Surplus(giver) && (s in Need(who) || Need(who) * Surplus(giver) == multiset{})
  }

  ghost predicate Useful(team: seq<Trainer>, e: Exchange) {
    && Helps(team, e.mover, e.waiter)
    && MayPick(team[e.mover], team[e.waiter], e.moverGets)
    && MayPick(team[e.waiter], team[e.mover], e.waiterGets)
  }

  function Execute(team: seq<Trainer>, e: Exchange): (r: seq<Trainer>)
    requires e.mover < |team| && e.waiter < |team|
    ensures |r| == |team|
  {
    Apply(Apply(team, MoverHalf(e)), WaiterHalf(e))
  }

  lemma {:induction false} DeficitAt(team: seq<Trainer>, other: seq<Trainer>, n: nat, i: nat)
    requires n <= |team| == |other| && i < n && forall j :: 0 <= j < n && j != i ==> other[j] == team[j]
    ensures TotalDeficit(other, n) == TotalDeficit(team, n) - Deficit(team[i]) + Deficit(other[i])
    decreases n
  {
    if i == n - 1 { DeficitSame(team, other, n - 1); } else { DeficitAt(team, other, n - 1, i); }
  }

  lemma {:induction false} DeficitSame(team: seq<Trainer>, other: seq<Trainer>, n: nat)
    requires n <= |team| == |other| && forall j :: 0 <= j < n ==> other[j] == team[j]
    ensures TotalDeficit(other, n) == TotalDeficit(team, n)
    ensures CapturedBy(other, n) == CapturedBy(team, n)
  {
    if n > 0 { DeficitSame(team, other, n - 1); }
  }

  lemma {:induction false} CapturedAt(team: seq<Trainer>, other: seq<Trainer>, n: nat, i: nat)
    requires n <= |team| == |other| && i < n && forall j :: 0 <= j < n && j != i ==> other[j] == team[j]
    ensures CapturedBy(other, n) + team[i].captured == CapturedBy(team, n) + other[i].captured
    decreases n
  {
    if i == n - 1 {
      DeficitSame(team, other, n - 1);
      Rearranged(CapturedBy(team, n - 1), other[i].captured, team[i].captured);
    } else {
      CapturedAt(team, other, n - 1, i);
      Rearranged(CapturedBy(other, n - 1), team[n - 1].captured, team[i].captured);
      Rearranged(CapturedBy(team, n - 1), team[n - 1].captured, other[i].captured);
    }
  }

  lemma Rearranged(a: multiset<string>, b: multiset<string>, c: multiset<string>)
    ensures a + b + c == a + c + b
  {
  }

  lemma {:induction false} SameGoals(team: seq<Trainer>, other: seq<Trainer>, n: nat)
    requires n <= |team| == |other| && forall j :: 0 <= j < n ==> other[j].goal == team[j].goal
    ensures WantedBy(other, n) == WantedBy(team, n)
  {
    if n > 0 { SameGoals(team, other, n - 1); }
  }

  /** Where the two sides of an exchange end up. */
  lemma SidesPlaced(team: seq<Trainer>, e: Exchange)
    requires e.mover < |team| && e.waiter < |team| && e.mover != e.waiter
    ensures forall i :: 0 <= i < |team| && i != e.mover && i != e.waiter ==> Execute(team, e)[i] == team[i]
    ensures forall i :: 0 <= i < |team| ==> Execute(team, e)[i].goal == team[i].goal
    ensures Execute(team, e)[e.mover] == Swap(team[e.mover], e.waiterGets, e.moverGets)
    ensures Execute(team, e)[e.waiter] == Swap(team[e.waiter], e.moverGets, e.waiterGets)
    ensures Apply(team, MoverHalf(e))[e.waiter] == team[e.waiter]
  {
  }

  /** The sides of a useful exchange: each trainer can give what it gives, keeps its total,
      and its deficit does not grow; the mover's shrinks. */
  lemma SidesHelp(team: seq<Trainer>, e: Exchange)
    requires Useful(team, e)
    ensures e.mover < |team| && e.waiter < |team| && e.mover != e.waiter
    ensures var m, w := team[e.mover], team[e.waiter];
      var m', w' := Swap(m, e.waiterGets, e.moverGets), Swap(w, e.moverGets, e.waiterGets);
      && e.waiterGets in m.captured && e.moverGets in w.captured
      && |m'.captured| == |m.captured| && |w'.captured| == |w.captured|
      && Deficit(m') == Deficit(m) - 1 && Deficit(w) - 1 <= Deficit(w') <= Deficit(w)
  {
    SwapLowers(team[e.mover], e.waiterGets, e.moverGets);
    SwapLowers(team[e.waiter], e.moverGets, e.waiterGets);
    hide Swap, Deficit;
  }

  lemma TeamConserved(team: seq<Trainer>, e: Exchange)
    requires Useful(team, e)
    ensures CapturedBy(Execute(team, e), |team|) == CapturedBy(team, |team|)
    ensures WantedBy(Execute(team, e), |team|) == WantedBy(team, |team|)
  {
    var n, m, w := |team|, e.mover, e.waiter;
    var half, done := Apply(team, MoverHalf(e)), Execute(team, e);
    SidesHelp(team, e);
    SidesPlaced(team, e);
    CapturedAt(team, half, n, m);
    CapturedAt(half, done, n, w);
    SameGoals(team, done, n);
    Conserved(team[m].captured, team[w].captured, e.waiterGets, e.moverGets,
              CapturedBy(team, n), CapturedBy(half, n), CapturedBy(done, n));
  }

  /** A useful exchange can be carried out, keeps the team's Pokemon and everybody's total,
      raises nobody's deficit, and lowers the team's by one or two. */
  lemma ExchangeHelps(team: seq<Trainer>, e: Exchange)
    requires Balanced(team) && Useful(team, e)
    ensures CanSwap(team, MoverHalf(e)) && CanSwap(Apply(team, MoverHalf(e)), WaiterHalf(e))
    ensures Balanced(Execute(team, e))
    ensures forall i :: 0 <= i < |team| ==> Deficit(Execute(team, e)[i]) <= Deficit(team[i])
    ensures Deficit(Execute(team, e)[e.mover]) < Deficit(team[e.mover])
    ensures TotalDeficit(team, |team|) - 2 <= TotalDeficit(Execute(team, e), |team|) < TotalDeficit(team, |team|)
  {
    hide Useful, Swap, Deficit, CapturedBy, WantedBy, TotalDeficit, Execute;
    SidesHelp(team, e);
    SidesPlaced(team, e);
    TeamConserved(team, e);
    var half, done := Apply(team, MoverHalf(e)), Execute(team, e);
    DeficitAt(team, half, |team|, e.mover);
    assert done == Apply(half, WaiterHalf(e)) by { ExecuteIs(team, e); }
    DeficitAt(half, done, |team|, e.waiter);
  }

  lemma ExecuteIs(team: seq<Trainer>, e: Exchange)
    requires e.mover < |team| && e.waiter < |team|
    ensures Execute(team, e) == Apply(Apply(team, MoverHalf(e)), WaiterHalf(e))
  {
  }

  lemma Conserved(a: multiset<string>, b: multiset<string>, x: string, y: string,
                  t0: multiset<string>, t1: multiset<string>, t2: multiset<string>)
    requires x in a && y in b
    requires t1 + a == t0 + (a - multiset{x} + multiset{y})
    requires t2 + b == t1 + (b - multiset{y} + multiset{x})
    ensures t2 == t0
  {
    forall s ensures t2[s] == t0[s] {
      assert (t1 + a)[s] == (t0 + (a - multiset{x} + multiset{y}))[s];
      assert (t2 + b)[s] == (t1 + (b - multiset{y} + multiset{x}))[s];
    }
  }

  // ---- A round ----

  /** No trainer takes part in two of the exchanges. */
  ghost predicate Disjoint(es: seq<Exchange>) {
    forall i, j :: 0 <= i < j < |es| ==>
      && es[i].mover != es[j].mover && es[i].mover != es[j].waiter
      && es[i].waiter != es[j].mover && es[i].waiter != es[j].waiter
  }

  ghost predicate InTeam(size: nat, es: seq<Exchange>) {
    forall k :: 0 <= k < |es| ==> es[k].mover < size && es[k].waiter < size
  }

  ghost function ExecuteAll(team: seq<Trainer>, es: seq<Exchange>, n: nat): (r: seq<Trainer>)
    requires n <= |es| && InTeam(|team|, es)
    ensures |r| == |team|
  {
    if n == 0 then team else Execute(ExecuteAll(team, es, n - 1), es[n - 1])
  }

  /** Earlier exchanges of a round leave the trainers of a later one as they were. */
  lemma {:induction false} Untouched(team: seq<Trainer>, es: seq<Exchange>, n: nat, i: nat)
    requires n <= |es| && InTeam(|team|, es)
    requires i < |team| && forall k :: 0 <= k < n ==> es[k].mover != i && es[k].waiter != i
    ensures ExecuteAll(team, es, n)[i] == team[i]
  {
    if n > 0 { Untouched(team, es, n - 1, i); }
  }

  lemma StillUseful(team: seq<Trainer>, es: seq<Exchange>, n: nat)
    requires Disjoint(es) && n < |es| && InTeam(|team|, es) && Useful(team, es[n])
    ensures Useful(ExecuteAll(team, es, n), es[n])
  {
    Untouched(team, es, n, es[n].mover);
    Untouched(team, es, n, es[n].waiter);
  }

  /** A round of disjoint useful exchanges: each lowers the deficit in its turn. */
  lemma {:induction false} RoundHelps(team: seq<Trainer>, es: seq<Exchange>, n: nat)
    requires Balanced(team) && Disjoint(es) && n <= |es| && InTeam(|team|, es)
    requires forall k :: 0 <= k < |es| ==> Useful(team, es[k])
    ensures Balanced(ExecuteAll(team, es, n))
    ensures TotalDeficit(ExecuteAll(team, es, n), |team|) + n <= TotalDeficit(team, |team|)
    ensures forall i :: 0 <= i < |team| ==> Deficit(ExecuteAll(team, es, n)[i]) <= Deficit(team[i])
  {
    hide Useful, Balanced, TotalDeficit, Deficit, Execute;
    if n > 0 {
      RoundHelps(team, es, n - 1);
      StillUseful(team, es, n - 1);
      ExchangeHelps(ExecuteAll(team, es, n - 1), es[n - 1]);
    }
  }

  // ---- In whatever order ----

  /** The sides of a round's exchanges, each a step of its own. */
  ghost predicate DistinctWho(hs: seq<Half>) {
    forall i, j :: 0 <= i < j < |hs| ==> hs[i].who != hs[j].who
  }

  ghost predicate WhoIn(size: nat, hs: seq<Half>) {
    forall k :: 0 <= k < |hs| ==> hs[k].who < size
  }

  ghost function ApplyAll(team: seq<Trainer>, hs: seq<Half>, n: nat): (r: seq<Trainer>)
    requires n <= |hs| && WhoIn(|team|, hs)
    ensures |r| == |team|
  {
    if n == 0 then team else Apply(ApplyAll(team, hs, n - 1), hs[n - 1])
  }

  lemma {:induction false} Outcome(team: seq<Trainer>, hs: seq<Half>, n: nat, i: nat)
    requires DistinctWho(hs) && n <= |hs| && i < |team| && WhoIn(|team|, hs)
    ensures forall k :: 0 <= k < n && hs[k].who == i ==>
      ApplyAll(team, hs, n)[i] == Swap(team[i], hs[k].gives, hs[k].gets)
    ensures (forall k :: 0 <= k < n ==> hs[k].who != i) ==> ApplyAll(team, hs, n)[i] == team[i]
  {
    hide Swap;
    if n > 0 { Outcome(team, hs, n - 1, i); }
  }

  lemma SameOutcome(team: seq<Trainer>, hs: seq<Half>, gs: seq<Half>, i: nat)
    requires DistinctWho(hs) && DistinctWho(gs) && WhoIn(|team|, hs) && WhoIn(|team|, gs)
    requires i < |team| && forall h :: h in hs <==> h in gs
    ensures ApplyAll(team, hs, |hs|)[i] == ApplyAll(team, gs, |gs|)[i]
  {
    hide Swap, DistinctWho, ApplyAll;
    Outcome(team, hs, |hs|, i);
    Outcome(team, gs, |gs|, i);
    if k :| 0 <= k < |hs| && hs[k].who == i {
      assert hs[k] in gs;
      var l :| 0 <= l < |gs| && gs[l] == hs[k];
    } else {
      forall k | 0 <= k < |gs| ensures gs[k].who != i { assert gs[k] in hs; }
    }
  }

  /** However the sides of a round's exchanges are interleaved, each can still be carried out
      when its turn comes, and the outcome is the same. */
  lemma OrderIrrelevant(team: seq<Trainer>, hs: seq<Half>, gs: seq<Half>)
    requires DistinctWho(hs) && DistinctWho(gs) && WhoIn(|team|, hs) && WhoIn(|team|, gs)
    requires forall h :: h in hs <==> h in gs
    requires forall k :: 0 <= k < |hs| ==> CanSwap(team, hs[k])
    ensures forall k :: 0 <= k < |gs| ==> CanSwap(ApplyAll(team, gs, k), gs[k])
    ensures ApplyAll(team, hs, |hs|) == ApplyAll(team, gs, |gs|)
  {
    hide *;
    TurnsCome(team, hs, gs);
    SameEnd(team, hs, gs);
  }

  lemma TurnsCome(team: seq<Trainer>, hs: seq<Half>, gs: seq<Half>)
    requires DistinctWho(gs) && WhoIn(|team|, gs) && forall h :: h in gs ==> h in hs
    requires WhoIn(|team|, hs) && forall k :: 0 <= k < |hs| ==> CanSwap(team, hs[k])
    ensures forall k :: 0 <= k < |gs| ==> CanSwap(ApplyAll(team, gs, k), gs[k])
  {
    forall k | 0 <= k < |gs| ensures CanSwap(ApplyAll(team, gs, k), gs[k]) {
      hide *;
      assert gs[k] in hs;
      TurnComes(team, gs, k);
    }
  }

  lemma SameEnd(team: seq<Trainer>, hs: seq<Half>, gs: seq<Half>)
    requires DistinctWho(hs) && DistinctWho(gs) && WhoIn(|team|, hs) && WhoIn(|team|, gs)
    requires forall h :: h in hs <==> h in gs
    ensures ApplyAll(team, hs, |hs|) == ApplyAll(team, gs, |gs|)
  {
    hide *;
    forall i | 0 <= i < |team| ensures ApplyAll(team, hs, |hs|)[i] == ApplyAll(team, gs, |gs|)[i] {
      SameOutcome(team, hs, gs, i);
    }
  }

  lemma TurnComes(team: seq<Trainer>, gs: seq<Half>, k: nat)
    requires DistinctWho(gs) && WhoIn(|team|, gs) && k < |gs| && CanSwap(team, gs[k])
    ensures CanSwap(ApplyAll(team, gs, k), gs[k])
  {
    hide Swap, ApplyAll, Apply;
    NotYet(gs, k);
    Outcome(team, gs, k, gs[k].who);
  }

  lemma NotYet(hs: seq<Half>, k: nat)
    requires DistinctWho(hs) && k < |hs|
    ensures forall l :: 0 <= l < k ==> hs[l].who != hs[k].who
  {
  }

  /** The sides of the exchanges, in the order in which the code would run them one by one. */
  function Sides(es: seq<Exchange>): (hs: seq<Half>)
    ensures |hs| == 2 * |es|
    ensures forall k :: 0 <= k < |hs| ==> hs[k] == if k % 2 == 0 then MoverHalf(es[k / 2]) else WaiterHalf(es[k / 2])
  {
    seq(2 * |es|, k requires 0 <= k < 2 * |es| => if k % 2 == 0 then MoverHalf(es[k / 2]) else WaiterHalf(es[k / 2]))
  }

  lemma SideOf(es: seq<Exchange>, k: nat)
    requires k < |es|
    ensures Sides(es)[2 * k] == MoverHalf(es[k]) && Sides(es)[2 * k + 1] == WaiterHalf(es[k])
  {
    assert (2 * k) / 2 == k && (2 * k + 1) / 2 == k;
  }

  lemma SidesDistinct(team: seq<Trainer>, es: seq<Exchange>)
    requires Disjoint(es) && InTeam(|team|, es) && forall k :: 0 <= k < |es| ==> Useful(team, es[k])
    ensures DistinctWho(Sides(es)) && WhoIn(|team|, Sides(es))
    ensures forall k :: 0 <= k < |Sides(es)| ==> CanSwap(team, Sides(es)[k])
  {
    hide Useful, Sides, Swap, Deficit;
    var hs := Sides(es);
    forall k | 0 <= k < |hs| ensures hs[k].who < |team| && CanSwap(team, hs[k]) { SideFits(team, es[k / 2]); }
    forall i, j | 0 <= i < j < |hs| ensures hs[i].who != hs[j].who {
      SideFits(team, es[i / 2]);
      assert i / 2 <= j / 2;
      if i / 2 == j / 2 { assert i % 2 == 0 && j % 2 == 1; }
    }
  }

  lemma SideFits(team: seq<Trainer>, e: Exchange)
    requires Useful(team, e)
    ensures e.mover < |team| && e.waiter < |team| && e.mover != e.waiter
    ensures CanSwap(team, MoverHalf(e)) && CanSwap(team, WaiterHalf(e))
  {
    SidesHelp(team, e);
  }

  lemma {:induction false} SidesAreExchanges(team: seq<Trainer>, es: seq<Exchange>, n: nat)
    requires n <= |es| && InTeam(|team|, es) && WhoIn(|team|, Sides(es))
    ensures ApplyAll(team, Sides(es), 2 * n) == ExecuteAll(team, es, n)
  {
    hide Sides, Apply;
    if n > 0 {
      SidesAreExchanges(team, es, n - 1);
      SideOf(es, n - 1);
      var hs, m := Sides(es), 2 * (n - 1);
      assert ApplyAll(team, hs, m + 1) == Apply(ApplyAll(team, hs, m), hs[m]);
      assert ApplyAll(team, hs, m + 2) == Apply(ApplyAll(team, hs, m + 1), hs[m + 1]);
    }
  }

  /** Any interleaving of the sides of one round's exchanges can be carried out and ends like
      running the exchanges one after the other. */
  lemma AnyInterleaving(team: seq<Trainer>, es: seq<Exchange>, gs: seq<Half>)
    requires Disjoint(es) && InTeam(|team|, es) && forall k :: 0 <= k < |es| ==> Useful(team, es[k])
    requires DistinctWho(gs) && WhoIn(|team|, gs) && forall h :: h in Sides(es) <==> h in gs
    ensures forall k :: 0 <= k < |gs| ==> CanSwap(ApplyAll(team, gs, k), gs[k])
    ensures ApplyAll(team, gs, |gs|) == ExecuteAll(team, es, |es|)
  {
    hide Useful, DistinctWho, CanSwap, ApplyAll, ExecuteAll, Sides;
    SidesDistinct(team, es);
    OrderIrrelevant(team, Sides(es), gs);
    SidesAreExchanges(team, es, |es|);
  }

  // ---- The dependencies of a team ----

  /** A dependency record: a trainer's name and the names of those who can help it. */
  datatype Dependency = Dependency(name: string, on: seq<string>)

  /** The names, in order, of the trainers below n who can help trainer a. */
  ghost function HelperNames(team: seq<Trainer>, a: nat, n: nat): seq<string>
    requires a < |team| && n <= |team|
  {
    if n == 0 then []
    else HelperNames(team, a, n - 1) + (if Helps(team, a, n - 1) then [team[n - 1].id] else [])
  }

  /** What crearListaDeDependencias lists for the first n trainers. */
  ghost function Dependencies(team: seq<Trainer>, n: nat): seq<Dependency>
    requires n <= |team|
  {
    if n == 0 then []
    else
      var on := HelperNames(team, n - 1, |team|);
      Dependencies(team, n - 1) + (if on == [] then [] else [Dependency(team[n - 1].id, on)])
  }

  lemma {:induction false} HelperNamesMean(team: seq<Trainer>, a: nat, n: nat)
    requires a < |team| && n <= |team|
    ensures forall x :: x in HelperNames(team, a, n) ==> exists b :: 0 <= b < n && Helps(team, a, b) && team[b].id == x
    ensures forall b :: 0 <= b < n && Helps(team, a, b) ==> team[b].id in HelperNames(team, a, n)
  {
    if n > 0 { HelperNamesMean(team, a, n - 1); }
  }

  /** The positions of the trainers below n who can help trainer a. */
  ghost function Helpers(team: seq<Trainer>, a: nat, n: nat): seq<nat>
    requires a < |team| && n <= |team|
  {
    if n == 0 then [] else Helpers(team, a, n - 1) + (if Helps(team, a, n - 1) then [n - 1] else [])
  }

  ghost predicate Ascending(positions: seq<nat>) {
    forall j, k :: 0 <= j < k < |positions| ==> positions[j] < positions[k]
  }

  lemma {:induction false} HelpersAre(team: seq<Trainer>, a: nat, n: nat)
    requires a < |team| && n <= |team|
    ensures Ascending(Helpers(team, a, n)) && forall k :: 0 <= k < |Helpers(team, a, n)| ==> Helpers(team, a, n)[k] < n
    ensures |HelperNames(team, a, n)| == |Helpers(team, a, n)|
    ensures forall k :: 0 <= k < |Helpers(team, a, n)| ==>
      Helps(team, a, Helpers(team, a, n)[k]) && team[Helpers(team, a, n)[k]].id == HelperNames(team, a, n)[k]
    ensures forall b :: 0 <= b < n && Helps(team, a, b) ==> b in Helpers(team, a, n)
  {
    if n > 0 {
      hide Helps;
      HelpersAre(team, a, n - 1);
    }
  }

  /** The positions of the trainers below n whom someone can help. */
  ghost function Needy(team: seq<Trainer>, n: nat): seq<nat>
    requires n <= |team|
  {
    if n == 0 then [] else Needy(team, n - 1) + (if HelperNames(team, n - 1, |team|) == [] then [] else [n - 1])
  }

  lemma {:induction false} NeedyAscend(team: seq<Trainer>, n: nat)
    requires n <= |team|
    ensures Ascending(Needy(team, n)) && forall k :: 0 <= k < |Needy(team, n)| ==> Needy(team, n)[k] < n
  {
    if n > 0 {
      hide HelperNames;
      NeedyAscend(team, n - 1);
    }
  }

  lemma NeedyRecords(team: seq<Trainer>, n: nat)
    requires n <= |team|
    ensures |Dependencies(team, n)| == |Needy(team, n)|
    ensures forall k :: 0 <= k < |Needy(team, n)| ==> RecordOf(team, Dependencies(team, n)[k], Needy(team, n)[k])
  {
    hide *;
    AsManyRecords(team, n);
    forall k | 0 <= k < |Needy(team, n)| ensures RecordOf(team, Dependencies(team, n)[k], Needy(team, n)[k]) {
      NeedyRecord(team, n, k);
    }
  }

  lemma {:induction false} AsManyRecords(team: seq<Trainer>, n: nat)
    requires n <= |team|
    ensures |Dependencies(team, n)| == |Needy(team, n)|
  {
    hide HelperNames;
    if n > 0 { AsManyRecords(team, n - 1); }
  }

  lemma {:induction false} NeedyRecord(team: seq<Trainer>, n: nat, k: nat)
    requires n <= |team| && k < |Needy(team, n)| == |Dependencies(team, n)|
    ensures RecordOf(team, Dependencies(team, n)[k], Needy(team, n)[k])
  {
    hide HelperNames, RecordOf;
    AsManyRecords(team, n - 1);
    if k < |Needy(team, n - 1)| {
      NeedyRecord(team, n - 1, k);
    } else {
      OwnRecord(team, Dependencies(team, n)[k], n - 1);
    }
  }

  lemma AllAreNeedy(team: seq<Trainer>, n: nat)
    requires n <= |team|
    ensures forall a :: 0 <= a < n && HelperNames(team, a, |team|) != [] ==> a in Needy(team, n)
  {
    hide *;
    forall a | 0 <= a < n && HelperNames(team, a, |team|) != [] ensures a in Needy(team, n) { IsNeedy(team, a, n); }
  }

  lemma {:induction false} IsNeedy(team: seq<Trainer>, a: nat, n: nat)
    requires a < n <= |team| && HelperNames(team, a, |team|) != []
    ensures a in Needy(team, n)
  {
    hide HelperNames;
    if a < n - 1 { IsNeedy(team, a, n - 1); }
  }

  /** A record's name is a trainer's, and it lists exactly that trainer's helpers. */
  ghost predicate RecordOf(team: seq<Trainer>, d: Dependency, a: nat) {
    a < |team| && d == Dependency(team[a].id, HelperNames(team, a, |team|)) && d.on != []
  }

  lemma DependenciesMean(team: seq<Trainer>, n: nat)
    requires n <= |team|
    ensures forall d :: d in Dependencies(team, n) ==> exists a: nat :: RecordOf(team, d, a)
    ensures forall a :: 0 <= a < n && HelperNames(team, a, |team|) != [] ==>
      Dependency(team[a].id, HelperNames(team, a, |team|)) in Dependencies(team, n)
  {
    hide *;
    AllAreRecords(team, n);
    AllAreListed(team, n);
  }

  lemma {:induction false} AllAreRecords(team: seq<Trainer>, n: nat)
    requires n <= |team|
    ensures forall d :: d in Dependencies(team, n) ==> exists a: nat :: RecordOf(team, d, a)
  {
    if n > 0 {
      hide HelperNames, RecordOf;
      AllAreRecords(team, n - 1);
      var on := HelperNames(team, n - 1, |team|);
      if on != [] { OwnRecord(team, Dependency(team[n - 1].id, on), n - 1); }
    }
  }

  lemma AllAreListed(team: seq<Trainer>, n: nat)
    requires n <= |team|
    ensures forall a :: 0 <= a < n && HelperNames(team, a, |team|) != [] ==>
      Dependency(team[a].id, HelperNames(team, a, |team|)) in Dependencies(team, n)
  {
    forall a | 0 <= a < n && HelperNames(team, a, |team|) != []
      ensures Dependency(team[a].id, HelperNames(team, a, |team|)) in Dependencies(team, n)
    {
      hide *;
      IsListed(team, a, n);
    }
  }

  lemma {:induction false} IsListed(team: seq<Trainer>, a: nat, n: nat)
    requires a < n <= |team| && HelperNames(team, a, |team|) != []
    ensures Dependency(team[a].id, HelperNames(team, a, |team|)) in Dependencies(team, n)
  {
    hide HelperNames;
    if a < n - 1 { IsListed(team, a, n - 1); }
  }

  lemma OwnRecord(team: seq<Trainer>, d: Dependency, a: nat)
    requires a < |team| && d == Dependency(team[a].id, HelperNames(team, a, |team|)) && d.on != []
    ensures RecordOf(team, d, a)
  {
  }

  // ---- Trainers who are done ----

  /** The trainers below n who have not reached their goal. */
  function Unfinished(team: seq<Trainer>, n: nat): seq<Trainer>
    requires n <= |team|
  {
    if n == 0 then []
    else Unfinished(team, n - 1) + (if team[n - 1].captured == team[n - 1].goal then [] else [team[n - 1]])
  }

  lemma {:induction false} SumsSnoc(team: seq<Trainer>, t: Trainer)
    ensures CapturedBy(team + [t], |team| + 1) == CapturedBy(team, |team|) + t.captured
    ensures WantedBy(team + [t], |team| + 1) == WantedBy(team, |team|) + t.goal
    ensures TotalDeficit(team + [t], |team| + 1) == TotalDeficit(team, |team|) + Deficit(t)
  {
    SamePrefix(team, team + [t], |team|);
  }

  lemma {:induction false} SamePrefix(team: seq<Trainer>, other: seq<Trainer>, n: nat)
    requires n <= |team| <= |other| && forall j :: 0 <= j < n ==> other[j] == team[j]
    ensures CapturedBy(other, n) == CapturedBy(team, n) && WantedBy(other, n) == WantedBy(team, n)
    ensures TotalDeficit(other, n) == TotalDeficit(team, n)
  {
    if n > 0 { SamePrefix(team, other, n - 1); }
  }

  /** u lacks as much as the first n of the team, and the two differ from balance equally. */
  ghost predicate SameBalance(team: seq<Trainer>, n: nat, u: seq<Trainer>)
    requires n <= |team|
  {
    && CapturedBy(team, n) + WantedBy(u, |u|) == WantedBy(team, n) + CapturedBy(u, |u|)
    && TotalDeficit(u, |u|) == TotalDeficit(team, n)
  }

  /** Those who are done contribute the same to both sides of the balance. */
  lemma {:induction false} UnfinishedSums(team: seq<Trainer>, n: nat)
    requires n <= |team|
    ensures SameBalance(team, n, Unfinished(team, n))
  {
    if n > 0 {
      hide SameBalance;
      UnfinishedSums(team, n - 1);
      if team[n - 1].captured == team[n - 1].goal {
        OneDone(team, n, Unfinished(team, n - 1));
        assert Unfinished(team, n) == Unfinished(team, n - 1);
      } else {
        OneLeft(team, n, Unfinished(team, n - 1));
      }
    }
  }

  lemma OneDone(team: seq<Trainer>, n: nat, u: seq<Trainer>)
    requires 0 < n <= |team| && team[n - 1].captured == team[n - 1].goal && SameBalance(team, n - 1, u)
    ensures SameBalance(team, n, u)
  {
    var t := team[n - 1];
    assert Need(t) == multiset{};
    BothSides(CapturedBy(team, n - 1), WantedBy(u, |u|), WantedBy(team, n - 1), CapturedBy(u, |u|), t.captured, t.goal);
  }

  lemma OneLeft(team: seq<Trainer>, n: nat, u: seq<Trainer>)
    requires 0 < n <= |team| && SameBalance(team, n - 1, u)
    ensures SameBalance(team, n, u + [team[n - 1]])
  {
    var t := team[n - 1];
    SumsSnoc(u, t);
    BothSides(CapturedBy(team, n - 1), WantedBy(u, |u|), WantedBy(team, n - 1), CapturedBy(u, |u|), t.captured, t.goal);
  }

  lemma BothSides(a: multiset<string>, b: multiset<string>, c: multiset<string>, d: multiset<string>,
                  x: multiset<string>, y: multiset<string>)
    requires a + b == c + d
    ensures (a + x) + (b + y) == (c + y) + (d + x)
    ensures x == y ==> (a + x) + b == (c + y) + d
  {
    assert (a + x) + (b + y) == (a + b) + (x + y);
    assert (c + y) + (d + x) == (c + d) + (x + y);
    assert (a + x) + b == (a + b) + x;
    assert (c + y) + d == (c + d) + y;
  }

  lemma {:induction false} UnfinishedFrom(team: seq<Trainer>, n: nat)
    requires n <= |team| && DistinctNames(team)
    ensures var u := Unfinished(team, n);
      && (forall k :: 0 <= k < |u| ==> exists i :: 0 <= i < n && team[i] == u[k])
      && DistinctNames(u)
  {
    if n > 0 { UnfinishedFrom(team, n - 1); }
  }

  /** Leaving out those who are done keeps the team balanced. */
  lemma UnfinishedBalanced(team: seq<Trainer>)
    requires Balanced(team) && DistinctNames(team)
    ensures var u := Unfinished(team, |team|);
      Balanced(u) && DistinctNames(u) && TotalDeficit(u, |u|) == TotalDeficit(team, |team|)
  {
    var n, u := |team|, Unfinished(team, |team|);
    UnfinishedSums(team, n);
    UnfinishedFrom(team, n);
    forall x ensures CapturedBy(u, |u|)[x] == WantedBy(u, |u|)[x] {
      assert (CapturedBy(team, n) + WantedBy(u, |u|))[x] == (WantedBy(team, n) + CapturedBy(u, |u|))[x];
    }
    forall k | 0 <= k < |u| ensures |u[k].captured| == |u[k].goal| {
      var i :| 0 <= i < n && team[i] == u[k];
    }
  }
}
