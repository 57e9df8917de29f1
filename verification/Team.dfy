/** Trainers as objects and the deadlock service over them
    (team/src/modelo/equipo/entrenador/Entrenador.c, libs/.../ExtensionColecciones.c,
    team/.../ServicioDeResolucionDeDeadlocks.c). */
module Team {
  import opened Exchanges

  // ---- Lists of names ----

  method Contains(list: seq<string>, elem: string) returns (found: bool)
    ensures found <==> elem in list
  {
    found := false;
    for i := 0 to |list|
      invariant found <==> elem in list[..i]
    {
      if list[i] == elem { found := true; }
    }
    assert list[..|list|] == list;
  }

  function Removed(s: seq<string>, i: nat): seq<string>
    requires i < |s|
  {
    s[..i] + s[i + 1..]
  }

  /** The nested loops of restarPrimerListaASegunda up to their first match. */
  method FirstMatch(a: seq<string>, b: seq<string>) returns (found: bool, i: nat, j: nat)
    ensures found ==> i < |a| && j < |b| && a[i] == b[j]
    ensures !found ==> forall x :: x in a ==> x !in b
  {
    found, i, j := false, 0, 0;
    while i < |a|
      invariant i <= |a| && forall k :: 0 <= k < i ==> a[k] !in b
    {
      j := 0;
      while j < |b|
        invariant j <= |b| && forall l :: 0 <= l < j ==> a[i] != b[l]
      {
        if a[i] == b[j] { found := true; return; }
        j := j + 1;
      }
      i := i + 1;
    }
  }

  /** restarPrimerListaASegunda: matching pairs are removed from both lists until none is left;
      what remains of the first is the difference of the two as multisets. */
  method Subtract(list1: seq<string>, list2: seq<string>) returns (rest: seq<string>)
    ensures multiset(rest) == multiset(list1) - multiset(list2)
  {
    var a, b := list1, list2;
    var found: bool, i: nat, j: nat := FirstMatch(a, b);
    while found
      invariant found ==> i < |a| && j < |b| && a[i] == b[j]
      invariant !found ==> forall x :: x in a ==> x !in b
      invariant multiset(a) - multiset(b) == multiset(list1) - multiset(list2)
      decreases |a|, found
    {
      BothRemoved(a, i, b, j);
      a, b := Removed(a, i), Removed(b, j);
      found, i, j := FirstMatch(a, b);
    }
    rest := a;
    NothingShared(a, b);
  }

  lemma BothRemoved(a: seq<string>, i: nat, b: seq<string>, j: nat)
    requires i < |a| && j < |b| && a[i] == b[j]
    ensures multiset(Removed(a, i)) - multiset(Removed(b, j)) == multiset(a) - multiset(b)
    ensures |Removed(a, i)| < |a|
  {
    assert a == a[..i] + [a[i]] + a[i + 1..];
    assert b == b[..j] + [b[j]] + b[j + 1..];
  }

  lemma NothingShared(a: seq<string>, b: seq<string>)
    requires forall x :: x in a ==> x !in b
    ensures multiset(a) - multiset(b) == multiset(a)
  {
    forall x ensures (multiset(a) - multiset(b))[x] == multiset(a)[x] {
      if x in multiset(a) { assert x in a; }
    }
  }

  /** obtenerListaDePokemon: every species as often as it is counted, in whatever order the
      dictionary is walked. */
  method PokemonList(counter: multiset<string>) returns (list: seq<string>)
    ensures multiset(list) == counter
  {
    list := [];
    var rest := counter;
    while rest != multiset{}
      invariant multiset(list) + rest == counter
      decreases |rest|
    {
      var species :| species in rest;
      var left := rest[species];
      ghost var before := rest;
      while left > 0
        invariant rest[species] == left && multiset(list) + rest == counter
        invariant |rest| + before[species] == |before| + left
        decreases left
      {
        assert rest == rest - multiset{species} + multiset{species};
        list := list + [species];
        rest := rest - multiset{species};
        left := left - 1;
      }
    }
  }

  /** hayDependencias */
  method HaveCommon(captures: seq<string>, goals: seq<string>) returns (found: bool)
    ensures found <==> exists x :: x in captures && x in goals
  {
    var i, j;
    found, i, j := FirstMatch(goals, captures);
    if found { assert goals[i] in goals && captures[j] in captures; }
  }

  // ---- A trainer ----

  class Entrenador {
    const id: string
    const goal: multiset<string>
    var captured: multiset<string>
    var waiting: bool

    constructor (id: string, captured: multiset<string>, goal: multiset<string>)
      ensures Value() == Trainer(id, captured, goal) && !waiting
    {
      this.id, this.captured, this.goal, waiting := id, captured, goal, false;
    }

    ghost function Value(): Trainer
      reads this
    {
      Trainer(id, captured, goal)
    }

    /** tieneEspecieCapturada */
    method HasCaptured(species: string) returns (b: bool)
      ensures b <==> species in captured
    {
      b := species in captured;
    }

    /** quitarPokemon */
    method Remove(species: string)
      modifies this`captured
      ensures captured == old(captured) - multiset{species}
    {
      var has := HasCaptured(species);
      if has { captured := captured[species := captured[species] - 1]; }
    }

    /** registrarCaptura */
    method RecordCapture(species: string)
      modifies this`captured
      ensures captured == old(captured) + multiset{species}
    {
      captured := captured[species := captured[species] + 1];
    }

    /** reemplazarPokemonCapturadoPor */
    method Replace(previous: string, new_: string) returns (done: bool)
      modifies this`captured
      ensures done <==> previous in old(captured)
      ensures captured == if done then old(captured) - multiset{previous} + multiset{new_} else old(captured)
    {
      done := HasCaptured(previous);
      if done {
        Remove(previous);
        RecordCapture(new_);
      }
    }

    /** intercambiarPokemon: both sides are checked before anything changes. */
    method SwapWith(other: Entrenador, gives: string, gets: string) returns (done: bool)
      requires other != this
      modifies this`captured, other`captured
      ensures done <==> gives in old(captured) && gets in old(other.captured)
      ensures done ==> captured == old(captured) - multiset{gives} + multiset{gets}
      ensures done ==> other.captured == old(other.captured) - multiset{gets} + multiset{gives}
      ensures done ==> Value() == Swap(old(Value()), gives, gets)
      ensures done ==> other.Value() == Swap(old(other.Value()), gets, gives)
      ensures !done ==> captured == old(captured) && other.captured == old(other.captured)
    {
      var mine := HasCaptured(gives);
      var theirs := other.HasCaptured(gets);
      done := mine && theirs;
      if done {
        var a := Replace(gives, gets);
        var b := other.Replace(gets, gives);
      }
    }

    /** objetivoCompletado: every wanted species is captured exactly as often as wanted. */
    method ObjectiveCompleted() returns (completed: bool)
      ensures completed <==> forall x :: x in goal ==> captured[x] == goal[x]
      ensures |captured| == |goal| ==> (completed <==> captured == goal)
    {
      completed := true;
      var keys := goal;
      while completed && keys != multiset{}
        invariant keys <= goal
        invariant completed ==> forall x :: x in goal && x !in keys ==> captured[x] == goal[x]
        invariant !completed ==> exists x :: x in goal && captured[x] != goal[x]
        decreases completed, |keys|
      {
        var species :| species in keys;
        if captured[species] != goal[species] { completed := false; }
        keys := keys[species := 0];
      }
      if |captured| == |goal| { CompletedIsEqual(captured, goal); }
    }
  }

  lemma CompletedIsEqual(captured: multiset<string>, goal: multiset<string>)
    requires |captured| == |goal|
    ensures (forall x :: x in goal ==> captured[x] == goal[x]) <==> captured == goal
  {
    if forall x :: x in goal ==> captured[x] == goal[x] {
      assert goal <= captured;
      assert captured == goal + (captured - goal);
    }
  }

  ghost function Values(trainers: seq<Entrenador>): (r: seq<Trainer>)
    reads trainers
    ensures |r| == |trainers| && forall i :: 0 <= i < |trainers| ==> r[i] == trainers[i].Value()
  {
    seq(|trainers|, i requires 0 <= i < |trainers| reads trainers => trainers[i].Value())
  }

  // ---- Listing the dependencies ----

  method NeedList(t: Entrenador) returns (list: seq<string>)
    ensures multiset(list) == Need(t.Value())
  {
    var goals := PokemonList(t.goal);
    var captures := PokemonList(t.captured);
    list := Subtract(goals, captures);
  }

  method SurplusList(t: Entrenador) returns (list: seq<string>)
    ensures multiset(list) == Surplus(t.Value())
  {
    var captures := PokemonList(t.captured);
    var goals := PokemonList(t.goal);
    list := Subtract(captures, goals);
  }

  /** The inner loop of crearListaDeDependencias, for the trainer at index a. */
  method ListHelpers(trainers: seq<Entrenador>, a: nat, needed: seq<string>) returns (on: seq<string>)
    requires a < |trainers| && multiset(needed) == Need(trainers[a].Value())
    ensures on == HelperNames(Values(trainers), a, |trainers|)
  {
    hide Values, Need, Surplus;
    on := [];
    var b := 0;
    while b < |trainers|
      invariant b <= |trainers| && on == HelperNames(Values(trainers), a, b)
    {
      if a != b {
        var spare := SurplusList(trainers[b]);
        var helps := HaveCommon(spare, needed);
        CommonIsHelp(spare, needed, Values(trainers), a, b);
        if helps { on := on + [trainers[b].id]; }
      }
      b := b + 1;
    }
  }

  lemma CommonIsHelp(spare: seq<string>, needed: seq<string>, team: seq<Trainer>, a: nat, b: nat)
    requires a < |team| && b < |team| && a != b
    requires multiset(needed) == Need(team[a]) && multiset(spare) == Surplus(team[b])
    ensures (exists x :: x in spare && x in needed) <==> Helps(team, a, b)
  {
    if x :| x in spare && x in needed {
      assert x in multiset(spare) && x in multiset(needed);
      assert x in Need(team[a]) * Surplus(team[b]);
    }
    if Helps(team, a, b) {
      var x :| x in Need(team[a]) * Surplus(team[b]);
      assert x in multiset(spare) && x in multiset(needed);
      assert x in spare && x in needed;
    }
  }

  /** crearListaDeDependencias */
  method CreateDependencies(trainers: seq<Entrenador>) returns (deps: seq<Dependency>)
    ensures deps == Dependencies(Values(trainers), |trainers|)
  {
    hide Values, Need, HelperNames;
    deps := [];
    var a := 0;
    while a < |trainers|
      invariant a <= |trainers| && deps == Dependencies(Values(trainers), a)
    {
      var needed := NeedList(trainers[a]);
      if needed == [] {
        assert Need(trainers[a].Value()) == multiset{};
        NoNeedNoHelp(Values(trainers), a, |trainers|);
      } else {
        var on := ListHelpers(trainers, a, needed);
        if on != [] { deps := deps + [Dependency(trainers[a].id, on)]; }
      }
      a := a + 1;
    }
  }

  lemma {:induction false} NoNeedNoHelp(team: seq<Trainer>, a: nat, n: nat)
    requires a < |team| && n <= |team| && Need(team[a]) == multiset{}
    ensures HelperNames(team, a, n) == []
  {
    if n > 0 { NoNeedNoHelp(team, a, n - 1); }
  }

  // ---- Choosing exchanges ----

  datatype Intercambio = Intercambio(mover: Entrenador, waiter: Entrenador, moverGets: string, waiterGets: string)

  /** u has more of some species than it wants, and t fewer. */
  ghost predicate CanGive(u: Entrenador, t: Entrenador)
    reads t, u
  {
    exists s :: u.captured[s] > u.goal[s] && t.captured[s] < t.goal[s]
  }

  /** buscarPokemonQueNecesitoEnElOtro: the last match of the two loops, or the first thing the
      other one has to spare. */
  method Pick(who: Entrenador, giver: Entrenador) returns (species: string)
    requires Surplus(giver.Value()) != multiset{}
    ensures giver.captured[species] > giver.goal[species]
    ensures CanGive(giver, who) ==> who.captured[species] < who.goal[species]
    ensures MayPick(who.Value(), giver.Value(), species)
  {
    var needed := NeedList(who);
    var spare := SurplusList(giver);
    if spare == [] { assert false; }
    species := spare[0];
    var matched := false;
    for a := 0 to |needed|
      invariant species in spare && (matched ==> species in needed)
      invariant !matched ==> forall k :: 0 <= k < a ==> needed[k] !in spare
    {
      for b := 0 to |spare|
        invariant species in spare && (matched ==> species in needed)
        invariant !matched ==> forall k :: 0 <= k < a ==> needed[k] !in spare
        invariant !matched ==> forall l :: 0 <= l < b ==> needed[a] != spare[l]
      {
        if needed[a] == spare[b] { species, matched := needed[a], true; }
      }
    }
    PickIsAllowed(needed, spare, who.Value(), giver.Value(), species, matched);
    MayPickMeans(who, giver, species);
  }

  lemma MayPickMeans(who: Entrenador, giver: Entrenador, species: string)
    requires MayPick(who.Value(), giver.Value(), species)
    ensures giver.captured[species] > giver.goal[species]
    ensures CanGive(giver, who) ==> who.captured[species] < who.goal[species]
  {
    var w, g := who.Value(), giver.Value();
    if CanGive(giver, who) {
      var s :| giver.captured[s] > giver.goal[s] && who.captured[s] < who.goal[s];
      assert s in Need(w) * Surplus(g);
    }
  }

  lemma PickIsAllowed(needed: seq<string>, spare: seq<string>, who: Trainer, giver: Trainer, species: string,
                      matched: bool)
    requires multiset(needed) == Need(who) && multiset(spare) == Surplus(giver)
    requires species in spare && (matched ==> species in needed)
    requires !matched ==> forall x :: x in needed ==> x !in spare
    ensures MayPick(who, giver, species)
  {
    assert species in multiset(spare);
    if matched {
      assert species in multiset(needed);
    } else {
      DisjointLists(needed, spare);
    }
  }

  lemma DisjointLists(a: seq<string>, b: seq<string>)
    requires forall x :: x in a ==> x !in b
    ensures multiset(a) * multiset(b) == multiset{}
  {
    forall x ensures (multiset(a) * multiset(b))[x] == 0 {
      if x in multiset(a) { assert x in a; }
    }
  }

  /** recuperarReferencia */
  method FindByName(units: seq<Entrenador>, name: string) returns (t: Entrenador?)
    ensures t == null ==> forall u :: u in units ==> u.id != name
    ensures t != null ==> t in units && t.id == name
  {
    t := null;
    for a := 0 to |units|
      invariant t == null && forall k :: 0 <= k < a ==> units[k].id != name
    {
      if units[a].id == name { return units[a]; }
    }
  }

  /** The exchange as the code hands it on, with references to the two trainers. */
  ghost function Order(trainers: seq<Entrenador>, e: Exchange): Intercambio
    requires e.mover < |trainers| && e.waiter < |trainers|
  {
    Intercambio(trainers[e.mover], trainers[e.waiter], e.moverGets, e.waiterGets)
  }

  /** The exchanges chosen so far: disjoint, useful, and between exactly the trainers whose
      names are in the list of those involved. */
  ghost predicate Chosen(team: seq<Trainer>, trainers: seq<Entrenador>, involved: seq<string>,
                         exchanges: seq<Intercambio>, es: seq<Exchange>)
  {
    && |team| == |trainers| && |exchanges| == |es| && InTeam(|team|, es) && Disjoint(es)
    && (forall k :: 0 <= k < |es| ==> Useful(team, es[k]) && exchanges[k] == Order(trainers, es[k]))
    && (forall x :: x in involved <==> Involves(team, es, x))
  }

  ghost predicate Involves(team: seq<Trainer>, es: seq<Exchange>, x: string)
    requires InTeam(|team|, es)
  {
    exists k :: 0 <= k < |es| && (team[es[k].mover].id == x || team[es[k].waiter].id == x)
  }

  lemma InvolvesSnoc(team: seq<Trainer>, es: seq<Exchange>, e: Exchange, x: string)
    requires InTeam(|team|, es) && e.mover < |team| && e.waiter < |team|
    ensures Involves(team, es + [e], x) <==> Involves(team, es, x) || x == team[e.mover].id || x == team[e.waiter].id
  {
    var es' := es + [e];
    if Involves(team, es, x) {
      var k :| 0 <= k < |es| && (team[es[k].mover].id == x || team[es[k].waiter].id == x);
      assert es'[k] == es[k];
    }
    assert es'[|es|] == e;
  }

  lemma DisjointSnoc(team: seq<Trainer>, es: seq<Exchange>, e: Exchange)
    requires InTeam(|team|, es) && e.mover < |team| && e.waiter < |team| && Disjoint(es)
    requires !Involves(team, es, team[e.mover].id) && !Involves(team, es, team[e.waiter].id)
    ensures Disjoint(es + [e])
  {
    forall k | 0 <= k < |es|
      ensures es[k].mover != e.mover && es[k].mover != e.waiter && es[k].waiter != e.mover && es[k].waiter != e.waiter
    {
    }
  }

  lemma ChosenSnoc(team: seq<Trainer>, trainers: seq<Entrenador>, involved: seq<string>,
                   exchanges: seq<Intercambio>, es: seq<Exchange>, e: Exchange, x: Intercambio)
    requires Chosen(team, trainers, involved, exchanges, es) && Useful(team, e)
    requires x == Order(trainers, e)
    requires team[e.mover].id !in involved && team[e.waiter].id !in involved
    ensures Chosen(team, trainers, involved + [team[e.mover].id, team[e.waiter].id], exchanges + [x], es + [e])
  {
    hide Useful, Disjoint, Order, Involves;
    SidesHelp(team, e);
    DisjointSnoc(team, es, e);
    forall y ensures y in involved + [team[e.mover].id, team[e.waiter].id] <==> Involves(team, es + [e], y) {
      InvolvesSnoc(team, es, e, y);
    }
  }

  /** One of the two is in the exchange. */
  predicate Meets(e: Exchange, a: nat, c: nat) {
    e.mover == a || e.mover == c || e.waiter == a || e.waiter == c
  }

  /** The pair has taken part: in an exchange of its own, or of a pair before it, in the order of
      the records and of their helpers. */
  ghost predicate Handled(es: seq<Exchange>, a: nat, c: nat) {
    exists k :: 0 <= k < |es| && Meets(es[k], a, c) && (es[k].mover < a || (es[k].mover == a && es[k].waiter <= c))
  }

  /** All exchanges are of pairs before (a, m). */
  ghost predicate Before(es: seq<Exchange>, a: nat, m: nat) {
    forall k :: 0 <= k < |es| ==> es[k].mover < a || (es[k].mover == a && es[k].waiter < m)
  }

  ghost predicate InOrder(es: seq<Exchange>) {
    forall j, k :: 0 <= j < k < |es| ==> es[j].mover < es[k].mover
  }

  lemma HandledStays(es: seq<Exchange>, more: seq<Exchange>, a: nat, c: nat)
    requires Handled(es, a, c) && es <= more
    ensures Handled(more, a, c)
  {
    var k :| 0 <= k < |es| && Meets(es[k], a, c) && (es[k].mover < a || (es[k].mover == a && es[k].waiter <= c));
    assert more[k] == es[k];
  }

  /** A pair one of whom is involved already has been handled. */
  lemma InvolvedIsHandled(team: seq<Trainer>, trainers: seq<Entrenador>, involved: seq<string>,
                          exchanges: seq<Intercambio>, es: seq<Exchange>, a: nat, c: nat)
    requires Chosen(team, trainers, involved, exchanges, es) && DistinctNames(team) && a < |team| && c < |team|
    requires team[a].id in involved || team[c].id in involved
    requires Before(es, a, c)
    ensures Handled(es, a, c)
  {
    hide Useful, Disjoint, Order;
    var i := if team[a].id in involved then a else c;
    assert Involves(team, es, team[i].id);
    var k :| 0 <= k < |es| && (team[es[k].mover].id == team[i].id || team[es[k].waiter].id == team[i].id);
    assert es[k].mover == i || es[k].waiter == i;
    assert Meets(es[k], a, c);
  }

  /** A new pair is handled by its own exchange, which comes after all others. */
  lemma NewIsHandled(team: seq<Trainer>, trainers: seq<Entrenador>, involved: seq<string>,
                     exchanges: seq<Intercambio>, es: seq<Exchange>, e: Exchange)
    requires Chosen(team, trainers, involved, exchanges, es) && e.mover < |team| && team[e.mover].id !in involved
    requires Before(es, e.mover, e.waiter) && InOrder(es)
    ensures Handled(es + [e], e.mover, e.waiter) && InOrder(es + [e]) && Before(es + [e], e.mover, e.waiter + 1)
  {
    var more := es + [e];
    assert more[|es|] == e && Meets(e, e.mover, e.waiter);
    assert !Involves(team, es, team[e.mover].id);
  }

  /** A trainer's name leads recuperarReferencia to that trainer. */
  ghost predicate Unambiguous(trainers: seq<Entrenador>, units: seq<Entrenador>) {
    && (forall t :: t in trainers ==> t in units)
    && (forall t, u :: t in units && u in units && t.id == u.id ==> t == u)
  }

  /** The trainers' values, which have distinct names and are full, and the list the names are
      looked up in. */
  ghost predicate Ready(team: seq<Trainer>, trainers: seq<Entrenador>, units: seq<Entrenador>)
    reads trainers
  {
    team == Values(trainers) && DistinctNames(team) && Full(team) && Unambiguous(trainers, units)
  }

  lemma BothHaveSpare(team: seq<Trainer>, a: nat, c: nat)
    requires Full(team) && Helps(team, a, c)
    ensures Surplus(team[a]) != multiset{} && Surplus(team[c]) != multiset{}
  {
    NeedIsSurplus(team[a]);
    var x :| x in Need(team[a]) * Surplus(team[c]);
    assert x in Need(team[a]) && x in Surplus(team[c]);
  }

  /** One exchange of resolverDeadlock. */
  method MakeExchange(name: string, other: string, units: seq<Entrenador>, ghost trainers: seq<Entrenador>,
                      ghost a: nat, ghost c: nat)
    returns (x: Intercambio, ghost e: Exchange)
    requires Unambiguous(trainers, units) && Full(Values(trainers)) && Helps(Values(trainers), a, c)
    requires trainers[a].id == name && trainers[c].id == other
    ensures Useful(Values(trainers), e) && e.mover == a && e.waiter == c && x == Order(trainers, e)
    ensures x.mover.id == name && x.waiter.id == other
  {
    hide Values, Need, Surplus, MayPick, Full;
    BothHaveSpare(Values(trainers), a, c);
    var mover := FindByName(units, name);
    var waiter := FindByName(units, other);
    assert trainers[a] in trainers && trainers[c] in trainers;
    assert mover == trainers[a] && waiter == trainers[c];
    var moverGets := Pick(mover, waiter);
    var waiterGets := Pick(waiter, mover);
    x := Intercambio(mover, waiter, moverGets, waiterGets);
    e := Exchange(a, c, moverGets, waiterGets);
  }

  /** One pass of the inner loop of resolverDeadlock: a trainer and one helper of it. */
  method ResolvePair(name: string, other: string, units: seq<Entrenador>, ghost team: seq<Trainer>,
                     ghost trainers: seq<Entrenador>, ghost a: nat, ghost c: nat,
                     involved0: seq<string>, exchanges0: seq<Intercambio>, ghost es0: seq<Exchange>)
    returns (involved: seq<string>, exchanges: seq<Intercambio>, ghost es: seq<Exchange>)
    requires Ready(team, trainers, units) && Helps(team, a, c) && team[a].id == name && team[c].id == other
    requires Chosen(team, trainers, involved0, exchanges0, es0) && Before(es0, a, c) && InOrder(es0)
    ensures Ready(team, trainers, units) && Chosen(team, trainers, involved, exchanges, es)
    ensures es0 <= es && Before(es, a, c + 1) && InOrder(es) && Handled(es, a, c)
    ensures name in involved0 || other in involved0 ==> involved == involved0 && exchanges == exchanges0
    ensures name !in involved0 && other !in involved0 ==>
      involved == involved0 + [name, other] && ThenOf(exchanges0, exchanges, name, other)
  {
    hide *;
    ReadyMeans(team, trainers, units, a, c);
    involved, exchanges, es := involved0, exchanges0, es0;
    var taken := Contains(involved, other);
    var mine := Contains(involved, name);
    if !taken && !mine {
      var x: Intercambio;
      ghost var e: Exchange;
      x, e := MakeExchange(name, other, units, trainers, a, c);
      ChosenSnoc(team, trainers, involved, exchanges, es, e, x);
      NewIsHandled(team, trainers, involved, exchanges, es, e);
      involved, exchanges, es := involved + [name, other], exchanges + [x], es + [e];
      ThenOne(exchanges0, x);
    } else {
      InvolvedIsHandled(team, trainers, involved, exchanges, es, a, c);
      BeforeMore(es, a, c, c + 1);
    }
  }

  /** One more exchange, in which the trainer of the first name moves to that of the second. */
  ghost predicate ThenOf(before: seq<Intercambio>, exchanges: seq<Intercambio>, name: string, other: string) {
    var n := |before|;
    |exchanges| == n + 1 && exchanges[..n] == before && exchanges[n].mover.id == name && exchanges[n].waiter.id == other
  }

  lemma ThenOne(before: seq<Intercambio>, x: Intercambio)
    ensures ThenOf(before, before + [x], x.mover.id, x.waiter.id)
  {
  }

  /** A trainer not involved yet has been matched with the first of the first n helpers that was not
      involved either, if there is one, and nothing else has changed. */
  ghost predicate FirstMatched(dep: Dependency, n: nat, involved0: seq<string>, exchanges0: seq<Intercambio>,
                               involved: seq<string>, exchanges: seq<Intercambio>)
    requires n <= |dep.on|
  {
    if dep.name in involved0 || (forall j :: 0 <= j < n ==> dep.on[j] in involved0) then
      involved == involved0 && exchanges == exchanges0
    else
      exists b :: 0 <= b < n && dep.on[b] !in involved0 && (forall j :: 0 <= j < b ==> dep.on[j] in involved0)
        && involved == involved0 + [dep.name, dep.on[b]] && ThenOf(exchanges0, exchanges, dep.name, dep.on[b])
  }

  lemma NoneMatched(dep: Dependency, involved: seq<string>, exchanges: seq<Intercambio>)
    ensures FirstMatched(dep, 0, involved, exchanges, involved, exchanges)
  {
  }

  /** One more helper. */
  lemma MatchedNext(dep: Dependency, n: nat, involved0: seq<string>, exchanges0: seq<Intercambio>,
                    involved: seq<string>, exchanges: seq<Intercambio>,
                    involved': seq<string>, exchanges': seq<Intercambio>)
    requires n < |dep.on| && FirstMatched(dep, n, involved0, exchanges0, involved, exchanges)
    requires dep.name in involved || dep.on[n] in involved ==> involved' == involved && exchanges' == exchanges
    requires dep.name !in involved && dep.on[n] !in involved ==>
      involved' == involved + [dep.name, dep.on[n]] && ThenOf(exchanges, exchanges', dep.name, dep.on[n])
    ensures FirstMatched(dep, n + 1, involved0, exchanges0, involved', exchanges')
  {
    hide ThenOf;
  }

  /** The inner loop of resolverDeadlock, for one record: every helper in turn. */
  method ResolveOne(dep: Dependency, units: seq<Entrenador>, ghost team: seq<Trainer>,
                    ghost trainers: seq<Entrenador>, ghost a: nat,
                    involved0: seq<string>, exchanges0: seq<Intercambio>, ghost es0: seq<Exchange>)
    returns (involved: seq<string>, exchanges: seq<Intercambio>, ghost es: seq<Exchange>)
    requires Ready(team, trainers, units) && RecordOf(team, dep, a)
    requires Chosen(team, trainers, involved0, exchanges0, es0) && Before(es0, a, 0) && InOrder(es0)
    ensures Ready(team, trainers, units) && Chosen(team, trainers, involved, exchanges, es)
    ensures es0 <= es && es != [] && Before(es, a + 1, 0) && InOrder(es) && HandledAll(team, es, a)
    ensures FirstMatched(dep, |dep.on|, involved0, exchanges0, involved, exchanges)
  {
    hide *;
    HelpersNamed(team, dep, a);
    ghost var helpers := Helpers(team, a, |team|);
    involved, exchanges, es := involved0, exchanges0, es0;
    NoneHandled(es, a, helpers);
    NoneMatched(dep, involved, exchanges);
    for b := 0 to |dep.on|
      invariant Ready(team, trainers, units) && Chosen(team, trainers, involved, exchanges, es)
      invariant es0 <= es && InOrder(es) && HandledSome(es, a, helpers, b)
      invariant FirstMatched(dep, b, involved0, exchanges0, involved, exchanges)
    {
      ghost var before, were, had := es, involved, exchanges;
      NextHelper(es, a, helpers, b);
      HelperNamed(team, dep, a, b);
      involved, exchanges, es :=
        ResolvePair(dep.name, dep.on[b], units, team, trainers, a, helpers[b], involved, exchanges, es);
      HelperHandled(before, es, a, helpers, b);
      MatchedNext(dep, b, involved0, exchanges0, were, had, involved, exchanges);
    }
    AllHelpers(team, a, helpers, es);
  }

  /** The first n helpers have been handled, and no pair after them is in an exchange. */
  ghost predicate HandledSome(es: seq<Exchange>, a: nat, helpers: seq<nat>, n: nat) {
    && n <= |helpers| && Before(es, a, if n == 0 then 0 else helpers[n - 1] + 1)
    && (forall q :: 0 <= q < n ==> Handled(es, a, helpers[q]))
  }

  lemma NoneHandled(es: seq<Exchange>, a: nat, helpers: seq<nat>)
    requires Before(es, a, 0)
    ensures HandledSome(es, a, helpers, 0)
  {
  }

  lemma NextHelper(es: seq<Exchange>, a: nat, helpers: seq<nat>, n: nat)
    requires HandledSome(es, a, helpers, n) && n < |helpers| && Ascending(helpers)
    ensures Before(es, a, helpers[n])
  {
  }

  lemma HelperHandled(es: seq<Exchange>, more: seq<Exchange>, a: nat, helpers: seq<nat>, n: nat)
    requires HandledSome(es, a, helpers, n) && n < |helpers| && es <= more
    requires Before(more, a, helpers[n] + 1) && Handled(more, a, helpers[n])
    ensures HandledSome(more, a, helpers, n + 1)
  {
    hide Handled, Before;
    forall q | 0 <= q < n ensures Handled(more, a, helpers[q]) { HandledStays(es, more, a, helpers[q]); }
  }

  lemma HelpersNamed(team: seq<Trainer>, dep: Dependency, a: nat)
    requires RecordOf(team, dep, a)
    ensures a < |team|
    ensures var helpers := Helpers(team, a, |team|);
      && |dep.on| == |helpers| > 0 && Ascending(helpers)
      && (forall c :: 0 <= c < |team| && Helps(team, a, c) ==> c in helpers)
  {
    hide Helps, HelperNames, Helpers;
    HelpersAre(team, a, |team|);
  }

  lemma HelperNamed(team: seq<Trainer>, dep: Dependency, a: nat, b: nat)
    requires RecordOf(team, dep, a) && b < |dep.on|
    ensures |dep.on| == |Helpers(team, a, |team|)|
    ensures var c := Helpers(team, a, |team|)[b];
      Helps(team, a, c) && a < |team| && c < |team| && team[a].id == dep.name && team[c].id == dep.on[b]
  {
    HelpersAre(team, a, |team|);
    hide Helps, HelperNames, Helpers;
    assert team[Helpers(team, a, |team|)[b]].id == HelperNames(team, a, |team|)[b];
  }

  lemma BeforeMore(es: seq<Exchange>, a: nat, m: nat, c: nat)
    requires Before(es, a, m) && m <= c
    ensures Before(es, a, c)
  {
  }

  lemma AllHelpers(team: seq<Trainer>, a: nat, helpers: seq<nat>, es: seq<Exchange>)
    requires forall b :: 0 <= b < |team| && Helps(team, a, b) ==> b in helpers
    requires helpers != [] && HandledSome(es, a, helpers, |helpers|)
    ensures HandledAll(team, es, a) && Before(es, a + 1, 0) && es != []
  {
    hide Helps;
    assert Handled(es, a, helpers[0]);
    hide Handled;
    forall c: nat | Helps(team, a, c) ensures Handled(es, a, c) {
      HelpsInRange(team, a, c);
      assert c in helpers;
    }
  }

  /** The exchanges es of the team, handed on as exchanges between its trainers: each useful,
      no trainer in two of them. */
  ghost predicate Planned(team: seq<Trainer>, trainers: seq<Entrenador>, exchanges: seq<Intercambio>,
                          es: seq<Exchange>) {
    && |team| == |trainers| && |exchanges| == |es| && InTeam(|team|, es) && Disjoint(es)
    && forall k :: 0 <= k < |es| ==> Useful(team, es[k]) && exchanges[k] == Order(trainers, es[k])
  }

  /** Every trainer and every helper of it have been handled. */
  ghost predicate Greedy(team: seq<Trainer>, es: seq<Exchange>) {
    forall a: nat, c: nat :: Helps(team, a, c) ==> Handled(es, a, c)
  }

  lemma HelpsInRange(team: seq<Trainer>, a: nat, c: nat)
    requires Helps(team, a, c)
    ensures a < |team| && c < |team|
  {
  }

  /** resolverDeadlock: the greedy choice, in the order of the records and of their helpers. A
      trainer and a helper of it are left without an exchange of their own only when one of
      them is in that of a pair before them. */
  method ResolveDeadlock(deps: seq<Dependency>, units: seq<Entrenador>, trainers: seq<Entrenador>)
    returns (exchanges: seq<Intercambio>, ghost es: seq<Exchange>)
    requires DistinctNames(Values(trainers)) && Unambiguous(trainers, units) && Full(Values(trainers))
    requires deps == Dependencies(Values(trainers), |trainers|)
    ensures Planned(Values(trainers), trainers, exchanges, es) && Greedy(Values(trainers), es)
    ensures deps != [] ==> exchanges != []
    ensures forall j, k :: 0 <= j < k < |es| ==> es[j].mover < es[k].mover
    ensures forall a: nat, c: nat :: Helps(Values(trainers), a, c) ==>
      exists e :: e in es && (
        (e.mover == a || e.mover == c || e.waiter == a || e.waiter == c)
        && (e.mover < a || (e.mover == a && e.waiter <= c)))
  {
    ghost var team := Values(trainers);
    hide *;
    IsReady(trainers, units);
    NeedyListed(team, deps);
    ghost var needy := Needy(team, |team|);
    NoneChosen(team, trainers);
    var involved := [];
    exchanges, es := [], [];
    NoneResolved(team, needy);
    for a := 0 to |deps|
      invariant Ready(team, trainers, units) && Chosen(team, trainers, involved, exchanges, es)
      invariant InOrder(es) && HandledFirst(team, es, needy, a)
      invariant a > 0 ==> es != []
    {
      ghost var before := es;
      NextNeedy(team, es, needy, a);
      involved, exchanges, es := ResolveOne(deps[a], units, team, trainers, needy[a], involved, exchanges, es);
      NeedyHandled(team, before, es, needy, a);
    }
    AllNeedy(team, needy, es);
    GreedyMeans(team, es);
    ChosenIsPlanned(team, trainers, involved, exchanges, es);
    StillReady(team, trainers, units);
  }

  lemma IsReady(trainers: seq<Entrenador>, units: seq<Entrenador>)
    requires DistinctNames(Values(trainers)) && Unambiguous(trainers, units) && Full(Values(trainers))
    ensures Ready(Values(trainers), trainers, units) && |Values(trainers)| == |trainers|
  {
  }

  lemma StillReady(team: seq<Trainer>, trainers: seq<Entrenador>, units: seq<Entrenador>)
    requires Ready(team, trainers, units)
    ensures team == Values(trainers)
  {
  }

  lemma ReadyMeans(team: seq<Trainer>, trainers: seq<Entrenador>, units: seq<Entrenador>, a: nat, c: nat)
    requires Ready(team, trainers, units) && Helps(team, a, c)
    ensures team == Values(trainers) && DistinctNames(team) && Full(team) && Unambiguous(trainers, units)
    ensures a < |team| == |trainers| && trainers[a].id == team[a].id
    ensures c < |team| && trainers[c].id == team[c].id
  {
  }

  /** The first n records have been handled, and no trainer after them is the mover of an exchange. */
  ghost predicate HandledFirst(team: seq<Trainer>, es: seq<Exchange>, needy: seq<nat>, n: nat) {
    && n <= |needy| && Before(es, if n == 0 then 0 else needy[n - 1] + 1, 0)
    && (forall q :: 0 <= q < n ==> HandledAll(team, es, needy[q]))
  }

  lemma NoneResolved(team: seq<Trainer>, needy: seq<nat>)
    ensures HandledFirst(team, [], needy, 0)
  {
  }

  lemma NextNeedy(team: seq<Trainer>, es: seq<Exchange>, needy: seq<nat>, n: nat)
    requires HandledFirst(team, es, needy, n) && n < |needy| && Ascending(needy)
    ensures Before(es, needy[n], 0)
  {
    hide HandledAll;
  }

  lemma NeedyHandled(team: seq<Trainer>, es: seq<Exchange>, more: seq<Exchange>, needy: seq<nat>, n: nat)
    requires HandledFirst(team, es, needy, n) && n < |needy| && es <= more
    requires Before(more, needy[n] + 1, 0) && HandledAll(team, more, needy[n])
    ensures HandledFirst(team, more, needy, n + 1)
  {
    hide HandledAll, Before;
    forall q | 0 <= q < n ensures HandledAll(team, more, needy[q]) { HandledAllStays(team, es, more, needy[q]); }
  }

  lemma ChosenIsPlanned(team: seq<Trainer>, trainers: seq<Entrenador>, involved: seq<string>,
                        exchanges: seq<Intercambio>, es: seq<Exchange>)
    requires Chosen(team, trainers, involved, exchanges, es) && InOrder(es)
    ensures Planned(team, trainers, exchanges, es) && |exchanges| == |es|
    ensures forall j, k :: 0 <= j < k < |es| ==> es[j].mover < es[k].mover
  {
  }

  lemma NeedyListed(team: seq<Trainer>, deps: seq<Dependency>)
    requires deps == Dependencies(team, |team|)
    ensures var needy := Needy(team, |team|);
      && |deps| == |needy|
      && (forall k :: 0 <= k < |needy| ==> RecordOf(team, deps[k], needy[k]))
      && Ascending(needy)
      && (forall a :: 0 <= a < |team| && HelperNames(team, a, |team|) != [] ==> a in needy)
  {
    hide *;
    NeedyAscend(team, |team|);
    NeedyRecords(team, |team|);
    AllAreNeedy(team, |team|);
  }

  ghost predicate HandledAll(team: seq<Trainer>, es: seq<Exchange>, a: nat) {
    forall c: nat :: Helps(team, a, c) ==> Handled(es, a, c)
  }

  lemma HandledAllStays(team: seq<Trainer>, es: seq<Exchange>, more: seq<Exchange>, a: nat)
    requires HandledAll(team, es, a) && es <= more
    ensures HandledAll(team, more, a)
  {
    forall c: nat | Helps(team, a, c) ensures Handled(more, a, c) { HandledStays(es, more, a, c); }
  }

  lemma AllNeedy(team: seq<Trainer>, needy: seq<nat>, es: seq<Exchange>)
    requires forall a :: 0 <= a < |team| && HelperNames(team, a, |team|) != [] ==> a in needy
    requires HandledFirst(team, es, needy, |needy|)
    ensures Greedy(team, es)
  {
    hide Handled;
    forall a: nat, c: nat | Helps(team, a, c) ensures Handled(es, a, c) {
      HelperNamesMean(team, a, |team|);
      assert team[c].id in HelperNames(team, a, |team|);
      assert a in needy;
      var q :| 0 <= q < |needy| && needy[q] == a;
      assert HandledAll(team, es, needy[q]);
    }
  }

  lemma GreedyMeans(team: seq<Trainer>, es: seq<Exchange>)
    requires Greedy(team, es)
    ensures forall a: nat, c: nat :: Helps(team, a, c) ==>
      exists e :: e in es && (
        (e.mover == a || e.mover == c || e.waiter == a || e.waiter == c)
        && (e.mover < a || (e.mover == a && e.waiter <= c)))
  {
    hide Helps;
    forall a: nat, c: nat | Helps(team, a, c)
      ensures exists e :: e in es && (
                (e.mover == a || e.mover == c || e.waiter == a || e.waiter == c)
                && (e.mover < a || (e.mover == a && e.waiter <= c)))
    {
      assert Handled(es, a, c);
      var k :| 0 <= k < |es| && Meets(es[k], a, c) && (es[k].mover < a || (es[k].mover == a && es[k].waiter <= c));
      assert es[k] in es;
    }
  }

  lemma NoneChosen(team: seq<Trainer>, trainers: seq<Entrenador>)
    requires |team| == |trainers|
    ensures Chosen(team, trainers, [], [], []) && Before([], 0, 0) && InOrder([])
  {
  }

  /** The trainers that are not waiting for an exchange already. */
  ghost function Processable(blocked: seq<Entrenador>): seq<Entrenador>
    reads blocked
  {
    if blocked == [] then []
    else
      var n := |blocked| - 1;
      Processable(blocked[..n]) + (if blocked[n].waiting then [] else [blocked[n]])
  }

  lemma {:induction false} ProcessableFrom(blocked: seq<Entrenador>)
    ensures forall t :: t in Processable(blocked) ==> t in blocked
    ensures (forall t :: t in blocked ==> !t.waiting) ==> Processable(blocked) == blocked
  {
    if blocked != [] {
      var n := |blocked| - 1;
      ProcessableFrom(blocked[..n]);
      assert blocked == blocked[..n] + [blocked[n]];
    }
  }

  lemma {:induction false} ProcessableExactly(blocked: seq<Entrenador>)
    ensures forall t :: t in Processable(blocked) <==> t in blocked && !t.waiting
  {
    if blocked != [] {
      var n := |blocked| - 1;
      ProcessableExactly(blocked[..n]);
      assert blocked == blocked[..n] + [blocked[n]];
    }
  }

  lemma {:induction false} ProcessableApart(blocked: seq<Entrenador>)
    requires NamedApart(blocked)
    ensures NamedApart(Processable(blocked))
  {
    if blocked != [] {
      var n := |blocked| - 1;
      var rest := Processable(blocked[..n]);
      ProcessableApart(blocked[..n]);
      ProcessableFrom(blocked[..n]);
      forall i | 0 <= i < |rest| ensures rest[i].id != blocked[n].id {
        assert rest[i] in blocked[..n];
        var k :| 0 <= k < n && blocked[..n][k] == rest[i];
        assert blocked[k].id != blocked[n].id;
      }
    }
  }

  ghost predicate NamedApart(trainers: seq<Entrenador>) {
    forall i, j :: 0 <= i < j < |trainers| ==> trainers[i].id != trainers[j].id
  }

  lemma ProcessableIn(blocked: seq<Entrenador>)
    requires DistinctNames(Values(blocked)) && Full(Values(blocked))
    ensures forall t :: t in Processable(blocked) ==> t in blocked
    ensures DistinctNames(Values(Processable(blocked))) && Full(Values(Processable(blocked)))
    ensures (forall t :: t in blocked ==> !t.waiting) ==> Processable(blocked) == blocked
  {
    hide Values, Processable;
    var free := Processable(blocked);
    ProcessableFrom(blocked);
    SameNames(blocked);
    ProcessableApart(blocked);
    SameNames(free);
    forall i | 0 <= i < |free| ensures |free[i].captured| == |free[i].goal| {
      assert free[i] in blocked;
      var k :| 0 <= k < |blocked| && blocked[k] == free[i];
      assert Values(blocked)[k] == free[i].Value();
    }
  }

  lemma SameNames(trainers: seq<Entrenador>)
    ensures NamedApart(trainers) <==> DistinctNames(Values(trainers))
  {
    var team := Values(trainers);
    hide Values;
    assert forall i :: 0 <= i < |trainers| ==> team[i].id == trainers[i].id;
  }

  /** procesarDeadlock: the exchanges are between trainers none of whom is waiting already. */
  method ProcessDeadlock(blocked: seq<Entrenador>) returns (exchanges: seq<Intercambio>, ghost es: seq<Exchange>)
    requires DistinctNames(Values(blocked)) && Full(Values(blocked))
    ensures Planned(Values(Processable(blocked)), Processable(blocked), exchanges, es)
    ensures Greedy(Values(Processable(blocked)), es)
    ensures forall x :: x in exchanges ==>
      x.mover in blocked && x.waiter in blocked && x.mover != x.waiter && !x.mover.waiting && !x.waiter.waiting
    ensures forall x :: x in exchanges ==>
      && x.waiter.captured[x.moverGets] > x.waiter.goal[x.moverGets]
      && x.mover.captured[x.moverGets] < x.mover.goal[x.moverGets]
      && x.mover.captured[x.waiterGets] > x.mover.goal[x.waiterGets]
    ensures forall j, k :: 0 <= j < k < |exchanges| ==>
      {exchanges[j].mover, exchanges[j].waiter} !! {exchanges[k].mover, exchanges[k].waiter}
    ensures forall t, u :: t in blocked && u in blocked && !t.waiting && !u.waiting && CanGive(u, t) ==>
      exists x :: x in exchanges && (x.mover == t || x.mover == u || x.waiter == t || x.waiter == u)
    ensures forall free: seq<Entrenador> :: (
      && (forall t :: t in free ==> t in blocked && !t.waiting)
      && Balanced(Values(free)) && (exists t :: t in free && t.captured != t.goal)) ==> exchanges != []
  {
    hide *;
    var free := Unoccupied(blocked);
    ProcessableIn(blocked);
    NamesIdentify(blocked);
    StillUnambiguous(free, blocked);
    var deps := CreateDependencies(free);
    exchanges, es := ResolveDeadlock(deps, blocked, free);
    ProcessableExactly(blocked);
    AllFromPlan(free, exchanges, es);
    AllGain(free, exchanges, es);
    NoneTwice(free, exchanges, es);
    EveryPair(free, exchanges, es);
    SomethingForBalanced(blocked, exchanges);
  }

  lemma AllFromPlan(free: seq<Entrenador>, exchanges: seq<Intercambio>, es: seq<Exchange>)
    requires Planned(Values(free), free, exchanges, es) && DistinctNames(Values(free))
    ensures forall x :: x in exchanges ==> x.mover in free && x.waiter in free && x.mover != x.waiter
  {
    forall x | x in exchanges ensures x.mover in free && x.waiter in free && x.mover != x.waiter {
      var k :| 0 <= k < |exchanges| && exchanges[k] == x;
      assert Useful(Values(free), es[k]) && x == Order(free, es[k]);
      assert Values(free)[es[k].mover].id != Values(free)[es[k].waiter].id;
    }
  }

  lemma AllGain(free: seq<Entrenador>, exchanges: seq<Intercambio>, es: seq<Exchange>)
    requires Planned(Values(free), free, exchanges, es)
    ensures forall x :: x in exchanges ==>
      && x.waiter.captured[x.moverGets] > x.waiter.goal[x.moverGets]
      && x.mover.captured[x.moverGets] < x.mover.goal[x.moverGets]
      && x.mover.captured[x.waiterGets] > x.mover.goal[x.waiterGets]
  {
    forall x | x in exchanges
      ensures x.waiter.captured[x.moverGets] > x.waiter.goal[x.moverGets]
      ensures x.mover.captured[x.moverGets] < x.mover.goal[x.moverGets]
      ensures x.mover.captured[x.waiterGets] > x.mover.goal[x.waiterGets]
    {
      var k :| 0 <= k < |exchanges| && exchanges[k] == x;
      var e := es[k];
      assert Useful(Values(free), e) && x == Order(free, e);
      hide Helps;
      assert Values(free)[e.mover] == x.mover.Value() && Values(free)[e.waiter] == x.waiter.Value();
      GivesHelp(free, e.mover, e.waiter);
      MayPickMeans(x.mover, x.waiter, x.moverGets);
      MayPickMeans(x.waiter, x.mover, x.waiterGets);
    }
  }

  lemma NoneTwice(free: seq<Entrenador>, exchanges: seq<Intercambio>, es: seq<Exchange>)
    requires Planned(Values(free), free, exchanges, es) && DistinctNames(Values(free))
    ensures forall j, k :: 0 <= j < k < |exchanges| ==>
      {exchanges[j].mover, exchanges[j].waiter} !! {exchanges[k].mover, exchanges[k].waiter}
  {
    forall j, k | 0 <= j < k < |exchanges|
      ensures {exchanges[j].mover, exchanges[j].waiter} !! {exchanges[k].mover, exchanges[k].waiter}
    {
      hide Useful;
      assert exchanges[j] == Order(free, es[j]) && exchanges[k] == Order(free, es[k]);
      AllDifferent(free);
    }
  }

  lemma AllDifferent(free: seq<Entrenador>)
    requires DistinctNames(Values(free))
    ensures forall i, j :: 0 <= i < |free| && 0 <= j < |free| && i != j ==> free[i] != free[j]
  {
    forall i, j | 0 <= i < j < |free| ensures free[i] != free[j] {
      assert Values(free)[i].id != Values(free)[j].id;
    }
  }

  lemma EveryPair(free: seq<Entrenador>, exchanges: seq<Intercambio>, es: seq<Exchange>)
    requires Planned(Values(free), free, exchanges, es) && DistinctNames(Values(free)) && Greedy(Values(free), es)
    ensures forall t, u :: t in free && u in free && CanGive(u, t) ==>
      exists x :: x in exchanges && (x.mover == t || x.mover == u || x.waiter == t || x.waiter == u)
  {
    var team := Values(free);
    forall t, u | t in free && u in free && CanGive(u, t)
      ensures exists x :: x in exchanges && (x.mover == t || x.mover == u || x.waiter == t || x.waiter == u)
    {
      var a :| 0 <= a < |free| && free[a] == t;
      var c :| 0 <= c < |free| && free[c] == u;
      GivesHelp(free, a, c);
      PairTakesPart(free, exchanges, es, a, c);
    }
  }

  lemma GivesHelp(free: seq<Entrenador>, a: nat, c: nat)
    requires a < |free| && c < |free|
    ensures CanGive(free[c], free[a]) <==> Helps(Values(free), a, c)
  {
    var team := Values(free);
    assert team[a] == free[a].Value() && team[c] == free[c].Value();
    if CanGive(free[c], free[a]) {
      var s :| free[c].captured[s] > free[c].goal[s] && free[a].captured[s] < free[a].goal[s];
      assert s in Need(team[a]) * Surplus(team[c]);
    }
    if Helps(team, a, c) {
      var s :| s in Need(team[a]) * Surplus(team[c]);
      assert free[c].captured[s] > free[c].goal[s] && free[a].captured[s] < free[a].goal[s];
    }
  }

  lemma PairTakesPart(free: seq<Entrenador>, exchanges: seq<Intercambio>, es: seq<Exchange>, a: nat, c: nat)
    requires Planned(Values(free), free, exchanges, es) && Greedy(Values(free), es) && Helps(Values(free), a, c)
    ensures a < |free| && c < |free|
    ensures exists x ::
      x in exchanges && (x.mover == free[a] || x.mover == free[c] || x.waiter == free[a] || x.waiter == free[c])
  {
    HelpsInRange(Values(free), a, c);
    assert Handled(es, a, c);
    hide Values, Useful, Disjoint, Helps;
    var k :| 0 <= k < |es| && Meets(es[k], a, c) && (es[k].mover < a || (es[k].mover == a && es[k].waiter <= c));
    assert exchanges[k] == Order(free, es[k]) && exchanges[k] in exchanges;
  }

  lemma SomethingForBalanced(blocked: seq<Entrenador>, exchanges: seq<Intercambio>)
    requires forall t, u :: t in blocked && u in blocked && !t.waiting && !u.waiting && CanGive(u, t) ==>
      exists x :: x in exchanges && (x.mover == t || x.mover == u || x.waiter == t || x.waiter == u)
    ensures forall free: seq<Entrenador> :: (
      && (forall t :: t in free ==> t in blocked && !t.waiting)
      && Balanced(Values(free)) && (exists t :: t in free && t.captured != t.goal)) ==> exchanges != []
  {
    forall free: seq<Entrenador> | (forall t :: t in free ==> t in blocked && !t.waiting)
      && Balanced(Values(free)) && (exists t :: t in free && t.captured != t.goal)
      ensures exchanges != []
    {
      var t :| t in free && t.captured != t.goal;
      var a :| 0 <= a < |free| && free[a] == t;
      assert Values(free)[a] == t.Value();
      NeedIsSurplus(Values(free)[a]);
      var c := DependencyExists(Values(free), a);
      HelpsInRange(Values(free), a, c);
      GivesHelp(free, a, c);
      assert CanGive(free[c], t);
    }
  }

  /** list_filter with esProcesable */
  method Unoccupied(blocked: seq<Entrenador>) returns (free: seq<Entrenador>)
    ensures free == Processable(blocked)
  {
    free := [];
    for i := 0 to |blocked|
      invariant free == Processable(blocked[..i])
    {
      assert blocked[..i + 1][..i] == blocked[..i];
      if !blocked[i].waiting { free := free + [blocked[i]]; }
    }
    assert blocked[..|blocked|] == blocked;
  }

  lemma SomeoneUnfinished(trainers: seq<Entrenador>)
    requires trainers != [] && forall t :: t in trainers ==> Need(t.Value()) != multiset{}
    ensures exists t :: t in trainers && t.captured != t.goal
  {
    var t := trainers[0];
    assert t in trainers && Need(t.Value()) != multiset{};
  }

  lemma StillUnambiguous(free: seq<Entrenador>, blocked: seq<Entrenador>)
    requires Unambiguous(blocked, blocked) && forall t :: t in free ==> t in blocked
    ensures Unambiguous(free, blocked)
  {
  }

  lemma NamesIdentify(trainers: seq<Entrenador>)
    requires DistinctNames(Values(trainers))
    ensures Unambiguous(trainers, trainers)
  {
    forall t, u | t in trainers && u in trainers && t.id == u.id ensures t == u {
      var i :| 0 <= i < |trainers| && trainers[i] == t;
      var j :| 0 <= j < |trainers| && trainers[j] == u;
      NamesApart(Values(trainers), i);
    }
  }

  // ---- Rounds ----

  /** One task ends: the mover gives what the waiter gets, and the other way round. */
  method RunOne(x: Intercambio, trainers: seq<Entrenador>, ghost e: Exchange)
    requires DistinctNames(Values(trainers)) && Useful(Values(trainers), e) && x == Order(trainers, e)
    modifies x.mover`captured, x.waiter`captured
    ensures Values(trainers) == Execute(old(Values(trainers)), e)
  {
    hide Values, Useful, Swap, Execute, DistinctNames;
    ghost var team := Values(trainers);
    SidesHelp(team, e);
    SidesPlaced(team, e);
    NamesApart(team, e.mover);
    NamesApart(team, e.waiter);
    var done := x.mover.SwapWith(x.waiter, x.waiterGets, x.moverGets);
    assert Values(trainers) == Execute(team, e);
  }

  lemma NamesApart(team: seq<Trainer>, i: nat)
    requires DistinctNames(team) && i < |team|
    ensures forall j :: 0 <= j < |team| && j != i ==> team[j].id != team[i].id
  {
  }

  lemma PlannedAt(team: seq<Trainer>, trainers: seq<Entrenador>, exchanges: seq<Intercambio>, es: seq<Exchange>, n: nat)
    requires Planned(team, trainers, exchanges, es) && n < |es|
    ensures es[n].mover < |trainers| && es[n].waiter < |trainers| && exchanges[n] == Order(trainers, es[n])
    ensures InTeam(|team|, es) && Useful(ExecuteAll(team, es, n), es[n])
    ensures ExecuteAll(team, es, n + 1) == Execute(ExecuteAll(team, es, n), es[n])
  {
    StillUseful(team, es, n);
  }

  lemma PlannedStart(team: seq<Trainer>, trainers: seq<Entrenador>, exchanges: seq<Intercambio>, es: seq<Exchange>)
    requires Planned(team, trainers, exchanges, es)
    ensures |exchanges| == |es| && InTeam(|team|, es) && ExecuteAll(team, es, 0) == team
  {
  }

  /** The tasks of one round, each ending in intercambiarPokemon. */
  method RunExchanges(exchanges: seq<Intercambio>, trainers: seq<Entrenador>, ghost es: seq<Exchange>)
    requires DistinctNames(Values(trainers)) && Planned(Values(trainers), trainers, exchanges, es)
    modifies trainers
    ensures Values(trainers) == ExecuteAll(old(Values(trainers)), es, |es|)
    ensures DistinctNames(Values(trainers)) && forall t :: t in trainers ==> t.waiting == old(t.waiting)
  {
    hide Values, Useful, DistinctNames, Execute, ExecuteAll, Planned, InTeam;
    ghost var team := Values(trainers);
    PlannedStart(team, trainers, exchanges, es);
    for n := 0 to |exchanges|
      invariant Values(trainers) == ExecuteAll(team, es, n) && DistinctNames(Values(trainers))
      invariant forall t :: t in trainers ==> t.waiting == old(t.waiting)
    {
      PlannedAt(team, trainers, exchanges, es, n);
      NamesStay(Values(trainers), es[n]);
      assert exchanges[n].mover in trainers && exchanges[n].waiter in trainers;
      RunOne(exchanges[n], trainers, es[n]);
    }
  }

  lemma NamesStay(team: seq<Trainer>, e: Exchange)
    requires DistinctNames(team) && e.mover < |team| && e.waiter < |team|
    ensures DistinctNames(Execute(team, e))
  {
  }

  /** Trainers who are done leave the blocked queue. */
  method StillBlocked(blocked: seq<Entrenador>) returns (rest: seq<Entrenador>)
    requires Balanced(Values(blocked)) && DistinctNames(Values(blocked))
    ensures forall t :: t in rest ==> t in blocked && Need(t.Value()) != multiset{}
    ensures forall t :: t in blocked ==> t in rest || t.captured == t.goal
    ensures Balanced(Values(rest)) && DistinctNames(Values(rest))
    ensures TotalDeficit(Values(rest), |rest|) == TotalDeficit(Values(blocked), |blocked|)
  {
    hide Values, Balanced, DistinctNames, TotalDeficit, Need, Unfinished, LeftOf;
    ghost var team := Values(blocked);
    FullWhenBalanced(team);
    UnfinishedNone(team);
    LeftOfNone(blocked);
    rest := [];
    for i := 0 to |blocked|
      invariant Values(rest) == Unfinished(team, i)
      invariant LeftOf(blocked, rest, i)
    {
      assert team[i] == blocked[i].Value();
      UnfinishedSnoc(rest, blocked[i], team, i);
      LeftOfSnoc(blocked, rest, i);
      var completed := IsDone(blocked[i]);
      if !completed { rest := rest + [blocked[i]]; }
    }
    UnfinishedBalanced(team);
    TheyStillNeed(blocked, rest);
    LeftOfAll(blocked, rest);
  }

  /** rest has those of the first n trainers who are not done, and nobody else. */
  ghost predicate LeftOf(blocked: seq<Entrenador>, rest: seq<Entrenador>, n: nat)
    requires n <= |blocked|
    reads blocked, rest
  {
    && (forall t :: t in rest ==> t in blocked && t.captured != t.goal)
    && (forall k :: 0 <= k < n ==> blocked[k] in rest || blocked[k].captured == blocked[k].goal)
  }

  lemma LeftOfNone(blocked: seq<Entrenador>)
    ensures LeftOf(blocked, [], 0)
  {
  }

  lemma LeftOfSnoc(blocked: seq<Entrenador>, rest: seq<Entrenador>, n: nat)
    requires n < |blocked| && LeftOf(blocked, rest, n)
    ensures blocked[n].captured != blocked[n].goal ==> LeftOf(blocked, rest + [blocked[n]], n + 1)
    ensures blocked[n].captured == blocked[n].goal ==> LeftOf(blocked, rest, n + 1)
  {
  }

  lemma LeftOfAll(blocked: seq<Entrenador>, rest: seq<Entrenador>)
    requires LeftOf(blocked, rest, |blocked|)
    ensures forall t :: t in blocked ==> t in rest || t.captured == t.goal
    ensures forall t :: t in rest ==> t in blocked
  {
  }

  /** objetivoCompletado, for a trainer with as many as it wants. */
  method IsDone(t: Entrenador) returns (done: bool)
    requires |t.captured| == |t.goal|
    ensures done <==> t.captured == t.goal
  {
    done := t.ObjectiveCompleted();
  }

  lemma FullWhenBalanced(team: seq<Trainer>)
    requires Balanced(team)
    ensures Full(team)
  {
  }

  lemma UnfinishedNone(team: seq<Trainer>)
    ensures Unfinished(team, 0) == []
  {
  }

  lemma UnfinishedSnoc(rest: seq<Entrenador>, b: Entrenador, team: seq<Trainer>, i: nat)
    requires i < |team| && team[i] == b.Value() && Values(rest) == Unfinished(team, i)
    ensures b.captured == b.goal ==> Unfinished(team, i + 1) == Unfinished(team, i)
    ensures b.captured != b.goal ==> Unfinished(team, i + 1) == Values(rest + [b])
  {
  }

  lemma TheyStillNeed(blocked: seq<Entrenador>, rest: seq<Entrenador>)
    requires Balanced(Values(blocked)) && LeftOf(blocked, rest, |blocked|)
    ensures forall t :: t in rest ==> Need(t.Value()) != multiset{}
  {
    hide Values;
    var team := Values(blocked);
    forall t | t in rest ensures Need(t.Value()) != multiset{} {
      var i :| 0 <= i < |blocked| && blocked[i] == t;
      assert team[i] == t.Value();
      NeedIsSurplus(team[i]);
    }
  }

  lemma PlannedHelps(team: seq<Trainer>, trainers: seq<Entrenador>, exchanges: seq<Intercambio>, es: seq<Exchange>)
    requires Balanced(team) && Planned(team, trainers, exchanges, es)
    ensures |exchanges| == |es| && InTeam(|team|, es)
    ensures Balanced(ExecuteAll(team, es, |es|))
    ensures TotalDeficit(ExecuteAll(team, es, |es|), |team|) + |es| <= TotalDeficit(team, |team|)
  {
    RoundHelps(team, es, |es|);
  }

  /** One round: list the dependencies, choose the exchanges, run them, and let go of those who
      are done. There is always an exchange to run, and each lowers the total deficit. */
  method OneRound(blocked: seq<Entrenador>) returns (rest: seq<Entrenador>, count: nat)
    requires blocked != [] && Balanced(Values(blocked)) && DistinctNames(Values(blocked))
    requires forall t :: t in blocked ==> Need(t.Value()) != multiset{} && !t.waiting
    modifies blocked
    ensures forall t :: t in rest ==> t in blocked && Need(t.Value()) != multiset{} && !t.waiting
    ensures forall t :: t in blocked ==> t in rest || t.captured == t.goal
    ensures Balanced(Values(rest)) && DistinctNames(Values(rest))
    ensures count >= 1 && count + TotalDeficit(Values(rest), |rest|) <= old(TotalDeficit(Values(blocked), |blocked|))
  {
    hide *;
    ghost var before := Values(blocked);
    ghost var es;
    var exchanges;
    FullWhenBalanced(before);
    ProcessableIn(blocked);
    SomeoneUnfinished(blocked);
    exchanges, es := ProcessDeadlock(blocked);
    PlannedHelps(before, blocked, exchanges, es);
    RunExchanges(exchanges, blocked, es);
    count := |exchanges|;
    rest := StillBlocked(blocked);
  }

  /** Deadlock resolution to the end: rounds of listing, choosing and swapping until nobody is
      blocked. It takes at most as many exchanges as species were lacking at the start. */
  method ResolveAll(team: seq<Entrenador>) returns (count: nat)
    requires Balanced(Values(team)) && DistinctNames(Values(team)) && forall t :: t in team ==> !t.waiting
    modifies team
    ensures forall t :: t in team ==> t.captured == t.goal
    ensures count <= old(TotalDeficit(Values(team), |team|))
  {
    hide Values, Balanced, DistinctNames, TotalDeficit, Need;
    count := 0;
    var blocked := StillBlocked(team);
    while blocked != []
      invariant forall t :: t in blocked ==> t in team && Need(t.Value()) != multiset{} && !t.waiting
      invariant forall t :: t in team ==> t in blocked || t.captured == t.goal
      invariant Balanced(Values(blocked)) && DistinctNames(Values(blocked))
      invariant count + TotalDeficit(Values(blocked), |blocked|) <= old(TotalDeficit(Values(team), |team|))
      decreases TotalDeficit(Values(blocked), |blocked|)
    {
      assert forall i :: 0 <= i < |blocked| ==> blocked[i] in team;
      var rest, n := OneRound(blocked);
      count := count + n;
      blocked := rest;
    }
  }
}
