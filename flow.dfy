/** The per-compartment flow of one simulated day and the forward-Euler map
    it induces on population levels. Levels are exact reals. */
module Flow {
  import opened Groups
  import opened Params

  /** One population level per compartment. The engine's table is a
      dictionary keyed by the five compartments that never gains or loses a
      key, so it is a record with one field per compartment; `Get` and `Set`
      are its lookup and its item assignment. */
  datatype Levels = Levels(raider: real, survivalist: real, civilian: real, zombie: real, removed: real)
  {
    function Get(g: Group): real
    {
      match g
      case Raider => raider
      case Survivalist => survivalist
      case Civilian => civilian
      case Zombie => zombie
      case Removed => removed
    }

    function Set(g: Group, v: real): (q: Levels)
      ensures q.Get(g) == v
      ensures forall h: Group :: h != g ==> q.Get(h) == Get(h)
    {
      match g
      case Raider => this.(raider := v)
      case Survivalist => this.(survivalist := v)
      case Civilian => this.(civilian := v)
      case Zombie => this.(zombie := v)
      case Removed => this.(removed := v)
    }
  }

  /** Assigning the same compartment twice keeps only the second value. */
  lemma SetTwice(p: Levels, g: Group, a: real, b: real)
    ensures p.Set(g, a).Set(g, b) == p.Set(g, b)
  {
    match g
    case Raider =>
    case Survivalist =>
    case Civilian =>
    case Zombie =>
    case Removed =>
  }

  /** Two level records that agree on every compartment are equal. */
  lemma LevelsEqual(p: Levels, q: Levels)
    requires forall g: Group :: p.Get(g) == q.Get(g)
    ensures p == q
  {
    assert p.Get(Raider) == q.Get(Raider);
    assert p.Get(Survivalist) == q.Get(Survivalist);
    assert p.Get(Civilian) == q.Get(Civilian);
    assert p.Get(Zombie) == q.Get(Zombie);
    assert p.Get(Removed) == q.Get(Removed);
  }

  predicate NonNegative(p: Levels)
  {
    p.raider >= 0.0 && p.survivalist >= 0.0 && p.civilian >= 0.0 && p.zombie >= 0.0 && p.removed >= 0.0
  }

  /** The initial levels of a fresh simulation. */
  function Seed(): (p: Levels)
    ensures NonNegative(p)
    ensures p.Get(Removed) == 0.0
    ensures forall g: Group :: g != Removed ==> p.Get(g) == 1.0
  {
    Levels(1.0, 1.0, 1.0, 1.0, 0.0)
  }

  /** Clamping at zero, as the step does after adding a delta. */
  function Max0(x: real): (r: real)
    ensures r >= 0.0 && r >= x
    ensures r == x || r == 0.0
  {
    if x >= 0.0 then x else 0.0
  }

  /** The net change of compartment `g` over one day, computed from the
      snapshot `p` alone. Every rate lookup below is on a defined case: the
      `.value` selections are only well-formed for `Some`. Civilian births
      use the Survivalist birth rate, as the engine does. */
  function StepGroup(p: Levels, g: Group): real
  {
    match g
    case Raider =>
      var fromBirth := BirthRate(Raider).value * p.Get(Raider);
      var fromSurvivalist := ExchangeRate(Survivalist, Raider).value * p.Get(Raider) * p.Get(Survivalist);
      var toSurvivalist := ExchangeRate(Raider, Survivalist).value * p.Get(Raider) * p.Get(Survivalist);
      var toZombie := ZombieRate(Raider).value * p.Get(Raider) * p.Get(Zombie);
      var toRemoved := DeathRate(Raider).value * p.Get(Raider);
      fromBirth + fromSurvivalist - toSurvivalist - toZombie - toRemoved
    case Survivalist =>
      var fromBirth := BirthRate(Survivalist).value * p.Get(Survivalist);
      var fromRaider := ExchangeRate(Raider, Survivalist).value * p.Get(Survivalist) * p.Get(Raider);
      var fromCivilian := ExchangeRate(Civilian, Survivalist).value * p.Get(Survivalist) * p.Get(Civilian);
      var toRaider := ExchangeRate(Survivalist, Raider).value * p.Get(Survivalist) * p.Get(Raider);
      var toCivilian := ExchangeRate(Survivalist, Civilian).value * p.Get(Survivalist) * p.Get(Civilian);
      var toZombie := ZombieRate(Survivalist).value * p.Get(Survivalist) * p.Get(Zombie);
      var toRemoved := DeathRate(Survivalist).value * p.Get(Survivalist);
      fromBirth + fromRaider + fromCivilian - toRaider - toCivilian - toZombie - toRemoved
    case Civilian =>
      var fromBirth := BirthRate(Survivalist).value * p.Get(Civilian);
      var fromSurvivalist := ExchangeRate(Survivalist, Civilian).value * p.Get(Civilian) * p.Get(Survivalist);
      var toSurvivalist := ExchangeRate(Civilian, Survivalist).value * p.Get(Civilian) * p.Get(Survivalist);
      var toZombie := ZombieRate(Civilian).value * p.Get(Civilian) * p.Get(Zombie);
      var toRemoved := DeathRate(Civilian).value * p.Get(Civilian);
      fromBirth + fromSurvivalist - toSurvivalist - toZombie - toRemoved
    case Zombie =>
      var fromRaider := ZombieRate(Raider).value * p.Get(Zombie) * p.Get(Raider);
      var fromSurvivalist := ZombieRate(Survivalist).value * p.Get(Zombie) * p.Get(Survivalist);
      var fromCivilian := ZombieRate(Civilian).value * p.Get(Zombie) * p.Get(Civilian);
      var toRemoved := DeathRate(Zombie).value * p.Get(Zombie);
      fromRaider + fromSurvivalist + fromCivilian - toRemoved
    case Removed =>
      var fromRaider := DeathRate(Raider).value * p.Get(Raider);
      var fromSurvivalist := DeathRate(Survivalist).value * p.Get(Survivalist);
      var fromCivilian := DeathRate(Civilian).value * p.Get(Civilian);
      var fromZombie := DeathRate(Zombie).value * p.Get(Zombie);
      fromRaider + fromSurvivalist + fromCivilian + fromZombie
  }

  // ---------------------------------------------------------------------
  // An independent reference for the flows: one flux per ordered pair of
  // compartments, counted once as the source's outflow and once as the
  // destination's inflow.

  /** The flux from `src` to `dst` over one day: side-switching between
      neighbours, infection of the living by zombies, and death. */
  function Flux(p: Levels, src: Group, dst: Group): (f: real)
    ensures NonNegative(p) ==> f >= 0.0
    ensures f != 0.0 ==>
              Neighbours(src, dst) || (Living(src) && dst == Zombie) || (src != Removed && dst == Removed)
  {
    if Neighbours(src, dst) then ExchangeRate(src, dst).value * p.Get(src) * p.Get(dst)
    else if Living(src) && dst == Zombie then ZombieRate(src).value * p.Get(src) * p.Get(Zombie)
    else if src != Removed && dst == Removed then DeathRate(src).value * p.Get(src)
    else 0.0
  }

  function Inflow(p: Levels, g: Group): real
  {
    Flux(p, Raider, g) + Flux(p, Survivalist, g) + Flux(p, Civilian, g)
    + Flux(p, Zombie, g) + Flux(p, Removed, g)
  }

  function Outflow(p: Levels, g: Group): real
  {
    Flux(p, g, Raider) + Flux(p, g, Survivalist) + Flux(p, g, Civilian)
    + Flux(p, g, Zombie) + Flux(p, g, Removed)
  }

  /** Births into `g`; Civilians are born at the Survivalist rate. */
  function Births(p: Levels, g: Group): (b: real)
    ensures !Living(g) ==> b == 0.0
    ensures NonNegative(p) ==> b >= 0.0
  {
    match g
    case Raider => BirthRate(Raider).value * p.Get(Raider)
    case Survivalist => BirthRate(Survivalist).value * p.Get(Survivalist)
    case Civilian => BirthRate(Survivalist).value * p.Get(Civilian)
    case _ => 0.0
  }

  /** The whole population, all five compartments together. */
  function Total(p: Levels): real
  {
    p.raider + p.survivalist + p.civilian + p.zombie + p.removed
  }

  function BirthInflow(p: Levels): real
  {
    Births(p, Raider) + Births(p, Survivalist) + Births(p, Civilian)
    + Births(p, Zombie) + Births(p, Removed)
  }

  // The balance of each compartment, one lemma per compartment so that each
  // proof only unfolds the flux terms of that compartment.

  lemma RaiderBalance(p: Levels)
    ensures StepGroup(p, Raider) == Births(p, Raider) + Inflow(p, Raider) - Outflow(p, Raider)
  {
    assert Inflow(p, Raider) == Flux(p, Survivalist, Raider);
    assert Outflow(p, Raider) == Flux(p, Raider, Survivalist) + Flux(p, Raider, Zombie) + Flux(p, Raider, Removed);
  }

  lemma SurvivalistBalance(p: Levels)
    ensures StepGroup(p, Survivalist) == Births(p, Survivalist) + Inflow(p, Survivalist) - Outflow(p, Survivalist)
  {
    assert Inflow(p, Survivalist) == Flux(p, Raider, Survivalist) + Flux(p, Civilian, Survivalist);
    assert Outflow(p, Survivalist) == Flux(p, Survivalist, Raider) + Flux(p, Survivalist, Civilian)
                                      + Flux(p, Survivalist, Zombie) + Flux(p, Survivalist, Removed);
  }

  lemma CivilianBalance(p: Levels)
    ensures StepGroup(p, Civilian) == Births(p, Civilian) + Inflow(p, Civilian) - Outflow(p, Civilian)
  {
    assert Inflow(p, Civilian) == Flux(p, Survivalist, Civilian);
    assert Outflow(p, Civilian) == Flux(p, Civilian, Survivalist) + Flux(p, Civilian, Zombie) + Flux(p, Civilian, Removed);
  }

  lemma ZombieBalance(p: Levels)
    ensures StepGroup(p, Zombie) == Births(p, Zombie) + Inflow(p, Zombie) - Outflow(p, Zombie)
  {
    assert Inflow(p, Zombie) == Flux(p, Raider, Zombie) + Flux(p, Survivalist, Zombie) + Flux(p, Civilian, Zombie);
    assert Outflow(p, Zombie) == Flux(p, Zombie, Removed);
  }

  lemma RemovedBalance(p: Levels)
    ensures StepGroup(p, Removed) == Births(p, Removed) + Inflow(p, Removed) - Outflow(p, Removed)
  {
    assert Inflow(p, Removed) == Flux(p, Raider, Removed) + Flux(p, Survivalist, Removed)
                                 + Flux(p, Civilian, Removed) + Flux(p, Zombie, Removed);
    assert Outflow(p, Removed) == 0.0;
  }

  /** Every compartment's delta is its births plus what flows in minus what
      flows out, with one flux per ordered pair. */
  lemma StepGroupBalance(p: Levels, g: Group)
    ensures StepGroup(p, g) == Births(p, g) + Inflow(p, g) - Outflow(p, g)
  {
    match g
    case Raider => RaiderBalance(p);
    case Survivalist => SurvivalistBalance(p);
    case Civilian => CivilianBalance(p);
    case Zombie => ZombieBalance(p);
    case Removed => RemovedBalance(p);
  }

  /** Flows between compartments cancel: summed over all compartments the
      deltas are the birth inflow alone. */
  lemma FlowsCancel(p: Levels)
    ensures StepGroup(p, Raider) + StepGroup(p, Survivalist) + StepGroup(p, Civilian)
            + StepGroup(p, Zombie) + StepGroup(p, Removed) == BirthInflow(p)
    ensures BirthInflow(p) == BirthRate(Raider).value * p.Get(Raider)
            + BirthRate(Survivalist).value * (p.Get(Survivalist) + p.Get(Civilian))
  {
    StepGroupBalance(p, Raider);
    StepGroupBalance(p, Survivalist);
    StepGroupBalance(p, Civilian);
    StepGroupBalance(p, Zombie);
    StepGroupBalance(p, Removed);
  }

  // ---------------------------------------------------------------------
  // The day map.

  /** The update table after phase one has visited the compartments of
      `order`, starting from an all-zero table: every visited compartment
      holds its delta, computed from the snapshot `p`. */
  function Updates(p: Levels, order: seq<Group>): (u: Levels)
    decreases |order|
  {
    if order == [] then Levels(0.0, 0.0, 0.0, 0.0, 0.0)
    else
      var g := order[|order| - 1];
      Updates(p, order[..|order| - 1]).Set(g, StepGroup(p, g))
  }

  /** A compartment phase one has visited holds its delta, from the
      snapshot alone; one it has not visited holds zero. */
  lemma {:induction false} UpdatesAt(p: Levels, order: seq<Group>, g: Group)
    ensures Updates(p, order).Get(g) == if g in order then StepGroup(p, g) else 0.0
    decreases |order|
  {
    if order != [] {
      var n := |order| - 1;
      assert order == order[..n] + [order[n]];
      UpdatesAt(p, order[..n], g);
    }
  }

  /** The update table of one day: phase one over the whole visit order. */
  function Deltas(p: Levels): Levels
  {
    Updates(p, Order)
  }

  /** The levels one day later: the deltas of the snapshot `p`, added to
      it one compartment at a time in visit order and clamped at zero. */
  function Next(p: Levels): (q: Levels)
    ensures NonNegative(q)
  {
    OrderIsEnumeration();
    var q := ApplyInOrder(p, Deltas(p), Order);
    assert q.Get(Raider) >= 0.0 && q.Get(Survivalist) >= 0.0 && q.Get(Civilian) >= 0.0
           && q.Get(Zombie) >= 0.0 && q.Get(Removed) >= 0.0;
    q
  }

  /** One compartment of the day map: its snapshot level plus its delta,
      clamped at zero, whatever the other compartments do. */
  lemma NextAt(p: Levels, g: Group)
    ensures Next(p).Get(g) == Max0(p.Get(g) + StepGroup(p, g))
  {
    OrderIsEnumeration();
    UpdatesAt(p, Order, g);
    ApplyInOrderAt(p, Deltas(p), Order, g);
  }

  /** The levels after adding and clamping the updates of the compartments
      in `order`, one after the other, each on top of the previous ones. */
  function ApplyInOrder(p: Levels, updates: Levels, order: seq<Group>): (q: Levels)
    ensures forall g: Group :: g in order ==> q.Get(g) >= 0.0
    decreases |order|
  {
    if order == [] then p
    else
      var g := order[|order| - 1];
      var q := ApplyInOrder(p, updates, order[..|order| - 1]);
      q.Set(g, Max0(q.Get(g) + updates.Get(g)))
  }

  /** Applying along an order that visits no compartment twice changes each
      visited compartment exactly once, from its snapshot level, and leaves
      the others alone. */
  lemma {:induction false} ApplyInOrderAt(p: Levels, updates: Levels, order: seq<Group>, g: Group)
    requires Distinct(order)
    ensures ApplyInOrder(p, updates, order).Get(g) == if g in order then Max0(p.Get(g) + updates.Get(g)) else p.Get(g)
    decreases |order|
  {
    if order != [] {
      var n := |order| - 1;
      var init := order[..n];
      assert order == init + [order[n]];
      assert Distinct(init);
      ApplyInOrderAt(p, updates, init, g);
      if g == order[n] {
        assert g !in init by {
          forall k | 0 <= k < n ensures init[k] != g {
            assert order[k] != order[n];
          }
        }
      }
    }
  }

  /** The levels after `n` days starting from `p`. */
  function Iterate(p: Levels, n: nat): (q: Levels)
    ensures n > 0 || NonNegative(p) ==> NonNegative(q)
    decreases n
  {
    if n == 0 then p else Iterate(Next(p), n - 1)
  }

  /** Running `n` days and then one more is running `n + 1` days. */
  lemma {:induction false} IterateNext(p: Levels, n: nat)
    ensures Iterate(p, n + 1) == Next(Iterate(p, n))
    decreases n
  {
    if n > 0 {
      IterateNext(Next(p), n - 1);
    }
  }

  // ---------------------------------------------------------------------
  // What one day does to the totals and to Removed.

  /** Over one day the total population grows by at least the birth
      inflow, because flows between compartments cancel and clamping at zero
      only adds; when no compartment ends the day at zero, so that no
      clamp took effect, it grows by exactly the birth inflow. */
  lemma MassBalance(p: Levels)
    ensures Total(Next(p)) >= Total(p) + BirthInflow(p)
    ensures (forall g: Group :: Next(p).Get(g) > 0.0) ==> Total(Next(p)) == Total(p) + BirthInflow(p)
  {
    NextAt(p, Raider);
    NextAt(p, Survivalist);
    NextAt(p, Civilian);
    NextAt(p, Zombie);
    NextAt(p, Removed);
    FlowsCancel(p);
  }

  /** From non-negative levels the Removed delta is a sum of non-negative
      death terms, so Removed never decreases and its clamp never fires. */
  lemma RemovedNeverDecreases(p: Levels)
    requires NonNegative(p)
    ensures StepGroup(p, Removed) >= 0.0
    ensures Next(p).Get(Removed) == p.Get(Removed) + StepGroup(p, Removed)
    ensures Next(p).Get(Removed) >= p.Get(Removed)
  {
    NextAt(p, Removed);
  }

  /** Along a whole run from non-negative levels, Removed is monotone. */
  lemma {:induction false} RemovedMonotone(p: Levels, i: nat, j: nat)
    requires NonNegative(p) && i <= j
    ensures Iterate(p, i).Get(Removed) <= Iterate(p, j).Get(Removed)
    decreases j
  {
    if i < j {
      RemovedMonotone(p, i, j - 1);
      RemovedNeverDecreases(Iterate(p, j - 1));
      IterateNext(p, j - 1);
    }
  }

  /** The first day from the seed, worked out from the rate constants. */
  lemma SeedFirstDay()
    ensures Next(Seed()) == Levels(1.000504, 0.998801, 0.999611, 1.0006, 0.00049)
  {
    var p := Seed();
    NextAt(p, Raider);
    assert StepGroup(p, Raider) == 0.000504;
    NextAt(p, Survivalist);
    assert StepGroup(p, Survivalist) == -0.001199;
    NextAt(p, Civilian);
    assert StepGroup(p, Civilian) == -0.000389;
    NextAt(p, Zombie);
    assert StepGroup(p, Zombie) == 0.0006;
    NextAt(p, Removed);
    assert StepGroup(p, Removed) == 0.00049;
    LevelsEqual(Next(p), Levels(1.000504, 0.998801, 0.999611, 1.0006, 0.00049));
  }

  /** The Civilian birth-rate constant never enters the dynamics: births are
      counted with the Survivalist constant, so the birth inflow differs from
      the one the per-compartment constants would give whenever there are
      Civilians. */
  lemma CivilianBirthRateUnused(p: Levels)
    ensures Births(p, Civilian) == BirthRate(Survivalist).value * p.Get(Civilian)
    ensures p.Get(Civilian) != 0.0 ==> Births(p, Civilian) != BirthRate(Civilian).value * p.Get(Civilian)
  {
  }
}
