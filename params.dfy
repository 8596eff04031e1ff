/** The rate table: constant lookups keyed by compartment, or by an ordered
    pair of compartments for exchange. A lookup with no transition behind it
    yields `None`. */
module Params {
  import opened Groups

  datatype Option<T> = None | Some(value: T)

  /** Convergence threshold on the total absolute change of one step. */
  const EPSILON: real := 0.000001

  /** The living compartments: the ones that are born, and that zombies infect. */
  predicate Living(g: Group)
  {
    g == Raider || g == Survivalist || g == Civilian
  }

  /** The four ordered pairs between which people change sides. */
  predicate Neighbours(src: Group, dst: Group)
  {
    || (src == Raider && dst == Survivalist)
    || (src == Survivalist && dst == Raider)
    || (src == Survivalist && dst == Civilian)
    || (src == Civilian && dst == Survivalist)
  }

  function BirthRate(g: Group): (r: Option<real>)
    ensures r.Some? <==> Living(g)
    ensures r.Some? ==> r.value >= 0.0
  {
    match g
    case Raider => Some(0.000004)
    case Survivalist => Some(0.000001)
    case Civilian => Some(0.000016)
    case _ => None
  }

  function DeathRate(g: Group): (r: Option<real>)
    ensures r.Some? <==> g != Removed
    ensures r.Some? ==> r.value >= 0.0
  {
    match g
    case Raider => Some(0.0001)
    case Survivalist => Some(0.0003)
    case Civilian => Some(0.00006)
    case Zombie => Some(0.00003)
    case _ => None
  }

  function ZombieRate(g: Group): (r: Option<real>)
    ensures r.Some? <==> Living(g)
    ensures r.Some? ==> r.value >= 0.0
  {
    match g
    case Raider => Some(0.0002)
    case Survivalist => Some(0.0004)
    case Civilian => Some(0.00003)
    case _ => None
  }

  function ExchangeRate(src: Group, dst: Group): (r: Option<real>)
    ensures r.Some? <==> Neighbours(src, dst)
    ensures r.Some? ==> r.value >= 0.0
  {
    match (src, dst)
    case (Raider, Survivalist) => Some(0.0)
    case (Survivalist, Raider) => Some(0.0008)
    case (Survivalist, Civilian) => Some(0.0)
    case (Civilian, Survivalist) => Some(0.0003)
    case _ => None
  }
}
