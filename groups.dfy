/** The five compartments of the population model, and the order in which
    the engine's dictionaries visit them. */
module Groups {

  datatype Group = Raider | Survivalist | Civilian | Zombie | Removed

  /** The insertion order of the engine's population dictionary, which is
      the order its loops visit the compartments in. */
  const Order: seq<Group> := [Raider, Survivalist, Civilian, Zombie, Removed]

  /** No compartment is visited twice by a walk along `order`. */
  predicate Distinct(order: seq<Group>)
  {
    forall i, j :: 0 <= i < j < |order| ==> order[i] != order[j]
  }

  /** Where a compartment comes in the visit order. */
  function Position(g: Group): (i: nat)
    ensures i < |Order| && Order[i] == g
  {
    match g
    case Raider => 0
    case Survivalist => 1
    case Civilian => 2
    case Zombie => 3
    case Removed => 4
  }

  /** The visit order covers every compartment exactly once: position and
      index are inverse to each other. */
  lemma PositionOfOrder(i: nat)
    requires i < |Order|
    ensures Position(Order[i]) == i
  {
  }

  /** The visit order covers every compartment exactly once. */
  lemma OrderIsEnumeration()
    ensures (forall g: Group :: g in Order) && Distinct(Order)
  {
    forall g: Group ensures g in Order {
      assert Order[Position(g)] == g;
    }
  }
}
