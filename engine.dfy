/** The simulation engine: a population table and its per-compartment
    history, advanced one day at a time by a two-phase step, and a run loop
    that stops on convergence or at a day limit. */
module Engine {
  import opened Groups
  import opened Params
  import opened Flow

  // ---------------------------------------------------------------------
  // Phase 1 of a step: every delta, from one snapshot.

  /** Fills the update table compartment by compartment, in dictionary
      order. The snapshot is a value, so no delta can see another
      compartment's new level. */
  method ComputeUpdates(snapshot: Levels) returns (updates: Levels)
    ensures updates == Deltas(snapshot)
  {
    updates := Levels(0.0, 0.0, 0.0, 0.0, 0.0);
    for i := 0 to |Order|
      invariant updates == Updates(snapshot, Order[..i])
    {
      var g := Order[i];
      assert Order[..i + 1][..i] == Order[..i];
      updates := updates.Set(g, StepGroup(snapshot, g));
    }
    assert Order[..|Order|] == Order;
  }

  // ---------------------------------------------------------------------
  // Phase 2 of a step: apply the updates one compartment at a time.

  /** Simultaneity: whatever order the compartments are visited in, as long
      as each is visited once, the result is every level updated from the
      snapshot. */
  lemma VisitOrderIrrelevant(p: Levels, updates: Levels, order1: seq<Group>, order2: seq<Group>)
    requires Distinct(order1) && forall g: Group :: g in order1
    requires Distinct(order2) && forall g: Group :: g in order2
    ensures ApplyInOrder(p, updates, order1) == ApplyInOrder(p, updates, order2)
  {
    var q1 := ApplyInOrder(p, updates, order1);
    var q2 := ApplyInOrder(p, updates, order2);
    forall g: Group ensures q1.Get(g) == q2.Get(g) {
      ApplyInOrderAt(p, updates, order1, g);
      ApplyInOrderAt(p, updates, order2, g);
    }
    LevelsEqual(q1, q2);
  }

  /** Once phase 2 has visited every compartment, the table holds the day
      map of the snapshot. */
  lemma VisitedAll(snapshot: Levels, q: Levels)
    requires forall g: Group :: q.Get(g) == Max0(snapshot.Get(g) + Deltas(snapshot).Get(g))
    ensures q == Next(snapshot)
  {
    forall g: Group ensures q.Get(g) == Next(snapshot).Get(g) {
      NextAt(snapshot, g);
      OrderIsEnumeration();
      UpdatesAt(snapshot, Order, g);
    }
    LevelsEqual(q, Next(snapshot));
  }

  // ---------------------------------------------------------------------
  // Convergence measure and the run loop's specification.

  function Abs(x: real): (r: real)
    ensures r >= 0.0 && (r == 0.0 <==> x == 0.0)
  {
    if x < 0.0 then -x else x
  }

  /** The running sum of |after - before| over the first `k` compartments
      of the visit order, as the run loop accumulates it. */
  function PartialChange(before: Levels, after: Levels, k: nat): (r: real)
    requires k <= |Order|
    ensures r >= 0.0
  {
    if k == 0 then 0.0
    else PartialChange(before, after, k - 1) + Abs(after.Get(Order[k - 1]) - before.Get(Order[k - 1]))
  }

  /** The total absolute change between two level tables: the running sum
      over the whole visit order. */
  function Change(before: Levels, after: Levels): (r: real)
    ensures r >= 0.0
  {
    PartialChange(before, after, |Order|)
  }

  /** The total absolute change is the sum of the five compartments'
      absolute changes. */
  lemma ChangeIsSum(before: Levels, after: Levels)
    ensures Change(before, after) ==
      Abs(after.raider - before.raider) + Abs(after.survivalist - before.survivalist)
      + Abs(after.civilian - before.civilian) + Abs(after.zombie - before.zombie)
      + Abs(after.removed - before.removed)
  {
    assert PartialChange(before, after, 1) == Abs(after.raider - before.raider);
    assert PartialChange(before, after, 3) == PartialChange(before, after, 1)
      + Abs(after.survivalist - before.survivalist) + Abs(after.civilian - before.civilian);
    assert PartialChange(before, after, 5) == PartialChange(before, after, 3)
      + Abs(after.zombie - before.zombie) + Abs(after.removed - before.removed);
  }

  /** The total absolute change is zero exactly when nothing changed. */
  lemma ChangeZeroIffUnchanged(before: Levels, after: Levels)
    ensures Change(before, after) == 0.0 <==> before == after
  {
    ChangeIsSum(before, after);
  }

  /** Sums |after - before| compartment by compartment in dictionary order,
      as the run loop does after every step. */
  method TotalChange(before: Levels, after: Levels) returns (diff: real)
    ensures diff == Change(before, after)
  {
    diff := 0.0;
    for k := 0 to |Order|
      invariant diff == PartialChange(before, after, k)
    {
      var g := Order[k];
      diff := diff + Abs(after.Get(g) - before.Get(g));
    }
  }

  /** The total absolute change made by day `d` of a run from `p`; day 0,
      the seed, made none. */
  function DayChange(p: Levels, d: nat): (r: real)
    ensures r >= 0.0
  {
    if d == 0 then 0.0 else Change(Iterate(p, d - 1), Iterate(p, d))
  }

  /** The changes of a whole run from `p`, day by day. */
  function DayChanges(p: Levels): nat -> real
  {
    (d: nat) => DayChange(p, d)
  }

  // The run loop's stopping rule depends on the dynamics only through the
  // change each day makes, so it is stated over any sequence of changes `c`,
  // with `c(d)` the change made by day `d`.

  /** The day on which the loop stops, given that it has not stopped before
      day `d`: the first day from `d` on whose change is below EPSILON or
      which has reached `limit`. */
  function StopDay(c: nat -> real, limit: nat, d: nat): (n: nat)
    requires d >= 1
    ensures d <= n && (n <= limit || n == d)
    decreases limit - d
  {
    if c(d) < EPSILON || d >= limit then d
    else StopDay(c, limit, d + 1)
  }

  /** The number of steps the run loop takes from levels `p` with day limit
      `limit`: at least one, since the loop steps before it tests, and at
      most `limit` once the limit is positive. */
  function StepsToSettle(p: Levels, limit: nat): (n: nat)
    ensures 1 <= n && (n <= limit || n == 1)
  {
    StopDay(DayChanges(p), limit, 1)
  }

  /** A loop that has not stopped before day `d`, whose days from `d` up to
      `n` are all unsettled and within the limit, stops on day `n` if that
      day settles or reaches the limit. */
  lemma {:induction false} StopDayIs(c: nat -> real, limit: nat, d: nat, n: nat)
    requires 1 <= d <= n
    requires forall j: nat :: d <= j < n ==> c(j) >= EPSILON && j < limit
    requires c(n) < EPSILON || n >= limit
    ensures StopDay(c, limit, d) == n
    decreases n - d
  {
    if d < n {
      StopDayIs(c, limit, d + 1, n);
    }
  }

  /** Every day the loop takes from day `d` on, before its last, changes
      the levels by at least EPSILON. */
  lemma {:induction false} UnsettledBeforeStop(c: nat -> real, limit: nat, d: nat)
    requires d >= 1
    ensures forall j :: d <= j < StopDay(c, limit, d) ==> c(j) >= EPSILON
    decreases limit - d
  {
    if !(c(d) < EPSILON || d >= limit) {
      UnsettledBeforeStop(c, limit, d + 1);
    }
  }

  /** The day the loop stops on changes the levels by less than EPSILON or
      reaches the limit. */
  lemma {:induction false} StopSettlesOrExhausts(c: nat -> real, limit: nat, d: nat)
    requires d >= 1
    ensures StopDay(c, limit, d) >= limit || c(StopDay(c, limit, d)) < EPSILON
    decreases limit - d
  {
    if !(c(d) < EPSILON || d >= limit) {
      StopSettlesOrExhausts(c, limit, d + 1);
    }
  }

  /** If no day within the limit settles, the loop takes exactly `limit`
      steps. */
  lemma RunsToLimit(c: nat -> real, limit: nat)
    requires limit >= 1
    requires forall j :: 1 <= j <= limit ==> c(j) >= EPSILON
    ensures StopDay(c, limit, 1) == limit
  {
    StopSettlesOrExhausts(c, limit, 1);
  }

  /** A fixed point of the day map stays put for the whole run. */
  lemma {:induction false} FixedPointStays(p: Levels, n: nat)
    requires Next(p) == p
    ensures Iterate(p, n) == p
  {
    if n > 0 {
      FixedPointStays(p, n - 1);
      IterateNext(p, n - 1);
    }
  }

  // ---------------------------------------------------------------------
  // The engine object.

  /** The history of compartment `g` after `days` days of a run from
      `start`: its level on every day so far, oldest first. */
  function Trace(start: Levels, g: Group, days: nat): (t: seq<real>)
    ensures |t| == days + 1
  {
    if days == 0 then [start.Get(g)] else Trace(start, g, days - 1) + [Iterate(start, days).Get(g)]
  }

  /** Entry `d` of a history is the level on day `d`; in particular the
      first entry is the starting level. */
  lemma {:induction false} TraceAt(start: Levels, g: Group, days: nat, d: nat)
    requires d <= days
    ensures Trace(start, g, days)[d] == Iterate(start, d).Get(g)
    ensures Trace(start, g, days)[0] == start.Get(g)
  {
    if d < days {
      TraceAt(start, g, days - 1, d);
    }
    if 0 < days {
      TraceAt(start, g, days - 1, 0);
    }
  }

  /** Histories only grow: the history after fewer days is a prefix of the
      history after more. */
  lemma {:induction false} TracePrefix(start: Levels, g: Group, days: nat, days': nat)
    requires days <= days'
    ensures Trace(start, g, days) <= Trace(start, g, days')
    decreases days'
  {
    if days < days' {
      TracePrefix(start, g, days, days' - 1);
    }
  }

  /** Phase two of a step after the first `i` compartments of the visit
      order: those hold their clamped new level, with that level appended to
      their history; the others are untouched. */
  ghost predicate PhaseTwoAt(levels0: Levels, history0: map<Group, seq<real>>, updates: Levels,
                             i: nat, levels: Levels, history: map<Group, seq<real>>)
  {
    && (forall g: Group :: levels.Get(g) ==
          if Position(g) < i then Max0(levels0.Get(g) + updates.Get(g)) else levels0.Get(g))
    && (forall g: Group :: g in history0 && g in history && history[g] ==
          if Position(g) < i then history0[g] + [levels.Get(g)] else history0[g])
  }

  /** Updating the next compartment in visit order extends phase two by one
      compartment. */
  lemma PhaseTwoStep(levels0: Levels, history0: map<Group, seq<real>>, updates: Levels, i: nat,
                     levels: Levels, history: map<Group, seq<real>>,
                     levels': Levels, history': map<Group, seq<real>>)
    requires i < |Order| && PhaseTwoAt(levels0, history0, updates, i, levels, history)
    requires levels' == levels.Set(Order[i], Max0(levels.Get(Order[i]) + updates.Get(Order[i])))
    requires history' == history[Order[i] := history[Order[i]] + [levels'.Get(Order[i])]]
    ensures PhaseTwoAt(levels0, history0, updates, i + 1, levels', history')
  {
    var next := Order[i];
    PositionOfOrder(i);
    forall g: Group
      ensures levels'.Get(g) ==
                if Position(g) < i + 1 then Max0(levels0.Get(g) + updates.Get(g)) else levels0.Get(g)
    {
      if g != next {
        assert levels'.Get(g) == levels.Get(g);
      }
    }
    forall g: Group
      ensures g in history0 && g in history' && history'[g] ==
                if Position(g) < i + 1 then history0[g] + [levels'.Get(g)] else history0[g]
    {
      if g != next {
        assert levels'.Get(g) == levels.Get(g);
        assert history'[g] == history[g];
      }
    }
  }

  class Sim {
    var populations: Levels
    var history: map<Group, seq<real>>
    /** The levels the run started from. */
    ghost var start: Levels

    /** Every history has one entry per day so far, holding the levels of
        those days, and the current levels are those of the last day. The
        run started from non-negative levels. */
    ghost predicate Valid()
      reads this
    {
      && NonNegative(start)
      && Raider in history
      && |history[Raider]| >= 1
      && (forall g: Group :: g in history && history[g] == Trace(start, g, |history[Raider]| - 1))
      && populations == Iterate(start, |history[Raider]| - 1)
    }

    /** No history ever records a negative level: the start is
        non-negative, and every later day is clamped at zero. */
    lemma HistoryNonNegative()
      requires Valid()
      ensures forall g: Group, d :: 0 <= d < |history[g]| ==> history[g][d] >= 0.0
    {
      forall g: Group, d | 0 <= d < |history[g]| ensures history[g][d] >= 0.0 {
        TraceAt(start, g, Days(), d);
      }
    }

    /** The number of days simulated so far. */
    function Days(): nat
      reads this
      requires Valid()
    {
      |history[Raider]| - 1
    }

    constructor ()
      ensures Valid() && Days() == 0
      ensures start == populations == Seed()
      ensures forall g: Group :: history[g] == [Seed().Get(g)]
    {
      populations := Seed();
      start := populations;
      history := map[];
      new;
      for i := 0 to |Order|
        modifies this`history
        invariant populations == Seed()
        invariant forall g: Group :: Position(g) < i ==> g in history && history[g] == [populations.Get(g)]
      {
        var g := Order[i];
        PositionOfOrder(i);
        history := history[g := [populations.Get(g)]];
      }
    }

    /** One simulated day: all deltas from the pre-step snapshot, then each
        level updated, clamped at zero and appended to its history. */
    method Step()
      requires Valid()
      modifies this`populations, this`history
      ensures Valid() && Days() == old(Days()) + 1
      ensures populations == Next(old(populations))
      ensures forall g: Group :: history[g] == old(history[g]) + [populations.Get(g)]
    {
      var snapshot := populations;
      var updates := ComputeUpdates(snapshot);
      ApplyUpdates(updates);
      VisitedAll(snapshot, populations);
      ghost var days := old(Days());
      IterateNext(start, days);
      ghost var today := Iterate(start, days + 1);
      assert populations == today;
      forall g: Group ensures history[g] == Trace(start, g, days + 1) {
        assert Trace(start, g, days + 1) == Trace(start, g, days) + [today.Get(g)];
      }
      assert |history[Raider]| - 1 == days + 1;
    }

    /** Phase two of a step: every compartment, in visit order, gets its
        change added, is clamped at zero and has its new level appended to
        its history. */
    method ApplyUpdates(updates: Levels)
      requires forall g: Group :: g in history
      modifies this`populations, this`history
      ensures forall g: Group :: populations.Get(g) == Max0(old(populations.Get(g)) + updates.Get(g))
      ensures forall g: Group :: g in history && history[g] == old(history[g]) + [populations.Get(g)]
    {
      var levels, hist := populations, history;
      for i := 0 to |Order|
        invariant PhaseTwoAt(old(populations), old(history), updates, i, levels, hist)
      {
        var g := Order[i];
        ghost var levels0, hist0 := levels, hist;
        levels := levels.Set(g, levels.Get(g) + updates.Get(g));
        levels := levels.Set(g, Max0(levels.Get(g)));
        SetTwice(levels0, g, levels0.Get(g) + updates.Get(g), levels.Get(g));
        hist := hist[g := hist[g] + [levels.Get(g)]];
        PhaseTwoStep(old(populations), old(history), updates, i, levels0, hist0, levels, hist);
      }
      populations, history := levels, hist;
    }

    /** One round of the run loop: copies the levels, steps, and measures
        the total absolute change the step made. */
    method Advance(ghost first: Levels, ghost d: nat) returns (diff: real)
      requires Valid() && populations == Iterate(first, d)
      modifies this`populations, this`history
      ensures Valid() && Days() == old(Days()) + 1
      ensures populations == Iterate(first, d + 1)
      ensures diff == DayChanges(first)(d + 1)
    {
      var before := populations;
      Step();
      IterateNext(first, d);
      assert populations == Iterate(first, d + 1);
      diff := TotalChange(before, populations);
      assert DayChanges(first)(d + 1) == DayChange(first, d + 1);
    }

    /** One round of the run loop, which has taken `steps` unsettled steps
        so far: steps once more and reports whether the loop stops here,
        because this step changed the levels by less than EPSILON or the
        limit is reached. */
    method Round(ghost first: Levels, steps: nat, limit: nat) returns (stop: bool)
      requires Valid() && populations == Iterate(first, steps)
      requires steps < limit || steps == 0
      requires forall j :: 1 <= j <= steps ==> DayChanges(first)(j) >= EPSILON
      modifies this`populations, this`history
      ensures Valid() && Days() == old(Days()) + 1
      ensures populations == Iterate(first, steps + 1)
      ensures stop ==> StepsToSettle(first, limit) == steps + 1
      ensures !stop ==> steps + 1 < limit && forall j :: 1 <= j <= steps + 1 ==> DayChanges(first)(j) >= EPSILON
    {
      var diff := Advance(first, steps);
      ghost var c := DayChanges(first);
      assert c(steps + 1) == diff;
      stop := diff < EPSILON || steps + 1 >= limit;
      if stop {
        StopDayIs(c, limit, 1, steps + 1);
      } else {
        assert forall j :: 1 <= j <= steps + 1 ==> c(j) >= EPSILON;
      }
    }

    /** Steps until the total absolute change of a step is below EPSILON or
        `limit` steps have been taken, and returns the number of steps. */
    method Simulate(limit: nat) returns (steps: nat)
      requires Valid()
      modifies this`populations, this`history
      ensures Valid()
      ensures steps == StepsToSettle(old(populations), limit)
      ensures Days() == old(Days()) + steps
      ensures populations == Iterate(old(populations), steps)
    {
      ghost var first, days0 := populations, Days();
      steps := 0;
      while true
        invariant Valid()
        invariant steps < limit || steps == 0
        invariant Days() == days0 + steps
        invariant populations == Iterate(first, steps)
        invariant forall j :: 1 <= j <= steps ==> DayChanges(first)(j) >= EPSILON
        decreases limit + 1 - steps
      {
        var stop := Round(first, steps, limit);
        steps := steps + 1;
        if stop {
          return;
        }
      }
    }
  }
}
