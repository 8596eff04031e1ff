# Zombie compartment simulation: a verified model of the engine

The engine in `sim/main.py` evolves five population compartments: Raider,
Survivalist, Civilian, Zombie and Removed. It uses forward-Euler days: each
day every compartment's net change is computed from the same snapshot of the
levels, then the changes are applied in dictionary order, each level is
clamped at zero, and the new level is appended to that compartment's
history. The run loop repeats the day until the total absolute change of a
day is below `EPSILON` (10^-6) or a day limit is reached, and reports how
many days it took.

The model has four modules:

- `Groups` (groups.dfy): the compartment enumeration and the dictionary's
  visit order.
- `Params` (params.dfy): the four rate lookups. Each yields `None` for
  undefined cases, as the Python lookups do.
- `Flow` (flow.dfy): the pure dynamics.
  - `StepGroup` is the per-compartment formula.
  - `Flux`, `Inflow`, `Outflow` and `Births` are an independent per-pair
    reference for it.
  - `Updates` is phase one (the update table, every delta from one
    snapshot) and `ApplyInOrder` is phase two (add and clamp, in visit
    order). `Next` is the day map: phase one, then phase two in dictionary
    order. `Iterate` runs it for `n` days.
  - It also covers mass balance, the monotone Removed compartment and the
    seed's first day.
- `Engine` (engine.dfy): the `Sim` class, whose fields `populations` and
  `history` its methods update in place.
  - The two step phases are loops that are proved against the day map.
  - The convergence measure is a loop proved against `Change`.
  - The run loop is proved against `StepsToSettle`. That function is the
    specification of how many days the loop takes. Its stopping rule,
    `StopDay`, is stated and proved over any day-by-day sequence of changes.

Levels are exact reals. Where the source's dictionary always holds the same
five keys, the model uses a record with one field per compartment (`Levels`).

## Model

| member | source | states |
|---|---|---|
| Groups.Position | sim/main.py:69-75 | every compartment has a position in the dictionary's insertion order, and the order holds it there |
| Groups.PositionOfOrder | sim/main.py:69-75 | position and index in the visit order are inverse: the order visits each compartment once |
| Groups.OrderIsEnumeration | sim/main.py:8-13 | the visit order contains every compartment and no compartment twice |
| Params.BirthRate | sim/main.py:18-27 | defined exactly for Raider, Survivalist and Civilian, and non-negative where defined; `None` otherwise |
| Params.DeathRate | sim/main.py:29-40 | defined exactly for every compartment but Removed, and non-negative where defined |
| Params.ZombieRate | sim/main.py:42-51 | defined exactly for the three living compartments, and non-negative where defined |
| Params.ExchangeRate | sim/main.py:53-64 | defined exactly for the four ordered neighbour pairs, and non-negative where defined; `None` for every other pair |
| Flow.Levels.Set | sim/main.py:131-132 | item assignment: the assigned compartment holds the new value and every other compartment keeps its value |
| Flow.SetTwice | sim/main.py:131-132 | the add-then-clamp double assignment of one key leaves only the second value |
| Flow.Seed | sim/main.py:69-75 | the initial table: Removed at 0, every other compartment at 1, all non-negative |
| Flow.Max0 | sim/main.py:132 | `max(x, 0)`: at least 0 and at least x, and equal to one of them |
| Flow.StepGroup | sim/main.py:83-119 | the per-compartment delta, term for term with the source's products of rate and levels; its contract is Flow.StepGroupBalance, which states it as births plus inflow minus outflow of the independent per-pair reference |
| Flow.Flux | sim/main.py:83-119 | a flux between two compartments is non-negative on non-negative levels, and non-zero only for exchange between neighbours, infection of the living or death |
| Flow.Births | sim/main.py:83-107 | only living compartments have births; births are non-negative on non-negative levels |
| Flow.RaiderBalance | sim/main.py:85-91 | the Raider delta is its births plus its inflows minus its outflows, flux by flux |
| Flow.SurvivalistBalance | sim/main.py:92-100 | the Survivalist delta is its births plus its inflows minus its outflows |
| Flow.CivilianBalance | sim/main.py:101-107 | the Civilian delta is its births plus its inflows minus its outflows |
| Flow.ZombieBalance | sim/main.py:108-113 | the Zombie delta is its infections in minus its deaths out, with no births |
| Flow.RemovedBalance | sim/main.py:114-119 | the Removed delta is all death inflow, with no outflow and no births |
| Flow.StepGroupBalance | sim/main.py:83-119 | for every compartment the delta is births plus inflow minus outflow, with one shared flux per ordered pair |
| Flow.FlowsCancel | sim/main.py:83-119 | the five deltas sum to the birth inflow alone: every outflow is matched by an inflow |
| Flow.Updates | sim/main.py:122-127 | the update table after phase one has visited a prefix of the visit order; its contract is Flow.UpdatesAt |
| Flow.Deltas | sim/main.py:122-127 | the update table of one whole step, phase one over the dictionary order; Flow.UpdatesAt gives every entry as that compartment's delta |
| Flow.UpdatesAt | sim/main.py:122-127 | after phase one has visited some compartments, each visited one holds its delta computed from the snapshot alone, and every other holds 0 |
| Flow.Next | sim/main.py:121-133 | the day map (the snapshot's update table applied in dictionary order) never yields a negative level |
| Flow.NextAt | sim/main.py:121-133 | each compartment of the day map is its snapshot level plus its delta from that snapshot, clamped at zero |
| Flow.ApplyInOrder | sim/main.py:130-132 | every compartment the order visits ends non-negative, because each visit clamps it at zero |
| Flow.ApplyInOrderAt | sim/main.py:130-132 | applying updates along an order without repeats changes each visited compartment once, from its snapshot level, and no other |
| Flow.Iterate | sim/main.py:137-139 | after at least one day, or from non-negative levels, every level is non-negative |
| Flow.IterateNext | sim/main.py:137-139 | running n days and then one more is running n + 1 days |
| Flow.MassBalance | sim/main.py:121-133 | over one day the total grows by at least the birth inflow, since flows cancel and the clamp only adds; when no compartment ends the day at zero it grows by exactly the birth inflow |
| Flow.RemovedNeverDecreases | sim/main.py:114-119 | from non-negative levels the Removed delta is non-negative, its clamp never fires and Removed never decreases |
| Flow.RemovedMonotone | sim/main.py:114-119 | along a whole run from non-negative levels, Removed is monotone in the day |
| Flow.SeedFirstDay | sim/main.py:69-119 | from the seed table one day gives Raider 1.000504, Survivalist 0.998801, Civilian 0.999611, Zombie 1.0006, Removed 0.00049 |
| Flow.CivilianBirthRateUnused | sim/main.py:102 | Civilian births, which Flow.CivilianBalance ties to the Civilian delta, use the Survivalist birth rate; the Civilian birth constant is never used, and using it would change the births whenever Civilian is not 0 |
| Engine.ComputeUpdates | sim/main.py:122-127 | the phase-one loop builds the day's update table, which by Flow.UpdatesAt holds every compartment's delta from the one snapshot |
| Engine.VisitOrderIrrelevant | sim/main.py:124-133 | simultaneity: any visit order that covers each compartment once gives the same new levels |
| Engine.VisitedAll | sim/main.py:121-133 | once phase two has added the update table to every compartment and clamped it, the levels are the day map of the snapshot |
| Engine.Abs | sim/main.py:144 | `abs`: non-negative, and zero exactly on zero |
| Engine.PartialChange | sim/main.py:141-144 | the running diff after the loop has visited the first k compartments in dictionary order, which is never negative |
| Engine.Change | sim/main.py:141-144 | the total absolute change between two tables, the running sum over the whole order, is non-negative |
| Engine.ChangeZeroIffUnchanged | sim/main.py:141-146 | the total absolute change is zero if and only if nothing changed |
| Engine.ChangeIsSum | sim/main.py:141-144 | the total absolute change is the sum of the five compartments' absolute changes |
| Engine.TotalChange | sim/main.py:141-144 | the diff loop computes the total absolute change of the step |
| Engine.DayChange | sim/main.py:138-144 | the change measured on a given day of a run is non-negative |
| Engine.StopDay | sim/main.py:137-148 | for any day-by-day changes: a loop that has not stopped before day d stops on day d or later, and no later than the limit unless on day d itself; the stop test is `diff < EPSILON or i >= limit`, with `EPSILON` (`Params.EPSILON`) 10^-6 as at sim/main.py:16 |
| Engine.StepsToSettle | sim/main.py:135-148 | the run loop takes at least one day, since it steps before it tests, and at most `limit` days when the limit is positive |
| Engine.StopDayIs | sim/main.py:146 | if every day from d up to n is unsettled and within the limit, and day n settles or reaches the limit, the loop stops exactly on day n |
| Engine.UnsettledBeforeStop | sim/main.py:146 | every day the loop takes from day d on, before its last, changes the levels by at least EPSILON |
| Engine.StopSettlesOrExhausts | sim/main.py:146 | the day the loop stops on changes the levels by less than EPSILON or has reached the limit |
| Engine.RunsToLimit | sim/main.py:135-148 | if no day within a positive limit settles, the loop takes exactly `limit` steps |
| Engine.FixedPointStays | sim/main.py:137-139 | from a fixed point of the day map every later day has the same levels |
| Engine.Trace | sim/main.py:133 | the history after `days` days has one entry per day plus the initial entry |
| Engine.TraceAt | sim/main.py:77-79 | entry d of a history is the level of day d, and entry 0 is the starting level |
| Engine.TracePrefix | sim/main.py:133 | histories are append-only: the history after fewer days is a prefix of the history after more |
| Engine.PhaseTwoStep | sim/main.py:130-133 | updating the next compartment in visit order extends phase two by that compartment and leaves the others untouched |
| Engine.Sim.HistoryNonNegative | sim/main.py:77-133 | no history entry of any compartment is negative: the run starts from non-negative levels and every later entry is clamped at zero |
| Engine.Sim.constructor | sim/main.py:68-79 | the seed levels, and each history a one-entry list holding the seed level |
| Engine.Sim.Step | sim/main.py:121-133 | the new levels are the day map of the old ones; each history gets exactly one entry appended, equal to the new level; the state stays valid |
| Engine.Sim.ApplyUpdates | sim/main.py:129-133 | every compartment gets its update added and is clamped at zero, and exactly its new level is appended to its history |
| Engine.Sim.Advance | sim/main.py:138-144 | one round of the loop: copy, step and measure; the diff is the total absolute change of that day |
| Engine.Sim.Round | sim/main.py:137-148 | one iteration of the while loop: it stops exactly when the step settles or reaches the limit, and then the run has taken StepsToSettle days |
| Engine.Sim.Simulate | sim/main.py:135-148 | the loop takes exactly StepsToSettle days, ends at the levels of that day and keeps the history valid |

## Left out

- Console output: `Sim.print` and the pretty printer are not modelled. `Simulate` returns the day count where the source prints it.
- Plotting: `Sim.plot`, matplotlib and the `__main__` entry point are not modelled.
- The interactive front end: animation.py is not part of this model.
- Floating point: levels and rates are exact reals, so nothing is claimed about IEEE rounding. The constants in `Flow.SeedFirstDay` are the exact values.
- `simulate` with `limit=None`: an unbounded run may never terminate, so it is not modelled. `limit` is a natural number. A negative limit in the source behaves like 0: one step, then stop. The model covers 0.
- Engine.Sim.ApplyUpdates: the loop updates local copies of the two tables and writes the fields once after the loop. The source writes them once per compartment. No code runs in between, so the difference is not observable.
- The update table is a `Levels` record that starts at zero and is filled compartment by compartment. The source starts from an empty dictionary; the final tables agree.
- Removed is seeded with the integer 0 and `max(..., 0)` may store the integer 0. The model uses the real 0.0, which is equal in value.
- The rates are fixed constants, as in the source. Configurations with other rates, such as all rates zero, are not modelled. Engine.FixedPointStays covers any levels the day map fixes, without exhibiting one.
- An undefined rate lookup returns `None`, and multiplying `None` would raise. The step formulas never look up an undefined rate, so that error path cannot be reached. The model proves this by selecting `.value` only on defined lookups; it has no zero-flow fallback.
