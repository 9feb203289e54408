/**
 * The scripted build-order agent for the build-marines minigame: two supply depots, then seven
 * barracks, then fifty marines, then marines are killed off. After a building order it waits a
 * fixed number of calls. The minerals of each observation are given as a number.
 */
module TestAgent {

  /** The build-marines actions the agent chooses from. */
  datatype Order = NoOp | BuildDepot | BuildBarracks | MakeMarine | KillMarine

  const MineralThreshold: int := 150
  const MaxDepots: nat := 2
  const MaxBarracks: nat := 7
  const MaxMarines: nat := 50
  const DepotWait: nat := 80
  const BarracksWait: nat := 120
  const InitialScvs: nat := 12

  /** The agent's counters and the number of calls still to wait. */
  datatype Plan = Plan(depots: nat, barracks: nat, marines: nat, scvs: nat, wait: nat)

  const Initial: Plan := Plan(0, 0, 0, InitialScvs, 0)

  /** The bounds every call keeps. */
  predicate Bounded(p: Plan)
  {
    p.depots <= MaxDepots && p.barracks <= MaxBarracks && p.marines <= MaxMarines
  }

  /** How many counters went up from `p` to `q`. */
  function Raised(p: Plan, q: Plan): nat
  {
    (if q.depots != p.depots then 1 else 0) + (if q.barracks != p.barracks then 1 else 0) + (if q.marines != p.marines then 1 else 0)
  }

  /** One `_sample` call with `minerals` minerals: the new counters and the action. */
  function Step(p: Plan, minerals: int): (r: (Plan, Order))
    ensures Bounded(p) ==> Bounded(r.0)
    ensures r.0.scvs == p.scvs
    ensures Raised(p, r.0) <= 1
    ensures r.0.depots == p.depots + (if r.1 == BuildDepot then 1 else 0)
    ensures r.0.barracks == p.barracks + (if r.1 == BuildBarracks then 1 else 0)
    ensures r.0.marines == p.marines + (if r.1 == MakeMarine then 1 else 0)
    ensures r.1 == NoOp <==> p.wait > 0 || minerals < MineralThreshold
    ensures r.0.wait == (if r.1 == BuildDepot then DepotWait else if r.1 == BuildBarracks then BarracksWait else if p.wait > 0 then p.wait - 1 else 0)
    ensures r.1 == BuildBarracks ==> p.depots >= MaxDepots
    ensures r.1 == MakeMarine ==> p.depots >= MaxDepots && p.barracks >= MaxBarracks
    ensures r.1 == KillMarine ==> p.depots >= MaxDepots && p.barracks >= MaxBarracks && p.marines >= MaxMarines
    ensures r.1 != NoOp && p.depots < MaxDepots ==> r.1 == BuildDepot
  {
    if p.wait > 0 then (p.(wait := p.wait - 1), NoOp)
    else if minerals < MineralThreshold then (p, NoOp)
    else if p.depots < MaxDepots then (p.(depots := p.depots + 1, wait := DepotWait), BuildDepot)
    else if p.barracks < MaxBarracks then (p.(barracks := p.barracks + 1, wait := BarracksWait), BuildBarracks)
    else if p.marines < MaxMarines then (p.(marines := p.marines + 1), MakeMarine)
    else (p, KillMarine)
  }

  /** Calls in a row, one per observation's minerals: the final counters and the actions. */
  function Run(p: Plan, minerals: seq<int>): (r: (Plan, seq<Order>))
    ensures |r.1| == |minerals|
    decreases |minerals|
  {
    if minerals == [] then (p, [])
    else
      var (q, a) := Step(p, minerals[0]);
      var (f, rest) := Run(q, minerals[1..]);
      (f, [a] + rest)
  }

  /** Running two stretches of calls is running their concatenation. */
  lemma {:induction false} RunAppend(p: Plan, xs: seq<int>, ys: seq<int>)
    ensures Run(p, xs + ys).0 == Run(Run(p, xs).0, ys).0
    ensures Run(p, xs + ys).1 == Run(p, xs).1 + Run(Run(p, xs).0, ys).1
    decreases |xs|
  {
    if xs == [] {
      assert xs + ys == ys;
    } else {
      assert (xs + ys)[1..] == xs[1..] + ys;
      RunAppend(Step(p, xs[0]).0, xs[1..], ys);
    }
  }

  /** While waiting, every call is a no-op that only counts the wait down, whatever the minerals. */
  lemma {:induction false} Waiting(p: Plan, xs: seq<int>)
    requires |xs| <= p.wait
    ensures Run(p, xs).0 == p.(wait := p.wait - |xs|)
    ensures forall k :: 0 <= k < |xs| ==> Run(p, xs).1[k] == NoOp
    decreases |xs|
  {
    if xs != [] {
      Waiting(p.(wait := p.wait - 1), xs[1..]);
    }
  }

  /** Every call sees at least the minerals one order costs. */
  predicate Rich(xs: seq<int>)
  {
    forall k :: 0 <= k < |xs| ==> xs[k] >= MineralThreshold
  }

  /** A counter is only started once the ones before it are full, as the priority order makes sure. */
  predicate InOrder(p: Plan)
  {
    && Bounded(p)
    && (p.barracks > 0 ==> p.depots == MaxDepots)
    && (p.marines > 0 ==> p.barracks == MaxBarracks)
  }

  /** Calls still needed, with enough minerals each time, to reach the full build order. */
  function Remaining(p: Plan): nat
    requires Bounded(p)
  {
    (MaxDepots - p.depots) * (1 + DepotWait) + (MaxBarracks - p.barracks) * (1 + BarracksWait) + (MaxMarines - p.marines)
  }

  /** One order and its wait: the counter goes up by one and nothing is left to wait for. */
  lemma Round(p: Plan, xs: seq<int>, w: nat)
    requires p.wait == 0 && |xs| == 1 + w && xs[0] >= MineralThreshold
    requires Step(p, xs[0]).0.wait == w
    ensures Run(p, xs).0 == Step(p, xs[0]).0.(wait := 0)
  {
    Waiting(Step(p, xs[0]).0, xs[1..]);
  }

  /**
   * With enough minerals at every call, the agent completes the build order in exactly the
   * remaining number of calls and then has nothing left to wait for.
   */
  lemma {:induction false} BuildOrderCompletes(p: Plan, xs: seq<int>)
    requires InOrder(p) && p.wait == 0 && Rich(xs) && |xs| == Remaining(p)
    ensures Run(p, xs).0 == Plan(MaxDepots, MaxBarracks, MaxMarines, p.scvs, 0)
    decreases Remaining(p)
  {
    if xs != [] {
      var w := if p.depots < MaxDepots then DepotWait else if p.barracks < MaxBarracks then BarracksWait else 0;
      var head, tail := xs[..1 + w], xs[1 + w..];
      assert xs == head + tail;
      Round(p, head, w);
      RunAppend(p, head, tail);
      BuildOrderCompletes(Step(p, xs[0]).0.(wait := 0), tail);
    }
  }

  /** From the start, 1059 rich calls complete the build order and the next call kills a marine. */
  lemma FromTheStart(xs: seq<int>, minerals: int)
    requires Rich(xs) && |xs| == 2 * 81 + 7 * 121 + 50 && minerals >= MineralThreshold
    ensures Run(Initial, xs).0 == Plan(MaxDepots, MaxBarracks, MaxMarines, InitialScvs, 0)
    ensures Step(Run(Initial, xs).0, minerals).1 == KillMarine
  {
    BuildOrderCompletes(Initial, xs);
  }

  /** `TestAgent`: the counters as fields, updated by each call. */
  class TestAgent {
    var numDepots: nat
    var numBarracks: nat
    var numMarines: nat
    var numScvs: nat
    var wait: nat

    function State(): Plan
      reads this
    {
      Plan(numDepots, numBarracks, numMarines, numScvs, wait)
    }

    ghost predicate Valid()
      reads this
    {
      Bounded(State())
    }

    /** `__init__`: no buildings or marines, twelve workers, nothing to wait for. */
    constructor ()
      ensures Valid() && State() == Initial
    {
      numDepots := 0;
      numBarracks := 0;
      numMarines := 0;
      numScvs := InitialScvs;
      wait := 0;
    }

    /** `_sample`: the next action for an observation with `minerals` minerals. */
    method Sample(minerals: int) returns (a: Order)
      requires Valid()
      modifies this
      ensures Valid()
      ensures (State(), a) == Step(old(State()), minerals)
    {
      if wait > 0 {
        wait := wait - 1;
        return NoOp;
      }
      if minerals < MineralThreshold {
        return NoOp;
      }
      if numDepots < MaxDepots {
        numDepots := numDepots + 1;
        wait := DepotWait;
        return BuildDepot;
      }
      if numBarracks < MaxBarracks {
        numBarracks := numBarracks + 1;
        wait := BarracksWait;
        return BuildBarracks;
      }
      if numMarines < MaxMarines {
        numMarines := numMarines + 1;
        return MakeMarine;
      }
      return KillMarine;
    }
  }
}
