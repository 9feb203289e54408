/**
 * The BuildMarines environment wrapper: runs one agent action to completion, then the scripted
 * helpers (rally idle workers, make an SCV, kill a marine) until none of them wants to run,
 * accumulating the reward of every frame it steps through and latching the terminal flag.
 *
 * The game is a script of responses consumed one per step; the build actuator is reduced to
 * the command it issues and to its `in_progress` flag, which the frame it reads decides.
 */
module BuildMarinesEnv {
  import opened Common

  /** pysc2 unit type ids. */
  const CommandCenter: int := 18
  const Barracks: int := 21
  /** Screen pixels covered by one barracks. */
  const PixelsPerRax: int := 110

  /** The actuator's constants: SCV and marine costs, and the worker cap. */
  datatype Costs = Costs(scvCost: int, marineCost: int, maxScvs: int)

  /** The fields of an observation the wrapper and its helpers read. */
  datatype Frame = Frame(
    reward: real, last: bool,
    idleWorkers: int, minerals: int, foodUsed: int, foodCap: int, foodWorkers: int, foodArmy: int,
    singleSelect: seq<int>,   // unit types of the single-selection panel
    buildQueue: nat,          // length of the build queue
    unitTypeScreen: seq<int>, // the unit-type feature layer, flattened
    busy: bool)               // whether an actuator reading this frame keeps its order in progress

  /** What the game answers to one step: a frame, or a lost connection after which the game was reset. */
  datatype Response = Delivered(frame: Frame) | ConnectionLost(resetFrame: Frame)

  function FrameOf(r: Response): Frame
  {
    match r
    case Delivered(f) => f
    case ConnectionLost(f) => f
  }

  /** The helper actions, and an agent action by its enum code. */
  datatype BuildAction = RallyScvs | MakeScv | KillMarine | AgentAction(code: int)

  /** The raw command the actuator issues for an action. */
  datatype RawCommand = RawCommand(action: BuildAction)

  function Rewards(rs: seq<Response>): real
  {
    if rs == [] then 0.0 else Rewards(rs[..|rs| - 1]) + FrameOf(rs[|rs| - 1]).reward
  }

  predicate AnyLast(rs: seq<Response>)
  {
    exists k :: 0 <= k < |rs| && FrameOf(rs[k]).last
  }

  lemma RewardsSnoc(rs: seq<Response>, r: Response)
    ensures Rewards(rs + [r]) == Rewards(rs) + FrameOf(r).reward
  {
    assert (rs + [r])[..|rs|] == rs;
  }

  lemma AnyLastSnoc(rs: seq<Response>, r: Response)
    ensures AnyLast(rs + [r]) <==> AnyLast(rs) || FrameOf(r).last
  {
    if FrameOf(r).last {
      assert FrameOf((rs + [r])[|rs|]).last;
    }
    if AnyLast(rs) {
      var k :| 0 <= k < |rs| && FrameOf(rs[k]).last;
      assert FrameOf((rs + [r])[k]).last;
    }
  }

  /** The responses consumed so far, given the script before and after. */
  function Consumed(before: seq<Response>, after: seq<Response>): seq<Response>
    requires |after| <= |before|
  {
    before[..|before| - |after|]
  }

  // ---------------------------------------------------------------------------
  // Helper predicates

  /** `_should_make_scv`; reading the selected unit of an empty single-selection panel fails. */
  function ShouldMakeScv(f: Frame, costs: Costs): (r: Result<bool>)
    ensures r == Ok(true) ==> f.minerals >= costs.scvCost && f.foodUsed != f.foodCap && f.foodWorkers < costs.maxScvs
    ensures r.Fail? ==> f.singleSelect == []
    ensures f.minerals < costs.scvCost || f.foodUsed == f.foodCap || f.foodWorkers >= costs.maxScvs ==> r == Ok(false)
    ensures r == Ok(false) && f.minerals >= costs.scvCost && f.foodUsed != f.foodCap && f.foodWorkers < costs.maxScvs ==>
      f.singleSelect != [] && f.singleSelect[0] == CommandCenter && f.buildQueue > 0
  {
    if f.minerals < costs.scvCost || f.foodUsed == f.foodCap || f.foodWorkers >= costs.maxScvs then Ok(false)
    else if f.singleSelect == [] then Fail("index 0 is out of bounds for the single-selection panel")
    else if f.singleSelect[0] != CommandCenter then Ok(true)
    else Ok(f.buildQueue == 0)
  }

  function CountOf(s: seq<int>, v: int): (n: nat)
    ensures n <= |s|
  {
    if s == [] then 0 else CountOf(s[..|s| - 1], v) + (if s[|s| - 1] == v then 1 else 0)
  }

  /** Army food minus the barracks, which the screen shows as 110 pixels each. */
  function MarineCount(f: Frame): int
  {
    f.foodArmy - CountOf(f.unitTypeScreen, Barracks) / PixelsPerRax
  }

  /** `_should_kill_marine`: at least two marines, and either too few minerals for another or supply capped. */
  function ShouldKillMarine(f: Frame, costs: Costs): (r: bool)
    ensures r <==> MarineCount(f) >= 2 && (f.minerals < costs.marineCost || f.foodUsed == f.foodCap)
  {
    var numRax := CountOf(f.unitTypeScreen, Barracks) / PixelsPerRax;
    var numMarines := f.foodArmy - numRax;
    var multipleMarines := numMarines >= 2;
    var fewMinerals := f.minerals < costs.marineCost;
    var capped := f.foodUsed == f.foodCap;
    multipleMarines && (fewMinerals || capped)
  }

  /** More barracks on the screen never make the kill helper more eager. */
  lemma {:induction false} MoreBarracksNeverKillMore(f: Frame, g: Frame, costs: Costs)
    requires g == f.(unitTypeScreen := g.unitTypeScreen)
    requires CountOf(f.unitTypeScreen, Barracks) <= CountOf(g.unitTypeScreen, Barracks)
    ensures ShouldKillMarine(g, costs) ==> ShouldKillMarine(f, costs)
  {
  }

  predicate IsHelper(a: BuildAction)
  {
    a in {RallyScvs, MakeScv, KillMarine}
  }

  /** Whether a frame makes some enabled helper want to run. */
  predicate HelperWanted(f: Frame, costs: Costs, scvHelper: bool, killHelper: bool)
  {
    f.idleWorkers > 0
    || (scvHelper && ShouldMakeScv(f, costs) == Ok(true))
    || (killHelper && ShouldKillMarine(f, costs))
  }

  // ---------------------------------------------------------------------------
  // How many of the game's responses each stage consumes

  /** A count moved on by `k`; a failure stays one. */
  function Shift(r: Result<nat>, k: nat): (s: Result<nat>)
    ensures s.Ok? <==> r.Ok?
    ensures s.Ok? ==> s.value == r.value + k
  {
    match r
    case Ok(n) => Ok(n + k)
    case Fail(e) => Fail(e)
  }

  lemma ShiftAdd(r: Result<nat>, a: nat, b: nat)
    ensures Shift(Shift(r, a), b) == Shift(r, a + b)
  {
  }

  /** The frame current once `k` of the responses `rs` were consumed, starting on frame `f`. */
  function Reached(f: Frame, rs: seq<Response>, k: nat): Frame
    requires k <= |rs|
  {
    if k == 0 then f else FrameOf(rs[k - 1])
  }

  /**
   * The number of responses `_run_to_next` consumes when the actuator first reads frame `start`
   * and the game answers with `rs`. Each send takes one response; the actuator sends again only
   * when the frame it read kept its order in progress and the response was not a last frame.
   * Fails when the game has no response left for a send.
   */
  function RunLength(start: Frame, rs: seq<Response>): (r: Result<nat>)
    ensures r.Ok? ==> 1 <= r.value <= |rs|
    decreases |rs|
  {
    if rs == [] then Fail("the game sent no further observation")
    else if FrameOf(rs[0]).last || !start.busy then Ok(1)
    else Shift(RunLength(FrameOf(rs[0]), rs[1..]), 1)
  }

  /**
   * A run of `n` responses is exactly what `_run_to_next` consumes: before the newest response,
   * none was a last frame and every frame read kept the order in progress, and the newest one is
   * a last frame or was reached from a frame that did not.
   */
  lemma {:induction false} RunLengthStops(start: Frame, rs: seq<Response>, n: nat)
    requires 1 <= n <= |rs|
    ensures RunLength(start, rs) == Ok(n) <==>
      && (forall j :: 0 <= j < n - 1 ==> !FrameOf(rs[j]).last && Reached(start, rs, j).busy)
      && (FrameOf(rs[n - 1]).last || !Reached(start, rs, n - 1).busy)
    decreases n
  {
    if n > 1 && !FrameOf(rs[0]).last && start.busy {
      RunLengthStops(FrameOf(rs[0]), rs[1..], n - 1);
      forall j | 0 <= j < n
        ensures Reached(start, rs, j) == if j == 0 then start else Reached(FrameOf(rs[0]), rs[1..], j - 1)
        ensures 1 <= j ==> rs[j] == rs[1..][j - 1]
      {
      }
    }
  }

  /**
   * One helper's turn once `k` of the responses `rs` are consumed, counting from frame `f`: nothing
   * when the helper is not wanted, otherwise `_run_to_next`, which refuses a terminal wrapper.
   */
  function HelperTurn(wanted: bool, f: Frame, rs: seq<Response>, k: nat): (r: Result<nat>)
    requires k <= |rs|
    ensures r.Ok? ==> k <= r.value <= |rs| && (r.value > k <==> wanted)
  {
    if !wanted then Ok(k)
    else if AnyLast(rs[..k]) then Fail("Entered _run_to_next at terminal")
    else Shift(RunLength(Reached(f, rs, k), rs[k..]), k)
  }

  /** The helpers of one pass of `_run_helpers`, in the order it tries them. */
  const HelperOrder: seq<BuildAction> := [RallyScvs, MakeScv, KillMarine]

  /**
   * Whether the helper issuing `a` wants to run on frame `g`: idle workers for the rally, and the
   * SCV and kill checks only when their helper is enabled. Only the SCV check can fail.
   */
  function Wants(a: BuildAction, g: Frame, costs: Costs, scvHelper: bool, killHelper: bool): (r: Result<bool>)
    requires IsHelper(a)
    ensures r == Ok(true) <==>
      || (a == RallyScvs && g.idleWorkers > 0)
      || (a == MakeScv && scvHelper && ShouldMakeScv(g, costs) == Ok(true))
      || (a == KillMarine && killHelper && ShouldKillMarine(g, costs))
    ensures r.Fail? ==> a == MakeScv && scvHelper
  {
    if a == RallyScvs then Ok(g.idleWorkers > 0)
    else if a == MakeScv then (if scvHelper then ShouldMakeScv(g, costs) else Ok(false))
    else Ok(killHelper && ShouldKillMarine(g, costs))
  }

  /**
   * The responses the helpers from position `i` of HelperOrder on consume once `k` of `rs` are
   * consumed, counting from frame `f`: each is asked on the frame reached by then and takes
   * its turn; a failed check or turn fails the pass.
   */
  function Turns(f: Frame, rs: seq<Response>, k: nat, i: nat, costs: Costs, scvHelper: bool, killHelper: bool): (r: Result<nat>)
    requires k <= |rs| && i <= |HelperOrder|
    ensures r.Ok? ==> k <= r.value <= |rs|
    decreases |HelperOrder| - i, 1
  {
    if i == |HelperOrder| then Ok(k) else Turn(f, rs, k, i, costs, scvHelper, killHelper)
  }

  /** The helper at position `i` of HelperOrder asked on the frame reached, its turn, then the helpers after it. */
  function Turn(f: Frame, rs: seq<Response>, k: nat, i: nat, costs: Costs, scvHelper: bool, killHelper: bool): (r: Result<nat>)
    requires k <= |rs| && i < |HelperOrder|
    ensures r.Ok? ==> k <= r.value <= |rs|
    decreases |HelperOrder| - i, 0
  {
    match Wants(HelperOrder[i], Reached(f, rs, k), costs, scvHelper, killHelper)
    case Fail(e) => Fail(e)
    case Ok(w) =>
      match HelperTurn(w, f, rs, k)
      case Fail(e) => Fail(e)
      case Ok(k2) => Turns(f, rs, k2, i + 1, costs, scvHelper, killHelper)
  }

  /** Turns that consume nothing from position `i` on leave every helper from `i` on unwanted on the frame reached. */
  lemma {:induction false} QuietTurns(f: Frame, rs: seq<Response>, k: nat, i: nat, costs: Costs, scvHelper: bool, killHelper: bool)
    requires k <= |rs| && i <= |HelperOrder|
    requires Turns(f, rs, k, i, costs, scvHelper, killHelper) == Ok(k)
    ensures forall j :: i <= j < |HelperOrder| ==> Wants(HelperOrder[j], Reached(f, rs, k), costs, scvHelper, killHelper) == Ok(false)
    decreases |HelperOrder| - i
  {
    if i < |HelperOrder| {
      var w := Wants(HelperOrder[i], Reached(f, rs, k), costs, scvHelper, killHelper).value;
      var k2 := HelperTurn(w, f, rs, k).value;
      assert k <= k2 <= Turns(f, rs, k2, i + 1, costs, scvHelper, killHelper).value;
      QuietTurns(f, rs, k, i + 1, costs, scvHelper, killHelper);
    }
  }

  /**
   * The responses `_run_helpers` has consumed from `rs` when it stops, entered on frame `f` with
   * a pass about to start after the first `k`: passes repeat until one fires nothing or a last
   * frame has been consumed.
   */
  function HelpersFrom(f: Frame, rs: seq<Response>, k: nat, costs: Costs, scvHelper: bool, killHelper: bool): (r: Result<nat>)
    requires k <= |rs|
    ensures r.Ok? ==> k <= r.value <= |rs|
    decreases |rs| - k
  {
    match Turns(f, rs, k, 0, costs, scvHelper, killHelper)
    case Fail(e) => Fail(e)
    case Ok(n) => if n == k || AnyLast(rs[..n]) then Ok(n) else HelpersFrom(f, rs, n, costs, scvHelper, killHelper)
  }

  /** The responses `_run_helpers` consumes from frame `f`: passes until one fires nothing or reaches a last frame. */
  function Helpers(f: Frame, rs: seq<Response>, costs: Costs, scvHelper: bool, killHelper: bool): (r: Result<nat>)
    ensures r.Ok? ==> r.value <= |rs|
  {
    HelpersFrom(f, rs, 0, costs, scvHelper, killHelper)
  }

  /**
   * When the helpers succeed, the frame they stop on is a last frame, or one on which no enabled
   * helper is wanted.
   */
  lemma {:induction false} HelpersEndQuiet(f: Frame, rs: seq<Response>, k: nat, costs: Costs, scvHelper: bool, killHelper: bool)
    requires k <= |rs| && HelpersFrom(f, rs, k, costs, scvHelper, killHelper).Ok?
    ensures var m := HelpersFrom(f, rs, k, costs, scvHelper, killHelper).value;
      AnyLast(rs[..m]) || !HelperWanted(Reached(f, rs, m), costs, scvHelper, killHelper)
    decreases |rs| - k
  {
    var n := Turns(f, rs, k, 0, costs, scvHelper, killHelper).value;
    if n == k {
      QuietTurns(f, rs, k, 0, costs, scvHelper, killHelper);
      QuietFrame(Reached(f, rs, k), costs, scvHelper, killHelper);
    } else if !AnyLast(rs[..n]) {
      HelpersEndQuiet(f, rs, n, costs, scvHelper, killHelper);
    }
  }

  /** After a first stage that consumed `n` of `rs`, the helpers run unless the episode ended. */
  function ThenHelpers(rs: seq<Response>, n: nat, costs: Costs, scvHelper: bool, killHelper: bool): (r: Result<nat>)
    requires 1 <= n <= |rs|
    ensures r.Ok? ==> n <= r.value <= |rs|
  {
    if AnyLast(rs[..n]) then Ok(n)
    else Shift(Helpers(FrameOf(rs[n - 1]), rs[n..], costs, scvHelper, killHelper), n)
  }

  /** The responses `step` consumes from frame `f`: the agent's run, then the helpers. */
  function StepCount(f: Frame, rs: seq<Response>, costs: Costs, scvHelper: bool, killHelper: bool): (r: Result<nat>)
    ensures r.Ok? ==> 1 <= r.value <= |rs|
  {
    match RunLength(f, rs)
    case Fail(e) => Fail(e)
    case Ok(n) => ThenHelpers(rs, n, costs, scvHelper, killHelper)
  }

  /** The responses `reset` consumes from a new game: the reset frame, then the helpers. */
  function ResetCount(rs: seq<Response>, costs: Costs, scvHelper: bool, killHelper: bool): (r: Result<nat>)
    ensures r.Ok? ==> 1 <= r.value <= |rs|
  {
    if rs == [] || rs[0].ConnectionLost? then Fail("the game could not be reset")
    else ThenHelpers(rs, 1, costs, scvHelper, killHelper)
  }

  // ---------------------------------------------------------------------------

  class BuildMarinesEnvironment {
    const costs: Costs
    const scvHelper: bool
    const killHelper: bool
    /** The game's answers still to come, in order. */
    var script: seq<Response>
    /** The raw commands sent to the game, in order. */
    var sent: seq<RawCommand>
    var inProgress: bool
    var prevFrame: Option<Frame>
    var currFrame: Option<Frame>
    var terminal: bool
    var accumulatedReward: real

    /** Outside an episode the wrapper is terminal; inside one it has a current frame. */
    ghost predicate Valid()
      reads this
    {
      !terminal ==> currFrame.Some?
    }

    constructor (costs: Costs, scvHelper: bool, killHelper: bool, script: seq<Response>)
      ensures Valid()
      ensures this.costs == costs && this.scvHelper == scvHelper && this.killHelper == killHelper
      ensures this.script == script && sent == [] && !inProgress
      ensures prevFrame == None && currFrame == None && terminal && accumulatedReward == 0.0
    {
      this.costs := costs;
      this.scvHelper := scvHelper;
      this.killHelper := killHelper;
      this.script := script;
      sent := [];
      inProgress := false;
      prevFrame := None;
      currFrame := None;
      terminal := true;
      accumulatedReward := 0.0;
    }

    /** The actuator: issues the action's command and takes `in_progress` from the frame it read. */
    method ComputeAction(action: BuildAction) returns (cmd: RawCommand)
      requires currFrame.Some?
      modifies this`inProgress
      ensures cmd == RawCommand(action) && inProgress == currFrame.value.busy
    {
      inProgress := currFrame.value.busy;
      cmd := RawCommand(action);
    }

    /** `_step_env`: sends the command, takes the next frame (after a lost connection, the reset frame), adds its reward and latches `terminal`. */
    method StepEnv(cmd: RawCommand) returns (r: Result<()>)
      modifies this`script, this`sent, this`prevFrame, this`currFrame, this`accumulatedReward, this`terminal
      ensures Valid() || old(script) == []
      ensures r.Fail? <==> old(script) == []
      ensures r.Fail? ==> unchanged(this)
      ensures |script| <= |old(script)| && script == old(script)[|old(script)| - |script|..]
      ensures r.Ok? ==>
        && script == old(script[1..]) && sent == old(sent) + [cmd]
        && prevFrame == old(currFrame) && currFrame == Some(FrameOf(old(script[0])))
        && accumulatedReward == old(accumulatedReward) + FrameOf(old(script[0])).reward
        && terminal == (old(terminal) || FrameOf(old(script[0])).last)
    {
      if script == [] {
        return Fail("the game sent no further observation");
      }
      prevFrame := currFrame;
      sent := sent + [cmd];
      currFrame := Some(FrameOf(script[0]));
      script := script[1..];
      accumulatedReward := accumulatedReward + currFrame.value.reward;
      if currFrame.value.last {
        terminal := true;
      }
      r := Ok(());
    }

    /** `_reset_env`: like a step, but a lost connection during a reset is not absorbed. */
    method ResetEnv() returns (r: Result<()>)
      modifies this`script, this`prevFrame, this`currFrame, this`accumulatedReward, this`terminal
      ensures r.Fail? <==> old(script) == [] || old(script[0]).ConnectionLost?
      ensures r.Fail? ==> unchanged(this)
      ensures r.Ok? ==>
        && script == old(script[1..])
        && prevFrame == old(currFrame) && currFrame == Some(old(script[0]).frame)
        && accumulatedReward == old(accumulatedReward) + old(script[0]).frame.reward
        && terminal == (old(terminal) || old(script[0]).frame.last)
    {
      if script == [] || script[0].ConnectionLost? {
        return Fail("the game could not be reset");
      }
      prevFrame := currFrame;
      currFrame := Some(script[0].frame);
      script := script[1..];
      accumulatedReward := accumulatedReward + currFrame.value.reward;
      if currFrame.value.last {
        terminal := true;
      }
      r := Ok(());
    }

    /**
     * `_run_to_next`: issues the action, then keeps issuing it while the actuator reports work in
     * progress, stopping early at a terminal frame. It consumes exactly the responses RunLength
     * counts; every frame's reward is accumulated and the terminal flag ends up set exactly when
     * one of the frames was a last frame.
     */
    method RunToNext(action: BuildAction) returns (r: Result<()>)
      requires Valid()
      modifies this`script, this`sent, this`prevFrame, this`currFrame, this`accumulatedReward, this`terminal, this`inProgress
      ensures Valid()
      ensures old(terminal) ==> r.Fail? && unchanged(this)
      ensures |script| <= |old(script)| && script == old(script)[|old(script)| - |script|..]
      ensures r.Ok? ==> |script| < |old(script)|
      ensures !old(terminal) ==> (r.Ok? <==> RunLength(old(currFrame).value, old(script)).Ok?)
      ensures !old(terminal) && r.Ok? ==>
        var n := RunLength(old(currFrame).value, old(script)).value;
        script == old(script)[n..] && currFrame == Some(FrameOf(old(script)[n - 1]))
      ensures accumulatedReward == old(accumulatedReward) + Rewards(Consumed(old(script), script))
      ensures terminal == (old(terminal) || AnyLast(Consumed(old(script), script)))
      ensures |sent| == |old(sent)| + |Consumed(old(script), script)|
      ensures forall k :: |old(sent)| <= k < |sent| ==> sent[k] == RawCommand(action)
      ensures old(sent) <= sent
      ensures r.Ok? ==> terminal || !inProgress
      ensures old(currFrame).Some? ==> currFrame.Some?
    {
      if terminal {
        return Fail("Entered _run_to_next at terminal");
      }
      ghost var start := currFrame.value;
      ghost var script0 := script;
      ghost var sent0 := sent;
      ghost var acc0 := accumulatedReward;
      var cmd := ComputeAction(action);
      r := StepEnv(cmd);
      if r.Fail? {
        return;
      }
      assert Consumed(script0, script) == [script0[0]];
      assert Rewards([script0[0]]) == Rewards([]) + FrameOf(script0[0]).reward;
      assert AnyLast([script0[0]]) <==> FrameOf(script0[0]).last;
      r := KeepIssuing(action, start, script0, sent0, acc0);
    }

    /**
     * The loop of `_run_to_next`: while work is in progress, issue the action again, stopping at a
     * terminal frame. What RunLength still counts from the current frame is what is left to consume.
     */
    method KeepIssuing(action: BuildAction, ghost start: Frame, ghost script0: seq<Response>, ghost sent0: seq<RawCommand>, ghost acc0: real)
      returns (r: Result<()>)
      requires Issued(action, script0, sent0, acc0, script, sent, accumulatedReward, terminal)
      requires currFrame == Some(FrameOf(script0[|script0| - |script| - 1]))
      requires RunLength(start, script0) ==
        if terminal || !inProgress then Ok(|script0| - |script|)
        else Shift(RunLength(currFrame.value, script), |script0| - |script|)
      modifies this`script, this`sent, this`prevFrame, this`currFrame, this`accumulatedReward, this`terminal, this`inProgress
      ensures Issued(action, script0, sent0, acc0, script, sent, accumulatedReward, terminal)
      ensures currFrame == Some(FrameOf(script0[|script0| - |script| - 1]))
      ensures r.Ok? <==> RunLength(start, script0).Ok?
      ensures r.Ok? ==> RunLength(start, script0) == Ok(|script0| - |script|) && (terminal || !inProgress)
    {
      r := Ok(());
      while inProgress
        invariant Issued(action, script0, sent0, acc0, script, sent, accumulatedReward, terminal)
        invariant currFrame == Some(FrameOf(script0[|script0| - |script| - 1]))
        invariant RunLength(start, script0) ==
          if terminal || !inProgress then Ok(|script0| - |script|)
          else Shift(RunLength(currFrame.value, script), |script0| - |script|)
        invariant r.Ok?
        decreases |script|
      {
        if terminal {
          return;
        }
        r := IssueAgain(action, start, script0, sent0, acc0);
        if r.Fail? {
          return;
        }
      }
    }

    /** One more round of the loop: the action is issued once more and the next frame accounted for. */
    method IssueAgain(action: BuildAction, ghost start: Frame, ghost script0: seq<Response>, ghost sent0: seq<RawCommand>, ghost acc0: real)
      returns (r: Result<()>)
      requires Issued(action, script0, sent0, acc0, script, sent, accumulatedReward, terminal)
      requires currFrame == Some(FrameOf(script0[|script0| - |script| - 1]))
      requires !terminal && RunLength(start, script0) == Shift(RunLength(currFrame.value, script), |script0| - |script|)
      modifies this`script, this`sent, this`prevFrame, this`currFrame, this`accumulatedReward, this`terminal, this`inProgress
      ensures Issued(action, script0, sent0, acc0, script, sent, accumulatedReward, terminal)
      ensures currFrame == Some(FrameOf(script0[|script0| - |script| - 1]))
      ensures r.Fail? <==> RunLength(start, script0).Fail? && old(script) == []
      ensures r.Ok? ==> |script| < |old(script)|
      ensures r.Ok? ==> (RunLength(start, script0) ==
        if terminal || !inProgress then Ok(|script0| - |script|)
        else Shift(RunLength(currFrame.value, script), |script0| - |script|))
    {
      ghost var before, sentBefore, accBefore, termBefore := script, sent, accumulatedReward, terminal;
      ghost var k := |script0| - |script|;
      var cmd := ComputeAction(action);
      r := StepEnv(cmd);
      if r.Ok? {
        IssuedStep(action, script0, sent0, acc0, before, sentBefore, accBefore, termBefore);
        ShiftAdd(RunLength(currFrame.value, script), 1, k);
      }
    }

    /**
     * `_run_helpers`: repeated passes over the helpers in their fixed order until a pass fires none
     * or the episode is over, consuming exactly the responses Helpers counts. On success the
     * wrapper is terminal or no enabled helper wants to run.
     */
    method RunHelpers() returns (r: Result<()>)
      requires Valid()
      modifies this`script, this`sent, this`prevFrame, this`currFrame, this`accumulatedReward, this`terminal, this`inProgress
      ensures Valid()
      ensures old(terminal) ==> r.Ok? && unchanged(this)
      ensures |script| <= |old(script)| && script == old(script)[|old(script)| - |script|..]
      ensures !old(terminal) ==> Helped(old(script), old(sent), old(accumulatedReward), script, sent, accumulatedReward, terminal)
      ensures !old(terminal) ==> (r.Ok? <==> Helpers(old(currFrame).value, old(script), costs, scvHelper, killHelper).Ok?)
      ensures !old(terminal) && r.Ok? ==>
        var m := Helpers(old(currFrame).value, old(script), costs, scvHelper, killHelper).value;
        script == old(script)[m..] && currFrame == Some(Reached(old(currFrame).value, old(script), m))
      ensures r.Ok? ==> terminal || !HelperWanted(currFrame.value, costs, scvHelper, killHelper)
    {
      r := Ok(());
      if terminal {
        return;
      }
      ghost var f0, script0 := currFrame.value, script;
      r := HelpersLoop(f0, script0, sent, accumulatedReward);
      if r.Ok? {
        HelpersDone(f0, script0, script, terminal, costs, scvHelper, killHelper);
      }
    }

    /**
     * The loop of `_run_helpers`, entered on frame `f0` with the responses `script0`: it stops
     * once Helpers' count is consumed, or fails when Helpers does.
     */
    method HelpersLoop(ghost f0: Frame, ghost script0: seq<Response>, ghost sent0: seq<RawCommand>, ghost acc0: real)
      returns (r: Result<()>)
      requires Valid() && !terminal && currFrame == Some(f0)
      requires script == script0 && sent == sent0 && accumulatedReward == acc0
      modifies this`script, this`sent, this`prevFrame, this`currFrame, this`accumulatedReward, this`terminal, this`inProgress
      ensures Valid() && Helped(script0, sent0, acc0, script, sent, accumulatedReward, terminal)
      ensures r.Fail? ==> Helpers(f0, script0, costs, scvHelper, killHelper).Fail?
      ensures r.Ok? ==>
        && Helpers(f0, script0, costs, scvHelper, killHelper) == Ok(|script0| - |script|)
        && currFrame == Some(Reached(f0, script0, |script0| - |script|))
    {
      r := Ok(());
      assert Consumed(script0, script) == [];
      ghost var total := Helpers(f0, script0, costs, scvHelper, killHelper);
      var cleared := false;
      while !cleared && !terminal
        invariant Valid() && Helped(script0, sent0, acc0, script, sent, accumulatedReward, terminal)
        invariant currFrame == Some(Reached(f0, script0, |script0| - |script|))
        invariant cleared || terminal ==> total == Ok(|script0| - |script|)
        invariant !cleared && !terminal ==> total == HelpersFrom(f0, script0, |script0| - |script|, costs, scvHelper, killHelper)
        invariant r.Ok?
        decreases |script| + (if cleared then 0 else 1)
      {
        cleared, r := HelperRound(f0, script0, sent0, acc0, total);
        if r.Fail? {
          return;
        }
      }
    }

    /**
     * One round of the loop of `_run_helpers`: a pass, after which the loop is cleared when it
     * fired nothing. What HelpersFrom counts from the offset reached is what is left to consume.
     */
    method HelperRound(ghost f0: Frame, ghost script0: seq<Response>, ghost sent0: seq<RawCommand>, ghost acc0: real, ghost total: Result<nat>)
      returns (cleared: bool, r: Result<()>)
      requires Valid() && !terminal && Helped(script0, sent0, acc0, script, sent, accumulatedReward, terminal)
      requires currFrame == Some(Reached(f0, script0, |script0| - |script|))
      requires total == HelpersFrom(f0, script0, |script0| - |script|, costs, scvHelper, killHelper)
      modifies this`script, this`sent, this`prevFrame, this`currFrame, this`accumulatedReward, this`terminal, this`inProgress
      ensures Valid() && Helped(script0, sent0, acc0, script, sent, accumulatedReward, terminal)
      ensures r.Ok? ==> currFrame == Some(Reached(f0, script0, |script0| - |script|))
      ensures r.Fail? ==> total.Fail?
      ensures r.Ok? && (cleared || terminal) ==> total == Ok(|script0| - |script|)
      ensures r.Ok? && !(cleared || terminal) ==> |script| < |old(script)|
      ensures r.Ok? && !(cleared || terminal) ==> total == HelpersFrom(f0, script0, |script0| - |script|, costs, scvHelper, killHelper)
    {
      ghost var k := |script0| - |script|;
      var fired;
      fired, r := HelperPass(f0, script0, sent0, acc0);
      cleared := !fired;
      assert Consumed(script0, script) == script0[..|script0| - |script|];
      RoundStep(f0, script0, k, |script0| - |script|, total, r.Ok?, fired, terminal, costs, scvHelper, killHelper);
    }

    /**
     * One pass of `_run_helpers` from wherever its loop, entered on frame `f0` with the responses
     * `script0`, has got to: rally idle workers, then make an SCV, then kill a marine, each when
     * wanted on the frame reached so far; it consumes exactly the responses Turns counts.
     */
    method HelperPass(ghost f0: Frame, ghost script0: seq<Response>, ghost sent0: seq<RawCommand>, ghost acc0: real)
      returns (fired: bool, r: Result<()>)
      requires Valid() && !terminal && Helped(script0, sent0, acc0, script, sent, accumulatedReward, terminal)
      requires currFrame == Some(Reached(f0, script0, |script0| - |script|))
      modifies this`script, this`sent, this`prevFrame, this`currFrame, this`accumulatedReward, this`terminal, this`inProgress
      ensures Valid() && currFrame.Some?
      ensures Helped(script0, sent0, acc0, script, sent, accumulatedReward, terminal)
      ensures r.Ok? <==> Turns(f0, script0, |script0| - |old(script)|, 0, costs, scvHelper, killHelper).Ok?
      ensures r.Ok? ==>
        && Turns(f0, script0, |script0| - |old(script)|, 0, costs, scvHelper, killHelper) == Ok(|script0| - |script|)
        && currFrame == Some(Reached(f0, script0, |script0| - |script|))
        && (fired <==> |script| < |old(script)|)
      ensures r.Ok? && !fired ==>
        && script == old(script) && currFrame == old(currFrame)
        && !HelperWanted(currFrame.value, costs, scvHelper, killHelper)
    {
      fired, r := RunTurns(0, f0, script0, sent0, acc0);
      if r.Ok? && !fired {
        QuietFrame(currFrame.value, costs, scvHelper, killHelper);
      }
    }

    /**
     * The helpers from position `i` of HelperOrder on, counting from frame `f` and the responses
     * `script0`: each in turn is checked on the current frame and run when it wants to.
     * From position 0 these are the rally, SCV and kill blocks of a pass, in that order; they
     * consume exactly what Turns counts.
     */
    method RunTurns(i: nat, ghost f: Frame, ghost script0: seq<Response>, ghost sent0: seq<RawCommand>, ghost acc0: real)
      returns (fired: bool, r: Result<()>)
      requires i <= |HelperOrder| && Valid()
      requires Helped(script0, sent0, acc0, script, sent, accumulatedReward, terminal)
      requires currFrame == Some(Reached(f, script0, |script0| - |script|))
      modifies this`script, this`sent, this`prevFrame, this`currFrame, this`accumulatedReward, this`terminal, this`inProgress
      ensures Valid() && currFrame.Some?
      ensures Helped(script0, sent0, acc0, script, sent, accumulatedReward, terminal)
      ensures r.Ok? <==> Turns(f, script0, |script0| - |old(script)|, i, costs, scvHelper, killHelper).Ok?
      ensures r.Ok? ==>
        && Turns(f, script0, |script0| - |old(script)|, i, costs, scvHelper, killHelper) == Ok(|script0| - |script|)
        && currFrame == Some(Reached(f, script0, |script0| - |script|))
        && (fired <==> |script| < |old(script)|)
      ensures r.Ok? && !fired ==>
        && script == old(script) && currFrame == old(currFrame)
        && forall j :: i <= j < |HelperOrder| ==> Wants(HelperOrder[j], currFrame.value, costs, scvHelper, killHelper) == Ok(false)
      decreases |HelperOrder| - i
    {
      if i == |HelperOrder| {
        return false, Ok(());
      }
      var ran, later;
      ran, r := TryHelper(i, f, script0, sent0, acc0);
      if r.Fail? {
        return ran, r;
      }
      later, r := RunTurns(i + 1, f, script0, sent0, acc0);
      fired := ran || later;
    }

    /**
     * The turn of the helper at position `i` of HelperOrder, counting from frame `f` and the
     * responses `script0`: its check on the current frame, then `_run_to_next` when it
     * wants to run. What Turns counts from here is what Turns counts from the next helper on.
     */
    method TryHelper(i: nat, ghost f: Frame, ghost script0: seq<Response>, ghost sent0: seq<RawCommand>, ghost acc0: real)
      returns (ran: bool, r: Result<()>)
      requires i < |HelperOrder| && Valid()
      requires Helped(script0, sent0, acc0, script, sent, accumulatedReward, terminal)
      requires currFrame == Some(Reached(f, script0, |script0| - |script|))
      modifies this`script, this`sent, this`prevFrame, this`currFrame, this`accumulatedReward, this`terminal, this`inProgress
      ensures Valid() && currFrame.Some?
      ensures Helped(script0, sent0, acc0, script, sent, accumulatedReward, terminal)
      ensures r.Fail? ==> Turns(f, script0, |script0| - |old(script)|, i, costs, scvHelper, killHelper).Fail?
      ensures r.Ok? ==>
        && Turns(f, script0, |script0| - |old(script)|, i, costs, scvHelper, killHelper)
           == Turns(f, script0, |script0| - |script|, i + 1, costs, scvHelper, killHelper)
        && currFrame == Some(Reached(f, script0, |script0| - |script|))
        && (ran <==> |script| < |old(script)|)
      ensures r.Ok? && !ran ==>
        && script == old(script) && currFrame == old(currFrame)
        && Wants(HelperOrder[i], currFrame.value, costs, scvHelper, killHelper) == Ok(false)
    {
      var wants := Wants(HelperOrder[i], currFrame.value, costs, scvHelper, killHelper);
      if wants.Fail? {
        return false, Fail(wants.reason);
      }
      ran := wants.value;
      r := RunHelper(ran, HelperOrder[i], f, script0, sent0, acc0);
    }

    /**
     * One helper's turn, counting from frame `f` and the responses `script0`: `_run_to_next`
     * when the helper is wanted, carrying the accounting since then; it consumes exactly the
     * responses HelperTurn counts.
     */
    method RunHelper(wanted: bool, action: BuildAction, ghost f: Frame, ghost script0: seq<Response>, ghost sent0: seq<RawCommand>, ghost acc0: real)
      returns (r: Result<()>)
      requires Valid() && IsHelper(action)
      requires Helped(script0, sent0, acc0, script, sent, accumulatedReward, terminal)
      requires currFrame == Some(Reached(f, script0, |script0| - |script|))
      modifies this`script, this`sent, this`prevFrame, this`currFrame, this`accumulatedReward, this`terminal, this`inProgress
      ensures Valid() && currFrame.Some?
      ensures Helped(script0, sent0, acc0, script, sent, accumulatedReward, terminal)
      ensures r.Ok? <==> HelperTurn(wanted, f, script0, |script0| - |old(script)|).Ok?
      ensures r.Ok? ==>
        && HelperTurn(wanted, f, script0, |script0| - |old(script)|) == Ok(|script0| - |script|)
        && currFrame == Some(Reached(f, script0, |script0| - |script|))
    {
      r := Ok(());
      if !wanted {
        return;
      }
      ghost var mid, sentMid, accMid, midTerminal, g := script, sent, accumulatedReward, terminal, currFrame.value;
      r := RunToNext(action);
      HelperTurnRun(f, script0, g, mid, script, midTerminal, r.Ok?, currFrame.value);
      HelpedThen(action, script0, sent0, acc0, mid, sentMid, accMid, midTerminal, script, sent, accumulatedReward, terminal);
    }

    /**
     * `step`: refuses a terminal wrapper, clears the accumulated reward, runs the agent's action and
     * then the helpers, consuming exactly the responses StepCount counts. The reward returned is
     * that of exactly the frames stepped through.
     */
    method Step(actionList: seq<int>) returns (r: Result<()>)
      requires Valid()
      modifies this`script, this`sent, this`prevFrame, this`currFrame, this`accumulatedReward, this`terminal, this`inProgress
      ensures Valid()
      ensures old(terminal) ==> r.Fail? && unchanged(this)
      ensures |script| <= |old(script)| && script == old(script)[|old(script)| - |script|..]
      ensures !old(terminal) ==>
        && accumulatedReward == Rewards(Consumed(old(script), script))
        && terminal == AnyLast(Consumed(old(script), script))
      ensures !old(terminal) ==>
        (r.Ok? <==> actionList != [] && StepCount(old(currFrame).value, old(script), costs, scvHelper, killHelper).Ok?)
      ensures !old(terminal) && r.Ok? ==>
        script == old(script)[StepCount(old(currFrame).value, old(script), costs, scvHelper, killHelper).value..]
      ensures r.Ok? ==> terminal || !HelperWanted(currFrame.value, costs, scvHelper, killHelper)
      ensures !old(terminal) && r.Ok? ==>
        currFrame == Some(FrameOf(old(script)[StepCount(old(currFrame).value, old(script), costs, scvHelper, killHelper).value - 1]))
      ensures old(sent) <= sent
      ensures !old(terminal) && r.Ok? ==>
        && RunLength(old(currFrame).value, old(script)).Ok?
        && var n := RunLength(old(currFrame).value, old(script)).value;
          && |old(sent)| + n <= |sent|
          && (forall k :: |old(sent)| <= k < |old(sent)| + n ==> sent[k] == RawCommand(AgentAction(actionList[0])))
          && (forall k :: |old(sent)| + n <= k < |sent| ==> IsHelper(sent[k].action))
    {
      if terminal {
        return Fail("Environment must be reset after init or terminal");
      }
      accumulatedReward := 0.0;
      ghost var script0 := script;
      if actionList == [] {
        assert Consumed(script0, script) == [];
        return Fail("list index out of range");
      }
      r := ActThenHelp(AgentAction(actionList[0]));
    }

    /** The body of `step` after its checks: the agent's run, then the helpers unless the episode ended. */
    method ActThenHelp(action: BuildAction) returns (r: Result<()>)
      requires Valid() && !terminal
      modifies this`script, this`sent, this`prevFrame, this`currFrame, this`accumulatedReward, this`terminal, this`inProgress
      ensures Valid()
      ensures |script| <= |old(script)| && script == old(script)[|old(script)| - |script|..]
      ensures accumulatedReward == old(accumulatedReward) + Rewards(Consumed(old(script), script))
      ensures terminal == AnyLast(Consumed(old(script), script))
      ensures r.Ok? <==> StepCount(old(currFrame).value, old(script), costs, scvHelper, killHelper).Ok?
      ensures r.Ok? ==> script == old(script)[StepCount(old(currFrame).value, old(script), costs, scvHelper, killHelper).value..]
      ensures r.Ok? ==> terminal || !HelperWanted(currFrame.value, costs, scvHelper, killHelper)
      ensures r.Ok? ==> currFrame == Some(FrameOf(old(script)[StepCount(old(currFrame).value, old(script), costs, scvHelper, killHelper).value - 1]))
      ensures old(sent) <= sent
      ensures RunLength(old(currFrame).value, old(script)).Ok? ==>
        var n := RunLength(old(currFrame).value, old(script)).value;
        && |old(sent)| + n <= |sent|
        && (forall k :: |old(sent)| <= k < |old(sent)| + n ==> sent[k] == RawCommand(action))
        && (forall k :: |old(sent)| + n <= k < |sent| ==> IsHelper(sent[k].action))
    {
      ghost var script0, sent0, acc0 := script, sent, accumulatedReward;
      ghost var start := currFrame.value;
      r := RunToNext(action);
      if r.Fail? {
        return;
      }
      ghost var sentMid := sent;
      r := HelpAfterRun(start, script0, acc0);
      AgentThenHelpers(action, sent0, sentMid, sent);
    }

    /**
     * The helpers of `step` after an agent's run from frame `start` that consumed what RunLength
     * counts of `script0`: together, the responses StepCount counts.
     */
    method HelpAfterRun(ghost start: Frame, ghost script0: seq<Response>, ghost acc0: real) returns (r: Result<()>)
      requires Valid() && RunLength(start, script0).Ok?
      requires var n := RunLength(start, script0).value;
        script == script0[n..] && currFrame == Some(FrameOf(script0[n - 1]))
      requires |script| <= |script0| && script == script0[|script0| - |script|..]
      requires accumulatedReward == acc0 + Rewards(Consumed(script0, script))
      requires terminal == AnyLast(Consumed(script0, script))
      modifies this`script, this`sent, this`prevFrame, this`currFrame, this`accumulatedReward, this`terminal, this`inProgress
      ensures Valid()
      ensures |script| <= |script0| && script == script0[|script0| - |script|..]
      ensures accumulatedReward == acc0 + Rewards(Consumed(script0, script))
      ensures terminal == AnyLast(Consumed(script0, script))
      ensures r.Ok? <==> StepCount(start, script0, costs, scvHelper, killHelper).Ok?
      ensures r.Ok? ==> script == script0[StepCount(start, script0, costs, scvHelper, killHelper).value..]
      ensures r.Ok? ==> terminal || !HelperWanted(currFrame.value, costs, scvHelper, killHelper)
      ensures r.Ok? ==> currFrame == Some(FrameOf(script0[StepCount(start, script0, costs, scvHelper, killHelper).value - 1]))
      ensures old(sent) <= sent && forall k :: |old(sent)| <= k < |sent| ==> IsHelper(sent[k].action)
    {
      ghost var mid, sentMid, accMid, midTerminal, g := script, sent, accumulatedReward, terminal, currFrame.value;
      r := RunHelpers();
      StepAfterHelpers(start, script0, acc0, g, mid, sentMid, accMid, midTerminal,
        script, sent, accumulatedReward, terminal, currFrame, r.Ok?, costs, scvHelper, killHelper);
    }

    /**
     * `reset`: clears the actuator, the terminal flag and the reward, takes the first frame and
     * runs the helpers, consuming exactly the responses ResetCount counts. The game itself is
     * given as a fresh script.
     */
    method Reset(newScript: seq<Response>) returns (r: Result<()>)
      modifies this`script, this`sent, this`prevFrame, this`currFrame, this`accumulatedReward, this`terminal, this`inProgress
      ensures Valid() || r.Fail?
      ensures r.Ok? <==> ResetCount(newScript, costs, scvHelper, killHelper).Ok?
      ensures r.Ok? ==>
        && script == newScript[ResetCount(newScript, costs, scvHelper, killHelper).value..]
        && accumulatedReward == Rewards(Consumed(newScript, script))
        && terminal == AnyLast(Consumed(newScript, script))
        && (terminal || !HelperWanted(currFrame.value, costs, scvHelper, killHelper))
        && currFrame == Some(FrameOf(newScript[ResetCount(newScript, costs, scvHelper, killHelper).value - 1]))
      ensures old(sent) <= sent && forall k :: |old(sent)| <= k < |sent| ==> IsHelper(sent[k].action)
    {
      script := newScript;
      inProgress := false;
      terminal := false;
      accumulatedReward := 0.0;
      r := ResetEnv();
      if r.Fail? {
        return;
      }
      r := HelpAfterReset(newScript);
    }

    /**
     * The helpers of `reset` after the reset frame `newScript[0]`: together, the responses
     * ResetCount counts.
     */
    method HelpAfterReset(ghost newScript: seq<Response>) returns (r: Result<()>)
      requires newScript != [] && !newScript[0].ConnectionLost?
      requires script == newScript[1..] && currFrame == Some(newScript[0].frame)
      requires accumulatedReward == 0.0 + newScript[0].frame.reward && terminal == newScript[0].frame.last
      modifies this`script, this`sent, this`prevFrame, this`currFrame, this`accumulatedReward, this`terminal, this`inProgress
      ensures Valid()
      ensures r.Ok? <==> ResetCount(newScript, costs, scvHelper, killHelper).Ok?
      ensures r.Ok? ==>
        && script == newScript[ResetCount(newScript, costs, scvHelper, killHelper).value..]
        && accumulatedReward == Rewards(Consumed(newScript, script))
        && terminal == AnyLast(Consumed(newScript, script))
        && (terminal || !HelperWanted(currFrame.value, costs, scvHelper, killHelper))
        && currFrame == Some(FrameOf(newScript[ResetCount(newScript, costs, scvHelper, killHelper).value - 1]))
      ensures old(sent) <= sent && forall k :: |old(sent)| <= k < |sent| ==> IsHelper(sent[k].action)
    {
      ghost var mid, g, midTerminal := script, currFrame.value, terminal;
      assert Consumed(newScript, mid) == [newScript[0]] == newScript[..1];
      assert Rewards([newScript[0]]) == Rewards([]) + FrameOf(newScript[0]).reward;
      assert AnyLast([newScript[0]]) <==> FrameOf(newScript[0]).last;
      r := RunHelpers();
      ResetCountThen(newScript, g, mid, script, midTerminal, r.Ok?, costs, scvHelper, killHelper);
      ConsumedConcat(newScript, mid, script);
      RewardsConcat(Consumed(newScript, mid), Consumed(mid, script));
      AnyLastConcat(Consumed(newScript, mid), Consumed(mid, script));
      if r.Ok? {
        ReachedAfter(newScript, 1, |mid| - |script|);
      }
    }
  }

  /**
   * One pass inside `_run_helpers`, from offset `k` of the responses `rs` the loop entered with,
   * keeps the count HelpersFrom predicts for the whole loop: a failed pass fails it, the loop ends
   * exactly when the count is reached, and otherwise the same total remains from the offset reached.
   */
  lemma RoundStep(f0: Frame, rs: seq<Response>, k: nat, n: nat, total: Result<nat>, ok: bool, fired: bool, terminal: bool,
                  costs: Costs, scvHelper: bool, killHelper: bool)
    requires k <= |rs| && total == HelpersFrom(f0, rs, k, costs, scvHelper, killHelper)
    requires ok <==> Turns(f0, rs, k, 0, costs, scvHelper, killHelper).Ok?
    requires ok ==> Turns(f0, rs, k, 0, costs, scvHelper, killHelper) == Ok(n) && (fired <==> n > k) && terminal == AnyLast(rs[..n])
    ensures !ok ==> total.Fail?
    ensures ok && (!fired || terminal) ==> total == Ok(n)
    ensures ok && fired && !terminal ==> total == HelpersFrom(f0, rs, n, costs, scvHelper, killHelper)
  {
  }

  /** Where `_run_helpers` stops after consuming Helpers' count, the episode is over or no enabled helper is wanted. */
  lemma HelpersDone(f0: Frame, rs: seq<Response>, after: seq<Response>, terminal: bool,
                    costs: Costs, scvHelper: bool, killHelper: bool)
    requires |after| <= |rs| && after == rs[|rs| - |after|..] && terminal == AnyLast(Consumed(rs, after))
    requires Helpers(f0, rs, costs, scvHelper, killHelper) == Ok(|rs| - |after|)
    ensures terminal || !HelperWanted(Reached(f0, rs, |rs| - |after|), costs, scvHelper, killHelper)
  {
    HelpersEndQuiet(f0, rs, 0, costs, scvHelper, killHelper);
    assert Consumed(rs, after) == rs[..|rs| - |after|];
  }

  /** A frame on which none of the helpers of HelperOrder wants to run is one on which no enabled helper is wanted. */
  lemma QuietFrame(f: Frame, costs: Costs, scvHelper: bool, killHelper: bool)
    requires Wants(HelperOrder[0], f, costs, scvHelper, killHelper) == Ok(false)
    requires Wants(HelperOrder[1], f, costs, scvHelper, killHelper) == Ok(false)
    requires Wants(HelperOrder[2], f, costs, scvHelper, killHelper) == Ok(false)
    ensures !HelperWanted(f, costs, scvHelper, killHelper)
  {
  }

  /**
   * A wanted helper's `_run_to_next`, started on frame `g` with `mid` of the responses
   * `rs` left, consumes what HelperTurn counts and stops on the frame that count reaches.
   */
  lemma HelperTurnRun(f: Frame, rs: seq<Response>, g: Frame, mid: seq<Response>, after: seq<Response>,
                      midTerminal: bool, ok: bool, h: Frame)
    requires |mid| <= |rs| && mid == rs[|rs| - |mid|..] && g == Reached(f, rs, |rs| - |mid|)
    requires midTerminal == AnyLast(Consumed(rs, mid))
    requires midTerminal ==> !ok
    requires !midTerminal ==> (ok <==> RunLength(g, mid).Ok?)
    requires !midTerminal && ok ==> after == mid[RunLength(g, mid).value..] && h == FrameOf(mid[RunLength(g, mid).value - 1])
    ensures ok <==> HelperTurn(true, f, rs, |rs| - |mid|).Ok?
    ensures ok ==> |after| <= |rs| && HelperTurn(true, f, rs, |rs| - |mid|) == Ok(|rs| - |after|) && h == Reached(f, rs, |rs| - |after|)
  {
    var k := |rs| - |mid|;
    assert Consumed(rs, mid) == rs[..k];
    if ok {
      var n := RunLength(g, mid).value;
      assert mid[n - 1] == rs[k + n - 1];
    }
  }

  /** A helper's `_run_to_next` after a stretch of helper commands extends the stretch. */
  lemma HelpedThen(action: BuildAction, script0: seq<Response>, sent0: seq<RawCommand>, acc0: real,
                   mid: seq<Response>, sentMid: seq<RawCommand>, accMid: real, midTerminal: bool,
                   script: seq<Response>, sent: seq<RawCommand>, acc: real, terminal: bool)
    requires IsHelper(action) && Helped(script0, sent0, acc0, mid, sentMid, accMid, midTerminal)
    requires |script| <= |mid| && script == mid[|mid| - |script|..]
    requires acc == accMid + Rewards(Consumed(mid, script)) && terminal == (midTerminal || AnyLast(Consumed(mid, script)))
    requires sentMid <= sent && forall j :: |sentMid| <= j < |sent| ==> sent[j] == RawCommand(action)
    ensures Helped(script0, sent0, acc0, script, sent, acc, terminal)
  {
    AccountThen(script0, mid, script, acc0, accMid, acc, midTerminal, terminal);
  }

  /**
   * `step` after a successful run that left `mid` of the responses `rs` on frame `g`: when the
   * helpers that follow succeed or are skipped at a last frame, so does `step`, the script left is
   * the one StepCount predicts, and the frame reached is that of the last response it counts.
   */
  lemma StepCountThen(start: Frame, rs: seq<Response>, g: Frame, mid: seq<Response>, after: seq<Response>, reached: Frame,
                      midTerminal: bool, ok: bool, costs: Costs, scvHelper: bool, killHelper: bool)
    requires RunLength(start, rs).Ok?
    requires var n := RunLength(start, rs).value;
      mid == rs[n..] && g == FrameOf(rs[n - 1]) && midTerminal == AnyLast(Consumed(rs, mid))
    requires midTerminal ==> ok && after == mid && reached == g
    requires !midTerminal ==> (ok <==> Helpers(g, mid, costs, scvHelper, killHelper).Ok?)
    requires !midTerminal && ok ==>
      var m := Helpers(g, mid, costs, scvHelper, killHelper).value;
      after == mid[m..] && reached == Reached(g, mid, m)
    ensures ok <==> StepCount(start, rs, costs, scvHelper, killHelper).Ok?
    ensures ok ==> after == rs[StepCount(start, rs, costs, scvHelper, killHelper).value..]
    ensures ok ==> reached == FrameOf(rs[StepCount(start, rs, costs, scvHelper, killHelper).value - 1])
  {
    var n := RunLength(start, rs).value;
    assert Consumed(rs, mid) == rs[..n];
    if !midTerminal && ok {
      var m := Helpers(g, mid, costs, scvHelper, killHelper).value;
      SliceOfSlice(rs, n, m);
      ReachedAfter(rs, n, m);
    }
  }

  /**
   * `reset` after the reset frame `rs[0]`, which left `mid`: when the helpers that follow succeed or
   * are skipped at a last frame, so does `reset`, and the script left is the one ResetCount predicts.
   */
  lemma ResetCountThen(rs: seq<Response>, g: Frame, mid: seq<Response>, after: seq<Response>,
                       midTerminal: bool, ok: bool, costs: Costs, scvHelper: bool, killHelper: bool)
    requires rs != [] && !rs[0].ConnectionLost?
    requires mid == rs[1..] && g == rs[0].frame && midTerminal == g.last
    requires midTerminal ==> ok && after == mid
    requires !midTerminal ==> (ok <==> Helpers(g, mid, costs, scvHelper, killHelper).Ok?)
    requires !midTerminal && ok ==> after == mid[Helpers(g, mid, costs, scvHelper, killHelper).value..]
    ensures ok <==> ResetCount(rs, costs, scvHelper, killHelper).Ok?
    ensures ok ==> after == rs[ResetCount(rs, costs, scvHelper, killHelper).value..]
  {
    assert AnyLast(rs[..1]) <==> FrameOf(rs[0]).last;
    if !midTerminal && ok {
      SliceOfSlice(rs, 1, Helpers(g, mid, costs, scvHelper, killHelper).value);
    }
  }

  /** The frame reached `m` responses into the rest of `rs` after a stage that ended on `rs[n - 1]` is that of response `n + m`. */
  lemma ReachedAfter(rs: seq<Response>, n: nat, m: nat)
    requires 1 <= n && n + m <= |rs|
    ensures Reached(FrameOf(rs[n - 1]), rs[n..], m) == FrameOf(rs[n + m - 1])
  {
  }

  /**
   * `step` once the helpers that follow the agent's run have returned, given what `_run_helpers`
   * promises about the wrapper it left: the accounting covers every response since the run began,
   * the outcome and the script left are StepCount's, and the frame reached is that of the last
   * response StepCount counts.
   */
  lemma StepAfterHelpers(start: Frame, script0: seq<Response>, acc0: real, g: Frame,
                         mid: seq<Response>, sentMid: seq<RawCommand>, accMid: real, midTerminal: bool,
                         after: seq<Response>, sent: seq<RawCommand>, acc: real, terminal: bool, frame: Option<Frame>,
                         ok: bool, costs: Costs, scvHelper: bool, killHelper: bool)
    requires RunLength(start, script0).Ok?
    requires var n := RunLength(start, script0).value;
      mid == script0[n..] && g == FrameOf(script0[n - 1])
    requires |mid| <= |script0| && mid == script0[|script0| - |mid|..]
    requires accMid == acc0 + Rewards(Consumed(script0, mid)) && midTerminal == AnyLast(Consumed(script0, mid))
    requires midTerminal ==> ok && after == mid && sent == sentMid && acc == accMid && terminal && frame == Some(g)
    requires !midTerminal ==> Helped(mid, sentMid, accMid, after, sent, acc, terminal)
    requires !midTerminal ==> (ok <==> Helpers(g, mid, costs, scvHelper, killHelper).Ok?)
    requires !midTerminal && ok ==>
      var m := Helpers(g, mid, costs, scvHelper, killHelper).value;
      after == mid[m..] && frame == Some(Reached(g, mid, m))
    ensures |after| <= |script0| && after == script0[|script0| - |after|..]
    ensures acc == acc0 + Rewards(Consumed(script0, after)) && terminal == AnyLast(Consumed(script0, after))
    ensures ok <==> StepCount(start, script0, costs, scvHelper, killHelper).Ok?
    ensures ok ==> after == script0[StepCount(start, script0, costs, scvHelper, killHelper).value..]
    ensures ok ==> frame == Some(FrameOf(script0[StepCount(start, script0, costs, scvHelper, killHelper).value - 1]))
  {
    var reached := g;
    if !midTerminal && ok {
      reached := Reached(g, mid, Helpers(g, mid, costs, scvHelper, killHelper).value);
    }
    StepCountThen(start, script0, g, mid, after, reached, midTerminal, ok, costs, scvHelper, killHelper);
    if midTerminal {
      assert Consumed(mid, after) == [];
    }
    AccountThen(script0, mid, after, acc0, accMid, acc, midTerminal, terminal);
  }

  /** Commands appended after the agent's run leave the run's own commands where they were. */
  lemma AgentThenHelpers(action: BuildAction, sent0: seq<RawCommand>, sentMid: seq<RawCommand>, sent: seq<RawCommand>)
    requires sent0 <= sentMid <= sent
    requires forall k :: |sent0| <= k < |sentMid| ==> sentMid[k] == RawCommand(action)
    ensures forall k :: |sent0| <= k < |sentMid| ==> sent[k] == RawCommand(action)
  {
  }

  lemma SliceOfSlice(rs: seq<Response>, n: nat, m: nat)
    requires n + m <= |rs|
    ensures rs[n..][m..] == rs[n + m..]
  {
  }

  /** A first stage's account followed by a second stage's is the account of both. */
  lemma AccountThen(script0: seq<Response>, mid: seq<Response>, script: seq<Response>,
                    acc0: real, accMid: real, acc: real, midTerminal: bool, terminal: bool)
    requires |mid| <= |script0| && mid == script0[|script0| - |mid|..]
    requires |script| <= |mid| && script == mid[|mid| - |script|..]
    requires accMid == acc0 + Rewards(Consumed(script0, mid)) && midTerminal == AnyLast(Consumed(script0, mid))
    requires acc == accMid + Rewards(Consumed(mid, script)) && terminal == (midTerminal || AnyLast(Consumed(mid, script)))
    ensures |script| <= |script0| && script == script0[|script0| - |script|..]
    ensures acc == acc0 + Rewards(Consumed(script0, script)) && terminal == AnyLast(Consumed(script0, script))
  {
    ConsumedConcat(script0, mid, script);
    RewardsConcat(Consumed(script0, mid), Consumed(mid, script));
    AnyLastConcat(Consumed(script0, mid), Consumed(mid, script));
  }

  lemma ConsumedConcat(a: seq<Response>, b: seq<Response>, c: seq<Response>)
    requires |c| <= |b| <= |a| && b == a[|a| - |b|..] && c == b[|b| - |c|..]
    ensures Consumed(a, c) == Consumed(a, b) + Consumed(b, c)
  {
  }

  lemma {:induction false} RewardsConcat(xs: seq<Response>, ys: seq<Response>)
    ensures Rewards(xs + ys) == Rewards(xs) + Rewards(ys)
    decreases |ys|
  {
    if ys == [] {
      assert xs + ys == xs;
    } else {
      var n := |ys| - 1;
      assert xs + ys == (xs + ys[..n]) + [ys[n]];
      assert ys == ys[..n] + [ys[n]];
      RewardsConcat(xs, ys[..n]);
      RewardsSnoc(xs + ys[..n], ys[n]);
      RewardsSnoc(ys[..n], ys[n]);
    }
  }

  /**
   * Starting from `script0`, `sent0` and `acc0`, only helper commands were sent, and the rewards
   * and last flags of the responses consumed are accounted for.
   */
  predicate Helped(script0: seq<Response>, sent0: seq<RawCommand>, acc0: real,
                   script: seq<Response>, sent: seq<RawCommand>, acc: real, terminal: bool)
  {
    && |script| <= |script0| && script == script0[|script0| - |script|..]
    && acc == acc0 + Rewards(Consumed(script0, script))
    && terminal == AnyLast(Consumed(script0, script))
    && sent0 <= sent
    && (forall k :: |sent0| <= k < |sent| ==> IsHelper(sent[k].action))
  }

  /**
   * Starting from `script0`, `sent0` and `acc0`, at least one response was consumed, each with
   * `action` sent, and its rewards and last flags are accounted for.
   */
  predicate Issued(action: BuildAction, script0: seq<Response>, sent0: seq<RawCommand>, acc0: real,
                   script: seq<Response>, sent: seq<RawCommand>, acc: real, terminal: bool)
  {
    && |script| < |script0| && script == script0[|script0| - |script|..]
    && acc == acc0 + Rewards(Consumed(script0, script))
    && terminal == AnyLast(Consumed(script0, script))
    && |sent| == |sent0| + |Consumed(script0, script)| && sent0 <= sent
    && (forall k :: |sent0| <= k < |sent| ==> sent[k] == RawCommand(action))
  }

  /** Sending `action` once more and consuming the next response keeps the account. */
  lemma IssuedStep(action: BuildAction, script0: seq<Response>, sent0: seq<RawCommand>, acc0: real,
                   script: seq<Response>, sent: seq<RawCommand>, acc: real, terminal: bool)
    requires Issued(action, script0, sent0, acc0, script, sent, acc, terminal) && script != []
    ensures Issued(action, script0, sent0, acc0, script[1..], sent + [RawCommand(action)],
      acc + FrameOf(script[0]).reward, terminal || FrameOf(script[0]).last)
  {
    StepConsumes(script0, script);
  }

  /** Taking one more response from the script adds it to the consumed ones, its reward to the total. */
  lemma StepConsumes(script0: seq<Response>, before: seq<Response>)
    requires before != [] && |before| <= |script0| && before == script0[|script0| - |before|..]
    ensures before[1..] == script0[|script0| - |before[1..]|..]
    ensures Consumed(script0, before[1..]) == Consumed(script0, before) + [before[0]]
    ensures Rewards(Consumed(script0, before[1..])) == Rewards(Consumed(script0, before)) + FrameOf(before[0]).reward
    ensures AnyLast(Consumed(script0, before[1..])) <==> AnyLast(Consumed(script0, before)) || FrameOf(before[0]).last
  {
    assert Consumed(script0, before[1..]) == Consumed(script0, before) + [before[0]];
    RewardsSnoc(Consumed(script0, before), before[0]);
    AnyLastSnoc(Consumed(script0, before), before[0]);
  }

  lemma AnyLastConcat(xs: seq<Response>, ys: seq<Response>)
    ensures AnyLast(xs + ys) <==> AnyLast(xs) || AnyLast(ys)
  {
    if AnyLast(xs + ys) {
      var k :| 0 <= k < |xs + ys| && FrameOf((xs + ys)[k]).last;
      if k < |xs| {
        assert FrameOf(xs[k]).last;
      } else {
        assert FrameOf(ys[k - |xs|]).last;
      }
    }
    if AnyLast(xs) {
      var k :| 0 <= k < |xs| && FrameOf(xs[k]).last;
      assert FrameOf((xs + ys)[k]).last;
    }
    if AnyLast(ys) {
      var k :| 0 <= k < |ys| && FrameOf(ys[k]).last;
      assert FrameOf((xs + ys)[|xs| + k]).last;
    }
  }
}
