/**
 * The minigame environment wrapper: resets or steps the game, then makes sure the army is
 * selected before handing control back, and combines the previous and current custom frames
 * into the agent's observation.
 *
 * The game is a script of frames consumed one per step or reset. A frame carries the custom
 * observation the state modifier makes of it (a list of flat channels: 0 selection, 2 friendly
 * density, 3 enemy hit points, 4 enemy density) and the centroid of its selection.
 */
module MinigameEnv {
  import opened Common
  import AI = ActionInterface

  type Channel = seq<real>

  datatype RawFrame = RawFrame(reward: real, last: bool, custom: seq<Channel>, selectionCentroid: (real, real))

  /** A frame the actuator can read: at least five channels of one positive length. */
  ghost predicate WellFormed(f: RawFrame, width: nat)
  {
    && |f.custom| >= 5
    && |f.custom[0]| > 0
    && (forall c :: 0 <= c < |f.custom| ==> |f.custom[c]| == |f.custom[0]|)
  }

  /**
   * `_combine_frames`: the previous frame without its selection channel, then the current frame's
   * channels with the selection channel moved to the end.
   */
  function CombineFrames(prev: seq<Channel>, curr: seq<Channel>): (r: seq<Channel>)
    requires |curr| >= 1
    ensures |r| == Max(|prev| - 1, 0) + |curr|
    ensures |prev| >= 1 ==> r[..|prev| - 1] == prev[1..]
    ensures r[|r| - |curr|..|r| - 1] == curr[1..]
    ensures r[|r| - 1] == curr[0]
  {
    Slice(prev, 1, |prev|) + curr[1..] + [curr[0]]
  }

  /** Each frame's selection channel appears exactly once in the result, at the end, and only the current one. */
  lemma CombinedKeepsOneSelection(prev: seq<Channel>, curr: seq<Channel>)
    requires |prev| >= 1 && |curr| >= 1
    ensures var r := CombineFrames(prev, curr);
      |r| == |prev| - 1 + |curr| && r[|r| - 1] == curr[0]
      && (forall k :: 0 <= k < |prev| - 1 ==> r[k] == prev[k + 1])
      && (forall k :: |prev| - 1 <= k < |r| - 1 ==> r[k] == curr[k - |prev| + 2])
  {
    var r := CombineFrames(prev, curr);
    assert forall k :: 0 <= k < |prev| - 1 ==> r[k] == r[..|prev| - 1][k];
    assert forall k :: |prev| - 1 <= k < |r| - 1 ==> r[k] == r[|r| - |curr|..|r| - 1][k - |prev| + 1];
  }

  /**
   * The command the actuator computes for `action` on a frame, when its selection flag is
   * `selected`; None where it raises. A selection whose channel is all zero counts as lost.
   */
  function ActuatorCommand(selected: bool, action: AI.Action, f: RawFrame, width: nat, hpMax: real): Option<AI.Command>
    requires width > 0 && WellFormed(f, width)
  {
    if action == AI.NoOp then Some(AI.NoOpCmd)
    else if !(selected && !AI.AllZero(f.custom[0])) then
      if action == AI.Select then Some(AI.SelectArmy) else None
    else if action == AI.Select then None
    else if AI.Direction(action).Some? then
      Some(AI.MoveScreen(AI.MoveTarget(f.selectionCentroid, AI.Direction(action).value.0, AI.Direction(action).value.1)))
    else if action == AI.AttackClosest then
      match AI.ClosestCell(f.selectionCentroid, f.custom[4], width)
      case Ok(k) => Some(AI.AttackScreen(AI.FlippedCell(k, width)))
      case Fail(_) => None
    else Some(AI.AttackScreen(AI.FlippedCell(AI.WeakestCell(f.custom[3], f.custom[4], hpMax), width)))
  }

  /** The actuator's selection flag after it handles `action` on a frame. */
  function SelectedAfter(selected: bool, action: AI.Action, f: RawFrame): bool
    requires |f.custom| >= 1
  {
    if action == AI.NoOp then selected
    else (selected && !AI.AllZero(f.custom[0])) || action == AI.Select
  }

  /** A fresh array holding a channel. */
  method ToArray(c: Channel) returns (a: array<real>)
    ensures fresh(a) && a[..] == c
  {
    a := new real[|c|](k requires 0 <= k < |c| => c[k]);
  }

  class MinigameEnvironment {
    const actuator: AI.Actuator
    /** The screen width of every channel, and the hit-point dtype's maximum. */
    const width: nat
    const hpMax: real
    /** The frames the game will answer with, in order. */
    var script: seq<RawFrame>
    /** The raw commands sent to the game, in order. */
    var sent: seq<AI.Command>
    var prevFrame: Option<RawFrame>
    var currFrame: Option<RawFrame>
    var terminal: bool

    ghost predicate Valid()
      reads this
    {
      && width > 0
      && (forall k :: 0 <= k < |script| ==> WellFormed(script[k], width))
      && (currFrame.Some? ==> WellFormed(currFrame.value, width))
      && (prevFrame.Some? ==> WellFormed(prevFrame.value, width))
    }

    constructor (width: nat, hpMax: real, script: seq<RawFrame>)
      requires width > 0 && forall k :: 0 <= k < |script| ==> WellFormed(script[k], width)
      ensures Valid() && fresh(actuator) && !actuator.unitsSelected
      ensures this.script == script && sent == [] && prevFrame == None && currFrame == None && terminal
    {
      actuator := new AI.Actuator();
      this.width := width;
      this.hpMax := hpMax;
      this.script := script;
      sent := [];
      prevFrame := None;
      currFrame := None;
      terminal := true;
    }

    /** `_reset_env`: the current frame becomes the previous one and the game's next frame the current one. */
    method ResetEnv() returns (r: Result<RawFrame>)
      requires Valid()
      modifies this`script, this`prevFrame, this`currFrame
      ensures Valid()
      ensures r.Fail? <==> old(script) == []
      ensures r.Fail? ==> unchanged(this)
      ensures r.Ok? ==>
        && script == old(script[1..]) && prevFrame == old(currFrame)
        && currFrame == Some(old(script[0])) && r.value == old(script[0])
    {
      if script == [] {
        return Fail("the game sent no further observation");
      }
      prevFrame := currFrame;
      currFrame := Some(script[0]);
      script := script[1..];
      r := Ok(currFrame.value);
    }

    /** `_step_env`: sends the command; otherwise as `_reset_env`. */
    method StepEnv(cmd: AI.Command) returns (r: Result<RawFrame>)
      requires Valid()
      modifies this`script, this`sent, this`prevFrame, this`currFrame
      ensures Valid()
      ensures r.Fail? <==> old(script) == []
      ensures r.Fail? ==> unchanged(this)
      ensures r.Ok? ==>
        && script == old(script[1..]) && sent == old(sent) + [cmd] && prevFrame == old(currFrame)
        && currFrame == Some(old(script[0])) && r.value == old(script[0])
    {
      if script == [] {
        return Fail("the game sent no further observation");
      }
      prevFrame := currFrame;
      currFrame := Some(script[0]);
      script := script[1..];
      sent := sent + [cmd];
      r := Ok(currFrame.value);
    }

    /** The actuator applied to a frame's custom observation, on fresh copies of its channels. */
    method Actuate(action: AI.Action, f: RawFrame) returns (r: Result<AI.Command>)
      requires Valid() && WellFormed(f, width)
      modifies actuator
      ensures action == AI.NoOp ==> r == Ok(AI.NoOpCmd) && actuator.unitsSelected == old(actuator.unitsSelected)
      ensures action != AI.NoOp && !(old(actuator.unitsSelected) && !AI.AllZero(f.custom[0])) ==>
        if action == AI.Select then r == Ok(AI.SelectArmy) && actuator.unitsSelected
        else r.Fail? && !actuator.unitsSelected
      ensures action != AI.NoOp && old(actuator.unitsSelected) && !AI.AllZero(f.custom[0]) ==>
        actuator.unitsSelected && (action == AI.Select ==> r.Fail?)
      ensures r.Ok? <==> ActuatorCommand(old(actuator.unitsSelected), action, f, width, hpMax).Some?
      ensures r.Ok? ==> r.value == ActuatorCommand(old(actuator.unitsSelected), action, f, width, hpMax).value
      ensures actuator.unitsSelected == SelectedAfter(old(actuator.unitsSelected), action, f)
    {
      var selected := ToArray(f.custom[0]);
      var hp := ToArray(f.custom[3]);
      var density := ToArray(f.custom[4]);
      r := actuator.ComputeAction(action, selected, hp, density, width, f.selectionCentroid, hpMax);
    }

    /**
     * `_run_to_next`: resets the game, or issues the agent's action on the current frame. Unless the
     * frame reached is a last frame, it fails when every marine is dead, and takes one SELECT step
     * when the army is not (or no longer) selected; afterwards the army is selected.
     */
    method RunToNext(start: Option<AI.Action>) returns (r: Result<RawFrame>)
      requires Valid()
      modifies this`script, this`sent, this`prevFrame, this`currFrame, actuator
      ensures Valid()
      ensures |script| <= |old(script)|
      ensures r.Ok? ==> |script| < |old(script)|
      ensures r.Ok? && start.Some? ==> old(currFrame).Some?
      ensures script == old(script)[|old(script)| - |script|..]
      ensures r.Ok? ==>
        var d := |old(script)| - |script|;
        && 1 <= d <= 2 && r.value == old(script)[d - 1] && currFrame == Some(r.value)
        && prevFrame == (if d == 2 then Some(old(script)[0]) else old(currFrame))
      ensures r.Ok? && r.value.last && |old(script)| - |script| == 1 ==> currFrame == Some(old(script[0]))
      ensures r.Ok? && old(script[0]).last ==> |old(script)| - |script| == 1 && r.value == old(script[0])
      ensures r.Ok? && !r.value.last ==> actuator.unitsSelected
      ensures r.Ok? && !old(script[0]).last ==> !AI.AllZero(old(script[0]).custom[2])
      ensures old(script) != [] && !old(script[0]).last && AI.AllZero(old(script[0]).custom[2]) ==> r.Fail?
      ensures r.Ok? && start.Some? ==> ActuatorCommand(old(actuator.unitsSelected), start.value, old(currFrame).value, width, hpMax).Some?
      ensures r.Ok? ==>
        var sel := if start.Some? then SelectedAfter(old(actuator.unitsSelected), start.value, old(currFrame).value)
                   else old(actuator.unitsSelected);
        var select := !old(script[0]).last && (!sel || AI.AllZero(old(script[0]).custom[0]));
        && |old(script)| - |script| == (if select then 2 else 1)
        && sent == old(sent)
                   + (if start.Some? then [ActuatorCommand(old(actuator.unitsSelected), start.value, old(currFrame).value, width, hpMax).value] else [])
                   + (if select then [AI.SelectArmy] else [])
    {
      if start.None? {
        r := ResetEnv();
      } else {
        if currFrame.None? {
          return Fail("the state modifier cannot read a missing frame");
        }
        var cmd := Actuate(start.value, currFrame.value);
        if cmd.Fail? {
          return Fail(cmd.reason);
        }
        r := StepEnv(cmd.value);
      }
      if r.Fail? || r.value.last {
        return;
      }
      r := SelectIfNeeded(r.value);
    }

    /**
     * The end of `_run_to_next` on a current frame `f` that is not last: fails when every marine
     * is dead, and takes one SELECT step when the army is not (or no longer) selected.
     */
    method SelectIfNeeded(f: RawFrame) returns (r: Result<RawFrame>)
      requires Valid() && currFrame == Some(f) && !f.last
      modifies this`script, this`sent, this`prevFrame, this`currFrame, actuator
      ensures Valid()
      ensures |script| <= |old(script)| && script == old(script)[|old(script)| - |script|..]
      ensures AI.AllZero(f.custom[2]) ==> r.Fail?
      ensures r.Ok? ==>
        var select := !old(actuator.unitsSelected) || AI.AllZero(f.custom[0]);
        && actuator.unitsSelected && currFrame == Some(r.value)
        && |old(script)| - |script| == (if select then 1 else 0)
        && sent == old(sent) + (if select then [AI.SelectArmy] else [])
        && (select ==> r.value == old(script)[0] && prevFrame == Some(f))
        && (!select ==> r.value == f && prevFrame == old(prevFrame))
    {
      if AI.AllZero(f.custom[2]) {
        return Fail("All marines dead but not terminal state");
      }
      r := Ok(f);
      if !actuator.unitsSelected || AI.AllZero(f.custom[0]) {
        var cmd := Actuate(AI.Select, f);
        assert cmd == Ok(AI.SelectArmy);
        r := StepEnv(cmd.value);
        if r.Fail? {
          return;
        }
      }
      if !actuator.unitsSelected {
        return Fail("Units not selected after select action");
      }
    }

    /** The observation handed to the agent, or the failed assertion when a frame is missing. */
    function Observation(): (r: Result<seq<Channel>>)
      reads this
      requires Valid()
      ensures r.Ok? <==> prevFrame.Some? && currFrame.Some?
      ensures r.Ok? ==> |r.value| == |prevFrame.value.custom| - 1 + |currFrame.value.custom|
    {
      if prevFrame.None? || currFrame.None? then Fail("Returning to agent after less than 2 frames should be impossible")
      else Ok(CombineFrames(prevFrame.value.custom, currFrame.value.custom))
    }

    /** `reset`: clears the selection and the terminal flag, runs to the first decision point, and reports the frame reached. */
    method Reset() returns (r: Result<(seq<Channel>, real, bool)>)
      requires Valid()
      modifies this`script, this`sent, this`prevFrame, this`currFrame, this`terminal, actuator
      ensures Valid()
      ensures |script| <= |old(script)| && script == old(script)[|old(script)| - |script|..]
      ensures r.Ok? ==>
        var d := |old(script)| - |script|;
        && 1 <= d <= 2 && currFrame == Some(old(script)[d - 1])
        && prevFrame == (if d == 2 then Some(old(script)[0]) else old(currFrame))
        && sent == old(sent) + (if d == 2 then [AI.SelectArmy] else [])
      ensures r.Ok? ==>
        && currFrame.Some? && terminal == currFrame.value.last
        && Observation().Ok? && r.value == (Observation().value, currFrame.value.reward, currFrame.value.last)
      ensures r.Ok? && !terminal ==> actuator.unitsSelected
    {
      actuator.Reset();
      terminal := false;
      var raw := RunToNext(None);
      if raw.Fail? {
        return Fail(raw.reason);
      }
      terminal := raw.value.last;
      var obs := Observation();
      if obs.Fail? {
        return Fail(obs.reason);
      }
      r := Ok((obs.value, raw.value.reward, raw.value.last));
    }

    /** `step`: refuses a terminal wrapper, runs the agent's action to the next decision point, and reports the frame reached. */
    method Step(action: AI.Action) returns (r: Result<(seq<Channel>, real, bool)>)
      requires Valid()
      modifies this`script, this`sent, this`prevFrame, this`currFrame, this`terminal, actuator
      ensures Valid()
      ensures old(terminal) ==> r.Fail? && unchanged(this) && unchanged(actuator)
      ensures |script| <= |old(script)| && script == old(script)[|old(script)| - |script|..]
      ensures r.Ok? ==>
        var d := |old(script)| - |script|;
        && 1 <= d <= 2 && currFrame == Some(old(script)[d - 1])
        && prevFrame == (if d == 2 then Some(old(script)[0]) else old(currFrame))
        && old(currFrame).Some? && ActuatorCommand(old(actuator.unitsSelected), action, old(currFrame).value, width, hpMax).Some?
        && sent == old(sent) + [ActuatorCommand(old(actuator.unitsSelected), action, old(currFrame).value, width, hpMax).value]
                   + (if d == 2 then [AI.SelectArmy] else [])
      ensures r.Ok? ==>
        && currFrame.Some? && terminal == currFrame.value.last
        && Observation().Ok? && r.value == (Observation().value, currFrame.value.reward, currFrame.value.last)
      ensures r.Ok? && !terminal ==> actuator.unitsSelected
    {
      if terminal {
        return Fail("Environment must be reset after init or terminal");
      }
      var raw := RunToNext(Some(action));
      if raw.Fail? {
        return Fail(raw.reason);
      }
      terminal := raw.value.last;
      var obs := Observation();
      assert obs.Ok?;
      r := Ok((obs.value, raw.value.reward, raw.value.last));
    }
  }
}
