/**
 * The minigame actuator: translates an abstract action into a raw game command, keeping track
 * of whether the army is selected. Observation channels are flat row-major arrays of one
 * screen width; the selection's centre of mass is an input, given as (row, column).
 */
module ActionInterface {
  import opened Common

  /** The side of the square feature screen. */
  const ScreenSize: int := 84
  /** How far a compass move reaches, in screen pixels. */
  const MoveMultiplier: real := 20.0

  datatype Action =
    | NoOp | Select
    | Left | UpLeft | Up | UpRight | Right | DownRight | Down | DownLeft
    | AttackClosest | AttackWeakest

  /** The raw commands the actuator issues. A move target is passed as computed, (row, column); an attack target is flipped to (x, y). */
  datatype Command = NoOpCmd | SelectArmy | MoveScreen(target: (real, real)) | AttackScreen(cell: (int, int))

  // ---------------------------------------------------------------------------
  // Clamping a point into the screen

  /** One coordinate of `_screen_normalize`: raised to 0 when negative, then lowered to size - 1 when beyond it. */
  function Clamp(c: real, screenSize: int): (r: real)
    ensures screenSize >= 1 ==> 0.0 <= r <= (screenSize - 1) as real
    ensures 0.0 <= c <= (screenSize - 1) as real ==> r == c
    ensures screenSize >= 1 && c < 0.0 ==> r == 0.0
    ensures c > (screenSize - 1) as real ==> r == (screenSize - 1) as real
  {
    var raised := if c < 0.0 then 0.0 else c;
    if raised > (screenSize - 1) as real then (screenSize - 1) as real else raised
  }

  lemma ClampIdempotent(c: real, screenSize: int)
    ensures Clamp(Clamp(c, screenSize), screenSize) == Clamp(c, screenSize)
  {
  }

  /** `_screen_normalize`: clamps both coordinates of the point in place. */
  method ScreenNormalize(coords: array<real>, screenSize: int)
    requires coords.Length == 2
    modifies coords
    ensures forall i :: 0 <= i < 2 ==> coords[i] == Clamp(old(coords[i]), screenSize)
  {
    var i := 0;
    while i < coords.Length
      invariant 0 <= i <= 2
      invariant forall j :: 0 <= j < i ==> coords[j] == Clamp(old(coords[j]), screenSize)
      invariant forall j :: i <= j < 2 ==> coords[j] == old(coords[j])
    {
      if coords[i] < 0.0 {
        coords[i] := 0.0;
      }
      if coords[i] > (screenSize - 1) as real {
        coords[i] := (screenSize - 1) as real;
      }
      i := i + 1;
    }
  }

  // ---------------------------------------------------------------------------
  // Compass moves

  /** The (dx, dy) step of each compass action; the other actions have none. */
  function Direction(a: Action): (d: Option<(int, int)>)
    ensures d.Some? <==> a !in {NoOp, Select, AttackClosest, AttackWeakest}
    ensures d.Some? ==> -1 <= d.value.0 <= 1 && -1 <= d.value.1 <= 1 && d.value != (0, 0)
  {
    match a
    case Left => Some((-1, 0))
    case UpLeft => Some((-1, 1))
    case Up => Some((0, 1))
    case UpRight => Some((1, 1))
    case Right => Some((1, 0))
    case DownRight => Some((1, -1))
    case Down => Some((0, -1))
    case DownLeft => Some((-1, -1))
    case _ => None
  }

  /** The eight compass actions have eight different steps. */
  lemma DirectionsDistinct(a: Action, b: Action)
    requires Direction(a).Some? && Direction(a) == Direction(b)
    ensures a == b
  {
  }

  /** The move target: the centroid shifted by 20 * (dy, dx), clamped into the 84-pixel screen. */
  function MoveTarget(com: (real, real), dx: int, dy: int): (t: (real, real))
    ensures 0.0 <= t.0 <= (ScreenSize - 1) as real && 0.0 <= t.1 <= (ScreenSize - 1) as real
    ensures 0.0 <= com.0 + MoveMultiplier * dy as real <= (ScreenSize - 1) as real ==> t.0 == com.0 + MoveMultiplier * dy as real
    ensures 0.0 <= com.1 + MoveMultiplier * dx as real <= (ScreenSize - 1) as real ==> t.1 == com.1 + MoveMultiplier * dx as real
  {
    (Clamp(com.0 + MoveMultiplier * dy as real, ScreenSize), Clamp(com.1 + MoveMultiplier * dx as real, ScreenSize))
  }

  /** `_compute_move`: builds the shifted point in a fresh array and normalizes it. */
  method ComputeMove(com: (real, real), dx: int, dy: int) returns (cmd: Command)
    ensures cmd == MoveScreen(MoveTarget(com, dx, dy))
  {
    var target := new real[2];
    target[0] := com.0 + MoveMultiplier * dy as real;
    target[1] := com.1 + MoveMultiplier * dx as real;
    ScreenNormalize(target, ScreenSize);
    cmd := MoveScreen((target[0], target[1]));
  }

  // ---------------------------------------------------------------------------
  // Retreat distance

  datatype Extended = Finite(r: real) | Infinity

  /** `_compute_movement_multiplier`: how many steps of `direction` reach the screen edge from `position`. */
  function MovementMultiplier(direction: real, position: real, screenSize: int): (m: Extended)
    ensures m == Infinity <==> direction == 0.0
    ensures direction < 0.0 ==> position + m.r * direction == 0.0
    ensures direction > 0.0 ==> position + m.r * direction == (screenSize - 1) as real
  {
    if direction < 0.0 then Finite(position / -direction)
    else if direction == 0.0 then Infinity
    else Finite(((screenSize - 1) as real - position) / direction)
  }

  // ---------------------------------------------------------------------------
  // First row-major minimum

  /** numpy's `argmin`: the first index holding the least value. */
  function FirstArgmin(s: seq<real>): (k: nat)
    requires |s| > 0
    ensures k < |s|
    ensures forall j :: 0 <= j < |s| ==> s[k] <= s[j]
    ensures forall j :: 0 <= j < k ==> s[j] > s[k]
  {
    if |s| == 1 then 0
    else
      var k := FirstArgmin(s[..|s| - 1]);
      assert forall j :: 0 <= j < |s| - 1 ==> s[..|s| - 1][j] == s[j];
      if s[|s| - 1] < s[k] then |s| - 1 else k
  }

  /** The argmin scan over an array. */
  method FindFirstArgmin(a: array<real>) returns (k: nat)
    requires a.Length > 0
    ensures k == FirstArgmin(a[..])
  {
    k := 0;
    var i := 1;
    assert a[..1][..0] == [];
    while i < a.Length
      invariant 1 <= i <= a.Length
      invariant k == FirstArgmin(a[..i])
    {
      assert a[..i + 1][..i] == a[..i];
      if a[i] < a[k] {
        k := i;
      }
      i := i + 1;
    }
    assert a[..a.Length] == a[..];
  }

  /** `unravel_index` on a row-major screen of the given width, flipped to (x, y). */
  function FlippedCell(k: nat, width: nat): (xy: (int, int))
    requires width > 0
    ensures 0 <= xy.0 < width && xy.1 >= 0 && xy.1 * width + xy.0 == k
  {
    (k % width, k / width)
  }

  // ---------------------------------------------------------------------------
  // Weakest enemy

  /** The hit points after the dead cells (zero enemy density) are overwritten with the float maximum. */
  function Masked(hp: seq<real>, density: seq<real>, dtypeMax: real): (r: seq<real>)
    requires |hp| == |density|
    ensures |r| == |hp|
    ensures forall k :: 0 <= k < |r| ==> r[k] == if density[k] == 0.0 then dtypeMax else hp[k]
  {
    seq(|hp|, k requires 0 <= k < |hp| => if density[k] == 0.0 then dtypeMax else hp[k])
  }

  /** The in-place overwrite of dead cells. */
  method MaskDead(hp: array<real>, density: array<real>, dtypeMax: real)
    requires hp.Length == density.Length && hp != density
    modifies hp
    ensures hp[..] == Masked(old(hp[..]), density[..], dtypeMax)
  {
    var k := 0;
    while k < hp.Length
      invariant 0 <= k <= hp.Length
      invariant forall j :: 0 <= j < k ==> hp[j] == if density[j] == 0.0 then dtypeMax else old(hp[j])
      invariant forall j :: k <= j < hp.Length ==> hp[j] == old(hp[j])
    {
      if density[k] == 0.0 {
        hp[k] := dtypeMax;
      }
      k := k + 1;
    }
  }

  /** The cell `_compute_attack_weakest` attacks, as an index into the flat screen. */
  function WeakestCell(hp: seq<real>, density: seq<real>, dtypeMax: real): (k: nat)
    requires |hp| == |density| > 0
    ensures k < |hp|
  {
    FirstArgmin(Masked(hp, density, dtypeMax))
  }

  /** A dead cell is never chosen while some live cell has hit points below the float maximum. */
  lemma WeakestIsLive(hp: seq<real>, density: seq<real>, dtypeMax: real, j: nat)
    requires |hp| == |density| > 0
    requires j < |hp| && density[j] != 0.0 && hp[j] < dtypeMax
    ensures density[WeakestCell(hp, density, dtypeMax)] != 0.0
    ensures hp[WeakestCell(hp, density, dtypeMax)] <= hp[j]
  {
    var m := Masked(hp, density, dtypeMax);
    var k := WeakestCell(hp, density, dtypeMax);
    assert m[k] <= m[j];
  }

  /** Among live cells, the chosen one has the fewest hit points and comes first among equals. */
  lemma WeakestIsFirstLeastLive(hp: seq<real>, density: seq<real>, dtypeMax: real, j: nat)
    requires |hp| == |density| > 0
    requires density[WeakestCell(hp, density, dtypeMax)] != 0.0
    requires j < |hp| && density[j] != 0.0
    ensures hp[WeakestCell(hp, density, dtypeMax)] <= hp[j]
    ensures j < WeakestCell(hp, density, dtypeMax) ==> hp[j] > hp[WeakestCell(hp, density, dtypeMax)]
  {
    var m := Masked(hp, density, dtypeMax);
    var k := WeakestCell(hp, density, dtypeMax);
    assert m[k] <= m[j];
    assert m[k] == hp[k] && m[j] == hp[j];
  }

  /** `_compute_attack_weakest`: masks the caller's hit-point channel in place, then attacks its first minimum. */
  method ComputeAttackWeakest(hp: array<real>, density: array<real>, width: nat, dtypeMax: real) returns (cmd: Command)
    requires hp.Length == density.Length > 0 && hp != density && width > 0
    modifies hp
    ensures hp[..] == Masked(old(hp[..]), density[..], dtypeMax)
    ensures cmd == AttackScreen(FlippedCell(WeakestCell(old(hp[..]), density[..], dtypeMax), width))
  {
    MaskDead(hp, density, dtypeMax);
    var k := FindFirstArgmin(hp);
    cmd := AttackScreen(FlippedCell(k, width));
  }

  // ---------------------------------------------------------------------------
  // Closest enemy

  /** `nonzero()` of a flat screen: the live cells in row-major order. */
  function LiveCells(density: seq<real>): (cells: seq<nat>)
    ensures forall p :: 0 <= p < |cells| ==> cells[p] < |density| && density[cells[p]] != 0.0
    ensures forall p, q :: 0 <= p < |cells| && 0 <= q < |cells| ==> (p < q <==> cells[p] < cells[q])
    ensures forall k :: 0 <= k < |density| && density[k] != 0.0 ==> k in cells
  {
    if density == [] then []
    else
      var n := |density| - 1;
      var front := LiveCells(density[..n]);
      assert forall k :: 0 <= k < n ==> density[..n][k] == density[k];
      if density[n] != 0.0 then front + [n] else front
  }

  /** The squared distance from the centroid (row, column) to a cell; the same order as the Euclidean distance. */
  function SquaredDistance(com: (real, real), k: nat, width: nat): real
    requires width > 0
  {
    var row := (k / width) as real;
    var col := (k % width) as real;
    (row - com.0) * (row - com.0) + (col - com.1) * (col - com.1)
  }

  function Distances(com: (real, real), cells: seq<nat>, width: nat): (d: seq<real>)
    requires width > 0
    ensures |d| == |cells|
    ensures forall p :: 0 <= p < |d| ==> d[p] == SquaredDistance(com, cells[p], width)
  {
    seq(|cells|, p requires 0 <= p < |cells| => SquaredDistance(com, cells[p], width))
  }

  /** The cell `_compute_attack_closest` attacks, or the failure of `argmin` when there is no enemy. */
  function ClosestCell(com: (real, real), density: seq<real>, width: nat): (r: Result<nat>)
    requires width > 0
    ensures r.Ok? ==> r.value < |density| && density[r.value] != 0.0
  {
    var cells := LiveCells(density);
    if cells == [] then Fail("attempt to get argmin of an empty sequence")
    else Ok(cells[FirstArgmin(Distances(com, cells, width))])
  }

  /** There is a target exactly when some cell is live; it is nearest, and first in row-major order among the nearest. */
  lemma ClosestIsNearest(com: (real, real), density: seq<real>, width: nat, j: nat)
    requires width > 0 && j < |density| && density[j] != 0.0
    ensures ClosestCell(com, density, width).Ok?
    ensures var k := ClosestCell(com, density, width).value;
      SquaredDistance(com, k, width) <= SquaredDistance(com, j, width)
      && (j < k ==> SquaredDistance(com, j, width) > SquaredDistance(com, k, width))
  {
    var cells := LiveCells(density);
    assert j in cells;
    var q :| 0 <= q < |cells| && cells[q] == j;
    var d := Distances(com, cells, width);
    var p := FirstArgmin(d);
    assert d[p] <= d[q];
    if j < cells[p] {
      assert q < p;
      assert d[q] > d[p];
    }
  }

  /** `_compute_attack_closest`: lists the enemy cells, measures each, and attacks the first nearest, flipped to (x, y). */
  method ComputeAttackClosest(com: (real, real), density: array<real>, width: nat) returns (r: Result<Command>)
    requires width > 0
    ensures r.Ok? <==> ClosestCell(com, density[..], width).Ok?
    ensures r.Ok? ==> r.value == AttackScreen(FlippedCell(ClosestCell(com, density[..], width).value, width))
  {
    var cells := LiveCells(density[..]);
    if cells == [] {
      return Fail("attempt to get argmin of an empty sequence");
    }
    var distances := new real[|cells|](p requires 0 <= p < |cells| => SquaredDistance(com, cells[p], width));
    assert distances[..] == Distances(com, cells, width);
    var p := FindFirstArgmin(distances);
    r := Ok(AttackScreen(FlippedCell(cells[p], width)));
  }

  // ---------------------------------------------------------------------------

  predicate AllZero(s: seq<real>)
  {
    forall k :: 0 <= k < |s| ==> s[k] == 0.0
  }

  /** `np.all(selected == 0)`. */
  method IsAllZero(a: array<real>) returns (b: bool)
    ensures b <==> AllZero(a[..])
  {
    b := true;
    var k := 0;
    while k < a.Length
      invariant 0 <= k <= a.Length
      invariant b <==> AllZero(a[..k])
    {
      if a[k] != 0.0 {
        b := false;
      }
      k := k + 1;
    }
    assert a[..k] == a[..];
  }

  class Actuator {
    /** Whether the army is believed to be selected. */
    var unitsSelected: bool

    constructor ()
      ensures !unitsSelected
    {
      unitsSelected := false;
    }

    method Reset()
      modifies this
      ensures !unitsSelected
    {
      unitsSelected := false;
    }

    /**
     * `compute_action`. The custom observation is given by its selection, enemy hit-point and enemy
     * density channels and by the selection's centroid; `dtypeMax` is the hit-point dtype's maximum.
     * A failed assertion is a `Fail` result, after the selection flag has been updated.
     */
    method ComputeAction(action: Action, selected: array<real>, enemyHp: array<real>, enemyDensity: array<real>,
                         width: nat, com: (real, real), dtypeMax: real) returns (r: Result<Command>)
      requires width > 0 && enemyHp.Length == enemyDensity.Length > 0 && enemyHp != enemyDensity && selected != enemyHp
      modifies this, enemyHp
      ensures action == NoOp ==> r == Ok(NoOpCmd) && unitsSelected == old(unitsSelected)
      ensures action != AttackWeakest || !unitsSelected ==> enemyHp[..] == old(enemyHp[..])
      ensures action != NoOp && !(old(unitsSelected) && !AllZero(selected[..])) ==>
        if action == Select then r == Ok(SelectArmy) && unitsSelected
        else r.Fail? && !unitsSelected
      ensures action != NoOp && old(unitsSelected) && !AllZero(selected[..]) ==>
        && unitsSelected
        && (action == Select ==> r.Fail?)
        && (Direction(action).Some? ==> r == Ok(MoveScreen(MoveTarget(com, Direction(action).value.0, Direction(action).value.1))))
        && (action == AttackClosest ==>
              if ClosestCell(com, enemyDensity[..], width).Ok?
              then r == Ok(AttackScreen(FlippedCell(ClosestCell(com, enemyDensity[..], width).value, width)))
              else r.Fail?)
        && (action == AttackWeakest ==>
              && enemyHp[..] == Masked(old(enemyHp[..]), enemyDensity[..], dtypeMax)
              && r == Ok(AttackScreen(FlippedCell(WeakestCell(old(enemyHp[..]), enemyDensity[..], dtypeMax), width))))
    {
      if action == NoOp {
        return Ok(NoOpCmd);
      }
      var empty := IsAllZero(selected);
      if empty {
        unitsSelected := false;
      }
      if !unitsSelected {
        if action != Select {
          return Fail("Actuator cannot order units without selection (unit may have died)");
        }
        unitsSelected := true;
        return Ok(SelectArmy);
      }
      var d := Direction(action);
      if d.Some? {
        var cmd := ComputeMove(com, d.value.0, d.value.1);
        r := Ok(cmd);
      } else if action == AttackClosest {
        r := ComputeAttackClosest(com, enemyDensity, width);
      } else if action == AttackWeakest {
        var cmd := ComputeAttackWeakest(enemyHp, enemyDensity, width, dtypeMax);
        r := Ok(cmd);
      } else {
        r := Fail("Actuator cannot select with preexisting selection");
      }
    }
  }
}
