/**
 * The Pommerman relation-graph agent's encoders: the channel stack it makes of an observation,
 * the flames next to an agent, and the ground-truth relevance graph update between two states.
 *
 * A board-shaped plane is a flat row-major sequence of `rows * cols` cells.
 */
module RelGraphAgent {
  import opened Common

  type Plane = seq<int>

  /** Ten board-item planes, seven additional planes and six previous-action planes. */
  const NumChannels: nat := 23
  const PowerupRelevance: real := 10.0
  const FlameRelevance: real := 100.0

  /** The board item values with a plane of their own, in channel order. */
  const BoardValues: seq<int> := [0, 1, 2, 3, 4, 6, 7, 8, 10, 11]
  /** The observation fields copied into channels 10 to 16, in channel order. */
  const AdditionalImages: seq<string> := ["bomb_blast_strength", "bomb_life", "bomb_moving_direction", "flame_life", "ammo", "blast_strength", "can_kick"]
  const NumActions: nat := 6

  /** The planes of the item values: the flames and the two agents. */
  const FlameChannel: nat := 4
  const AgentChannel: nat := 8

  /** An observation field is either a board-shaped image or a scalar that numpy broadcasts. */
  datatype Layer = Image(cells: Plane) | Scalar(v: int)

  datatype Observation = Observation(board: Plane, fields: map<string, Layer>)

  function Constant(n: nat, v: int): (p: Plane)
    ensures |p| == n && forall k :: 0 <= k < n ==> p[k] == v
  {
    seq(n, _ => v)
  }

  /** `(board == b).astype(int)`. */
  function Indicator(board: Plane, b: int): (p: Plane)
    ensures |p| == |board|
    ensures forall k :: 0 <= k < |p| ==> (p[k] == 1 <==> board[k] == b) && (p[k] == 0 <==> board[k] != b)
  {
    seq(|board|, k requires 0 <= k < |board| => if board[k] == b then 1 else 0)
  }

  /** A layer assigned to an `n`-cell plane: an image of that size, or any scalar. */
  predicate Fits(l: Layer, n: nat)
  {
    l.Scalar? || |l.cells| == n
  }

  function Broadcast(l: Layer, n: nat): (p: Plane)
    requires Fits(l, n)
    ensures |p| == n && forall k :: 0 <= k < n ==> p[k] == if l.Scalar? then l.v else l.cells[k]
  {
    if l.Scalar? then Constant(n, l.v) else l.cells
  }

  /** Every additional field is present and fits the board. */
  predicate FieldsFit(obs: Observation)
  {
    forall k :: 0 <= k < |AdditionalImages| ==> AdditionalImages[k] in obs.fields && Fits(obs.fields[AdditionalImages[k]], |obs.board|)
  }

  /** Every cell is 0 or 1. */
  predicate Binary(p: Plane)
  {
    forall k :: 0 <= k < |p| ==> p[k] == 0 || p[k] == 1
  }

  /** `np.flatnonzero`: the cells that are not zero, in increasing order. */
  function Nonzero(p: Plane): (idx: seq<nat>)
    ensures forall q :: 0 <= q < |idx| ==> idx[q] < |p| && p[idx[q]] != 0
    ensures forall q, q' :: 0 <= q < q' < |idx| ==> idx[q] < idx[q']
    ensures forall k :: 0 <= k < |p| && p[k] != 0 ==> k in idx
  {
    if p == [] then []
    else
      var n := |p| - 1;
      var front := Nonzero(p[..n]);
      assert forall k :: 0 <= k < n ==> p[..n][k] == p[k];
      if p[n] != 0 then front + [n] else front
  }

  /** Cell `k` is the cell `loc` itself or one of its in-bounds horizontal or vertical neighbours. */
  predicate Near(loc: nat, k: nat, cols: nat)
    requires cols > 0
  {
    || k == loc
    || (k % cols == loc % cols && (k / cols == loc / cols + 1 || k / cols + 1 == loc / cols))
    || (k / cols == loc / cols && (k % cols == loc % cols + 1 || k % cols + 1 == loc % cols))
  }

  class RelGraphAgent {
    const numAgents: nat
    const boardSize: nat
    const initEps: real
    var prevState: Option<seq<Plane>>
    var prevAction: Option<nat>
    var prevGraph: seq<seq<real>>

    /** The graph has a row per agent and a column per agent and per board cell. */
    ghost predicate Valid()
      reads this
    {
      && |prevGraph| == numAgents
      && forall a :: 0 <= a < |prevGraph| ==> |prevGraph[a]| == numAgents + boardSize * boardSize
    }

    /** `__init__` and `reset`: `noise` stands for the uniform random draw added to `init_eps`. */
    constructor (numAgents: nat, boardSize: nat, initEps: real, noise: seq<seq<real>>)
      requires |noise| == numAgents && forall a :: 0 <= a < |noise| ==> |noise[a]| == numAgents + boardSize * boardSize
      ensures Valid() && this.numAgents == numAgents && this.boardSize == boardSize && this.initEps == initEps
      ensures prevState == None && prevAction == None
      ensures forall a, c :: 0 <= a < numAgents && 0 <= c < |noise[a]| ==> prevGraph[a][c] == noise[a][c] + initEps
    {
      this.numAgents := numAgents;
      this.boardSize := boardSize;
      this.initEps := initEps;
      prevState := None;
      prevAction := None;
      prevGraph := seq(|noise|, a requires 0 <= a < |noise| =>
        seq(|noise[a]|, c requires 0 <= c < |noise[a]| => noise[a][c] + initEps));
    }

    /** `reset`: forgets the previous state and action and draws a fresh graph. */
    method Reset(noise: seq<seq<real>>)
      requires |noise| == numAgents && forall a :: 0 <= a < |noise| ==> |noise[a]| == numAgents + boardSize * boardSize
      modifies this
      ensures Valid() && prevState == None && prevAction == None
      ensures forall a, c :: 0 <= a < numAgents && 0 <= c < |noise[a]| ==> prevGraph[a][c] == noise[a][c] + initEps
    {
      prevState := None;
      prevAction := None;
      prevGraph := seq(|noise|, a requires 0 <= a < |noise| =>
        seq(|noise[a]|, c requires 0 <= c < |noise[a]| => noise[a][c] + initEps));
    }

    /**
     * `state_space_converter`: one indicator plane per listed board value, the seven additional
     * fields, then the previous action one-hot (all zero before the first action). A missing or
     * ill-shaped field, or an action past the six planes, is an error.
     */
    method StateSpaceConverter(obs: Observation) returns (r: Result<seq<Plane>>)
      ensures r.Ok? <==> FieldsFit(obs) && (prevAction.None? || prevAction.value < NumActions)
      ensures r.Ok? ==>
        && |r.value| == NumChannels
        && (forall c :: 0 <= c < NumChannels ==> |r.value[c]| == |obs.board|)
        && (forall c :: 0 <= c < |BoardValues| ==> r.value[c] == Indicator(obs.board, BoardValues[c]))
        && (forall c :: 10 <= c < 17 ==> r.value[c] == Broadcast(obs.fields[AdditionalImages[c - 10]], |obs.board|))
        && (forall c :: 17 <= c < NumChannels ==> r.value[c] == Constant(|obs.board|, if prevAction == Some(c - 17) then 1 else 0))
    {
      var n := |obs.board|;
      var state := new Plane[NumChannels](_ => Constant(n, 0));
      var stateIdx := FillItemPlanes(state, obs.board);
      var filled;
      filled, stateIdx := FillFieldPlanes(state, stateIdx, obs);
      if filled.Fail? {
        return Fail(filled.reason);
      }
      if prevAction.Some? {
        if stateIdx + prevAction.value >= NumChannels {
          return Fail("index out of bounds for the action planes");
        }
        state[stateIdx + prevAction.value] := Constant(n, 1);
      }
      stateIdx := stateIdx + NumActions;
      assert stateIdx == state.Length;
      assert forall c :: 17 <= c < NumChannels ==> state[c] == Constant(n, if prevAction == Some(c - 17) then 1 else 0);
      r := Ok(state[..]);
    }
  }

  /** The board-item loop of `state_space_converter`: planes 0 to 9, leaving the next plane index. */
  method FillItemPlanes(state: array<Plane>, board: Plane) returns (stateIdx: nat)
    requires state.Length == NumChannels
    modifies state
    ensures stateIdx == |BoardValues|
    ensures forall c :: 0 <= c < |BoardValues| ==> state[c] == Indicator(board, BoardValues[c])
    ensures forall c :: |BoardValues| <= c < NumChannels ==> state[c] == old(state[c])
  {
    stateIdx := 0;
    for b := 0 to |BoardValues|
      invariant stateIdx == b
      invariant forall c :: 0 <= c < b ==> state[c] == Indicator(board, BoardValues[c])
      invariant forall c :: b <= c < NumChannels ==> state[c] == old(state[c])
    {
      state[stateIdx] := Indicator(board, BoardValues[b]);
      stateIdx := stateIdx + 1;
    }
  }

  /**
   * The additional-field loop of `state_space_converter`: planes 10 to 16 from plane index
   * `start`; a missing field or one that does not fit the board stops it.
   */
  method FillFieldPlanes(state: array<Plane>, start: nat, obs: Observation) returns (r: Result<()>, stateIdx: nat)
    requires state.Length == NumChannels && start == |BoardValues|
    modifies state
    ensures r.Ok? <==> FieldsFit(obs)
    ensures r.Ok? ==> stateIdx == start + |AdditionalImages|
    ensures forall c :: 0 <= c < start ==> state[c] == old(state[c])
    ensures r.Ok? ==> forall c :: 10 <= c < 17 ==> state[c] == Broadcast(obs.fields[AdditionalImages[c - 10]], |obs.board|)
    ensures forall c :: 17 <= c < NumChannels ==> state[c] == old(state[c])
  {
    var n := |obs.board|;
    stateIdx := start;
    for im := 0 to |AdditionalImages|
      invariant stateIdx == 10 + im
      invariant forall k :: 0 <= k < im ==> AdditionalImages[k] in obs.fields && Fits(obs.fields[AdditionalImages[k]], n)
      invariant forall c :: 0 <= c < start ==> state[c] == old(state[c])
      invariant forall c :: 10 <= c < stateIdx ==> state[c] == Broadcast(obs.fields[AdditionalImages[c - 10]], n)
      invariant forall c :: 17 <= c < NumChannels ==> state[c] == old(state[c])
    {
      var name := AdditionalImages[im];
      if name !in obs.fields {
        return Fail("KeyError: " + name), stateIdx;
      }
      if !Fits(obs.fields[name], n) {
        return Fail("could not broadcast " + name + " into the board shape"), stateIdx;
      }
      state[stateIdx] := Broadcast(obs.fields[name], n);
      stateIdx := stateIdx + 1;
    }
    r := Ok(());
  }

  /** The converter's item planes hold only 0 and 1. */
  lemma ItemPlanesAreBinary(board: Plane, b: int)
    ensures Binary(Indicator(board, b))
  {
  }

  /**
   * `get_adjacent_flames`: the flames on the agent's cell and its in-bounds neighbours. An agent
   * plane with no agent gives no flames; one with several agents makes numpy's truth test fail.
   */
  method GetAdjacentFlames(agentFrame: Plane, flames: Plane, rows: nat, cols: nat) returns (r: Result<Plane>)
    requires cols > 0 && |agentFrame| == rows * cols && |flames| == rows * cols
    requires Binary(agentFrame) && Binary(flames)
    ensures r.Fail? <==> |Nonzero(agentFrame)| > 1
    ensures r.Ok? ==> |r.value| == rows * cols && Binary(r.value)
    ensures r.Ok? ==> forall k :: 0 <= k < rows * cols ==>
      (r.value[k] == 1 <==> flames[k] == 1 && |Nonzero(agentFrame)| == 1 && Near(Nonzero(agentFrame)[0], k, cols))
  {
    var loc := Nonzero(agentFrame);
    if |loc| > 1 {
      return Fail("The truth value of an array with more than one element is ambiguous");
    }
    var adjacent := new int[rows * cols](k requires 0 <= k < rows * cols => agentFrame[k]);
    if |loc| == 1 {
      var l := loc[0];
      assert forall k :: 0 <= k < rows * cols && agentFrame[k] != 0 ==> k in loc;
      MarkNeighbours(adjacent, l, rows, cols);
      forall k | 0 <= k < rows * cols
        ensures adjacent[k] == 1 <==> Near(l, k, cols)
      {
        if Near(l, k, cols) && k != l {
          NearIsWritten(l, k, rows, cols);
        }
        if Written(l, k, rows, cols) {
          WrittenIsNear(l, k, rows, cols);
        }
      }
    } else {
      assert forall k :: 0 <= k < rows * cols ==> adjacent[k] == 0;
    }
    r := Ok(seq(rows * cols, k requires 0 <= k < rows * cols reads adjacent => if adjacent[k] == 1 && flames[k] == 1 then 1 else 0));
  }

  /** The four bounds-checked writes of `get_adjacent_flames` around the agent's cell `l`. */
  method MarkNeighbours(adjacent: array<int>, l: nat, rows: nat, cols: nat)
    requires cols > 0 && l < rows * cols && adjacent.Length == rows * cols
    modifies adjacent
    ensures forall k :: 0 <= k < rows * cols ==> adjacent[k] == if Written(l, k, rows, cols) then 1 else old(adjacent[k])
  {
    Neighbours(l, rows, cols);
    if l / cols > 0 {
      adjacent[l - cols] := 1;
    }
    if l / cols < rows - 1 {
      adjacent[l + cols] := 1;
    }
    if l % cols > 0 {
      adjacent[l - 1] := 1;
    }
    if l % cols < cols - 1 {
      adjacent[l + 1] := 1;
    }
  }

  /** A cell of an `rows` by `cols` board lies on one of its rows. */
  lemma RowBound(l: nat, rows: nat, cols: nat)
    requires cols > 0 && l < rows * cols
    ensures l / cols < rows
  {
    var q := l / cols;
    assert q * cols <= l;
    if q >= rows {
      MulLe(rows, q, cols);
    }
  }

  lemma MulLe(a: nat, b: nat, c: nat)
    requires a <= b
    ensures a * c <= b * c
  {
  }

  /** The four neighbour cells of `l`, where their bounds checks pass: in range, with the expected row and column. */
  lemma Neighbours(l: nat, rows: nat, cols: nat)
    requires cols > 0 && l < rows * cols
    ensures l / cols < rows
    ensures l / cols > 0 ==> l >= cols && (l - cols) / cols == l / cols - 1 && (l - cols) % cols == l % cols
    ensures l / cols < rows - 1 ==> l + cols < rows * cols && (l + cols) / cols == l / cols + 1 && (l + cols) % cols == l % cols
    ensures l % cols > 0 ==> l >= 1 && (l - 1) / cols == l / cols && (l - 1) % cols == l % cols - 1
    ensures l % cols < cols - 1 ==> l + 1 < rows * cols && (l + 1) / cols == l / cols && (l + 1) % cols == l % cols + 1
  {
    var q, r := l / cols, l % cols;
    assert l == q * cols + r;
    RowBound(l, rows, cols);
    if q > 0 {
      assert l - cols == (q - 1) * cols + r;
      DivModOf(q - 1, r, cols);
    }
    if q < rows - 1 {
      assert l + cols == (q + 1) * cols + r;
      DivModOf(q + 1, r, cols);
      MulLe(q + 2, rows, cols);
      assert (q + 2) * cols == (q + 1) * cols + cols;
    }
    if r > 0 {
      DivModOf(q, r - 1, cols);
    }
    if r < cols - 1 {
      DivModOf(q, r + 1, cols);
      MulLe(q + 1, rows, cols);
      assert (q + 1) * cols == q * cols + cols;
    }
  }

  /** The cells `get_adjacent_flames` sets to 1 around an agent at `l`: each neighbour whose bounds check passes. */
  predicate Written(l: nat, k: nat, rows: nat, cols: nat)
    requires cols > 0
  {
    || (l / cols > 0 && k == l - cols)
    || (l / cols < rows - 1 && k == l + cols)
    || (l % cols > 0 && k == l - 1)
    || (l % cols < cols - 1 && k == l + 1)
  }

  /** A neighbour of `l` on the board is one of the cells the bounds checks let through. */
  lemma NearIsWritten(l: nat, k: nat, rows: nat, cols: nat)
    requires cols > 0 && l < rows * cols && k < rows * cols
    requires Near(l, k, cols) && k != l
    ensures Written(l, k, rows, cols)
  {
    var ql, rl := l / cols, l % cols;
    var qk, rk := k / cols, k % cols;
    if rk == rl && qk == ql + 1 {
      RowBound(k, rows, cols);
      SameColumn(k, l, cols);
    } else if rk == rl && qk + 1 == ql {
      SameColumn(l, k, cols);
    } else if qk == ql && rk == rl + 1 {
      SameRow(k, l, cols);
    } else {
      SameRow(l, k, cols);
    }
  }

  /** Cell `k` one row below cell `l` in the same column is `cols` cells further. */
  lemma SameColumn(k: nat, l: nat, cols: nat)
    requires cols > 0 && k % cols == l % cols && k / cols == l / cols + 1
    ensures k == l + cols
  {
    var q := l / cols;
    assert k == (q + 1) * cols + l % cols;
    assert (q + 1) * cols == q * cols + cols;
  }

  /** Cell `k` one column right of cell `l` in the same row is the next cell. */
  lemma SameRow(k: nat, l: nat, cols: nat)
    requires cols > 0 && k / cols == l / cols && k % cols == l % cols + 1
    ensures k == l + 1
  {
    assert k == (k / cols) * cols + k % cols;
    assert l == (l / cols) * cols + l % cols;
  }

  /** The cells the bounds checks let through are neighbours of `l`. */
  lemma WrittenIsNear(l: nat, k: nat, rows: nat, cols: nat)
    requires cols > 0 && l < rows * cols
    requires Written(l, k, rows, cols)
    ensures Near(l, k, cols)
  {
    Neighbours(l, rows, cols);
  }

  /** Whether every cell of plane `i` grew from `curr` to `next` (numpy's `.all()`). */
  predicate Grew(curr: seq<Plane>, next: seq<Plane>, i: nat)
    requires i < |curr| && i < |next| && |curr[i]| == |next[i]|
  {
    forall k :: 0 <= k < |curr[i]| ==> next[i][k] > curr[i][k]
  }

  /** Some powerup channel (ammo, blast strength, can kick) grew in every cell. */
  predicate PowerupGained(curr: seq<Plane>, next: seq<Plane>)
    requires |curr| == NumChannels && |next| == NumChannels
    requires forall c :: 0 <= c < NumChannels ==> |curr[c]| == |next[c]|
  {
    Grew(curr, next, 14) || Grew(curr, next, 15) || Grew(curr, next, 16)
  }

  /** Some of the first `i` powerup channels grew in every cell. */
  predicate GrewAmong(curr: seq<Plane>, next: seq<Plane>, i: nat)
    requires i <= 3 && |curr| == NumChannels && |next| == NumChannels
    requires forall c :: 0 <= c < NumChannels ==> |curr[c]| == |next[c]|
  {
    i > 0 && (GrewAmong(curr, next, i - 1) || Grew(curr, next, 13 + i))
  }

  /** No cell of the plane is set (numpy's `not p.any()`). */
  predicate Empty(p: Plane)
  {
    forall k :: 0 <= k < |p| ==> p[k] == 0
  }

  /** Agent `a` is on no cell of the next state. */
  predicate Died(next: seq<Plane>, a: nat)
    requires AgentChannel + a < |next|
  {
    Empty(next[AgentChannel + a])
  }

  /** Agent `a` has left the board but was on several cells before, so its flames cannot be found. */
  predicate DeathFails(curr: seq<Plane>, next: seq<Plane>, a: nat)
    requires AgentChannel + a < |curr| && AgentChannel + a < |next|
  {
    Died(next, a) && |Nonzero(curr[AgentChannel + a])| > 1
  }

  /** Cell `k` is on fire in `flames` and next to the single agent of `agentFrame`. */
  predicate FlameNear(agentFrame: Plane, flames: Plane, k: nat, cols: nat)
    requires cols > 0 && k < |flames|
  {
    flames[k] == 1 && |Nonzero(agentFrame)| == 1 && Near(Nonzero(agentFrame)[0], k, cols)
  }

  /** Cell `k` burns next to where agent `a` was before it left the board. */
  predicate KilledBy(curr: seq<Plane>, next: seq<Plane>, a: nat, k: nat, cols: nat)
    requires cols > 0 && |curr| == NumChannels && |next| == NumChannels && AgentChannel + a < NumChannels
  {
    k < |next[FlameChannel]| && Died(next, a) && FlameNear(curr[AgentChannel + a], next[FlameChannel], k, cols)
  }

  /** `row` with every listed cell set to `v`. */
  method MarkCells(row: seq<real>, cells: seq<nat>, v: real) returns (out: seq<real>)
    requires forall q :: 0 <= q < |cells| ==> cells[q] < |row|
    ensures |out| == |row|
    ensures forall c :: 0 <= c < |row| ==> out[c] == if c in cells then v else row[c]
  {
    out := row;
    for f := 0 to |cells|
      invariant |out| == |row|
      invariant forall c :: 0 <= c < |row| ==> out[c] == if c in cells[..f] then v else row[c]
    {
      assert cells[..f + 1] == cells[..f] + [cells[f]];
      out := out[cells[f] := v];
    }
    assert cells[..|cells|] == cells;
  }

  /** The powerup loop of `ground_truth_update`. */
  method MarkPowerup(curr: seq<Plane>, graph: seq<seq<real>>, next: seq<Plane>, agentId: nat)
    returns (r: Result<seq<seq<real>>>)
    requires |curr| == NumChannels && |next| == NumChannels
    requires forall c :: 0 <= c < NumChannels ==> |curr[c]| == |next[c]|
    requires agentId < |graph| && AgentChannel + agentId < NumChannels
    requires forall a :: 0 <= a < |graph| ==> |graph[a]| >= |next[AgentChannel + agentId]|
    ensures r.Fail? <==> PowerupGained(curr, next) && |Nonzero(next[AgentChannel + agentId])| != 1
    ensures r.Ok? ==> |r.value| == |graph| && forall a :: 0 <= a < |graph| ==> |r.value[a]| == |graph[a]|
    ensures r.Ok? ==> forall a, c :: 0 <= a < |graph| && 0 <= c < |graph[a]| ==>
      r.value[a][c] == (
        if a == agentId && PowerupGained(curr, next) && c == Nonzero(next[AgentChannel + agentId])[0] then PowerupRelevance
        else graph[a][c])
  {
    var g := graph;
    for i := 0 to 3
      invariant |g| == |graph| && forall a :: 0 <= a < |g| ==> |g[a]| == |graph[a]|
      invariant GrewAmong(curr, next, i) ==> |Nonzero(next[AgentChannel + agentId])| == 1
      invariant forall a, c :: 0 <= a < |g| && 0 <= c < |g[a]| ==>
        g[a][c] == (
          if a == agentId && GrewAmong(curr, next, i) && c == Nonzero(next[AgentChannel + agentId])[0] then PowerupRelevance
          else graph[a][c])
    {
      if Grew(curr, next, 14 + i) {
        var loc := Nonzero(next[AgentChannel + agentId]);
        if |loc| != 1 {
          return Fail("can only convert an array of size 1 to a Python scalar");
        }
        g := g[agentId := g[agentId][loc[0] := PowerupRelevance]];
      }
    }
    assert GrewAmong(curr, next, 3) == PowerupGained(curr, next) by {
      assert GrewAmong(curr, next, 1) == Grew(curr, next, 14);
      assert GrewAmong(curr, next, 2) == (Grew(curr, next, 14) || Grew(curr, next, 15));
    }
    r := Ok(g);
  }

  /** The dead-agent loop of `ground_truth_update`, over agents 0 and 1. */
  method MarkFlames(curr: seq<Plane>, graph: seq<seq<real>>, next: seq<Plane>, rows: nat, cols: nat)
    returns (r: Result<seq<seq<real>>>)
    requires cols > 0 && |curr| == NumChannels && |next| == NumChannels
    requires forall c :: 0 <= c < NumChannels ==> |curr[c]| == rows * cols && |next[c]| == rows * cols
    requires Binary(curr[AgentChannel]) && Binary(curr[AgentChannel + 1]) && Binary(next[FlameChannel])
    requires 2 <= |graph| && forall a :: 0 <= a < |graph| ==> |graph[a]| >= rows * cols
    ensures r.Fail? <==> DeathFails(curr, next, 0) || DeathFails(curr, next, 1)
    ensures r.Ok? ==> |r.value| == |graph| && forall a :: 0 <= a < |graph| ==> |r.value[a]| == |graph[a]|
    ensures r.Ok? ==> forall a, c :: 0 <= a < |graph| && 0 <= c < |graph[a]| ==>
      r.value[a][c] == if a < 2 && KilledBy(curr, next, a, c, cols) then FlameRelevance else graph[a][c]
  {
    var g := graph;
    for agent := 0 to 2
      invariant |g| == |graph| && forall a :: 0 <= a < |g| ==> |g[a]| == |graph[a]|
      invariant agent > 0 ==> !DeathFails(curr, next, 0)
      invariant agent > 1 ==> !DeathFails(curr, next, 1)
      invariant forall a, c :: 0 <= a < |g| && 0 <= c < |g[a]| ==>
        g[a][c] == if a < agent && KilledBy(curr, next, a, c, cols) then FlameRelevance else graph[a][c]
    {
      if Died(next, agent) {
        var adj := GetAdjacentFlames(curr[AgentChannel + agent], next[FlameChannel], rows, cols);
        if adj.Fail? {
          return Fail(adj.reason);
        }
        var flameIdx := Nonzero(adj.value);
        var row := MarkCells(g[agent], flameIdx, FlameRelevance);
        forall c | 0 <= c < |g[agent]|
          ensures c in flameIdx <==> KilledBy(curr, next, agent, c, cols)
        {
          if c < rows * cols {
            assert adj.value[c] == 1 <==> c in flameIdx;
          }
        }
        g := g[agent := row];
      }
    }
    r := Ok(g);
  }

  /**
   * `ground_truth_update` on a copy of the graph: a powerup gained by agent `agentId` makes its
   * next cell relevant to it; each of agents 0 and 1 that has left the board makes the flames next
   * to its last cell relevant to it. `.item()` fails unless the gaining agent is on exactly one
   * cell, and `get_adjacent_flames` fails for a dead agent that was on several cells.
   * The previous state, which the source takes but never reads, is not a parameter.
   */
  method GroundTruthUpdate(curr: seq<Plane>, prevGraph: seq<seq<real>>, next: seq<Plane>, agentId: nat, rows: nat, cols: nat)
    returns (r: Result<seq<seq<real>>>)
    requires cols > 0 && |curr| == NumChannels && |next| == NumChannels
    requires forall c :: 0 <= c < NumChannels ==> |curr[c]| == rows * cols && |next[c]| == rows * cols
    requires Binary(curr[AgentChannel]) && Binary(curr[AgentChannel + 1]) && Binary(next[FlameChannel])
    requires 2 <= |prevGraph| && agentId < |prevGraph| && AgentChannel + agentId < NumChannels
    requires forall a :: 0 <= a < |prevGraph| ==> |prevGraph[a]| >= rows * cols
    ensures r.Fail? <==>
      || (PowerupGained(curr, next) && |Nonzero(next[AgentChannel + agentId])| != 1)
      || DeathFails(curr, next, 0) || DeathFails(curr, next, 1)
    ensures r.Ok? ==> |r.value| == |prevGraph| && forall a :: 0 <= a < |prevGraph| ==> |r.value[a]| == |prevGraph[a]|
    ensures r.Ok? ==> forall a, c :: 0 <= a < |prevGraph| && 0 <= c < |prevGraph[a]| ==>
      r.value[a][c] == (
        if a < 2 && KilledBy(curr, next, a, c, cols) then FlameRelevance
        else if a == agentId && PowerupGained(curr, next) && c == Nonzero(next[AgentChannel + agentId])[0] then PowerupRelevance
        else prevGraph[a][c])
    ensures r.Ok? && PowerupGained(curr, next) ==> r.value[agentId][Nonzero(next[AgentChannel + agentId])[0]] == PowerupRelevance
  {
    var gained := MarkPowerup(curr, prevGraph, next, agentId);
    if gained.Fail? {
      return gained;
    }
    r := MarkFlames(curr, gained.value, next, rows, cols);
    if r.Ok? && PowerupGained(curr, next) {
      var l := Nonzero(next[AgentChannel + agentId])[0];
      assert next[AgentChannel + agentId][l] != 0;
      assert !(agentId < 2 && KilledBy(curr, next, agentId, l, cols));
    }
  }
}
