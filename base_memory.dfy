/**
 * The trajectory buffer of the base agent interface: the same bounded deque of eight-field
 * rows and chunked cursor as the minigame buffer, but a narrower index range, windows that
 * carry the previous actions and relevance flags, deep-copied sample rows, and a GAE pass
 * that does not bootstrap the newest row.
 */
module BaseMemory {
  import opened Common
  import PpoMemory

  /** One row: state, action, reward, done, value, return, advantage, step (fields 0..7). The action is a pair whose first component is the base action. */
  datatype Transition<S, A, B> = Transition(
    state: S, action: (A, B), reward: real, done: bool,
    value: real, ret: real, adv: real, step: int)

  /** The stacked state of a sampled row: the window's states, each frame's previous base action, and the relevance flags. */
  datatype Window<S, A> = Window(states: seq<S>, prevActions: seq<A>, relevant: seq<int>)

  /** A sampled row: a copy of the stored row with its state replaced by the window. */
  datatype Sample<S, A, B> = Sample(
    window: Window<S, A>, action: (A, B), reward: real, done: bool,
    value: real, ret: real, adv: real, step: int)

  /** The shuffled indices range over 1 .. capacity - historySize - 1. */
  function IndexCount(capacity: nat, historySize: nat): int
  {
    capacity - historySize - 1
  }

  /** The sample range: the frame count, or capacity - 1 once the frame count reaches the capacity. */
  function SampleRange(frame: nat, capacity: nat): (r: int)
    ensures frame >= capacity ==> r == capacity - 1
    ensures frame < capacity ==> r == frame
    ensures r < capacity
  {
    if frame >= capacity then capacity - 1 else frame
  }

  function Chunk(indices: seq<int>, batchSize: nat, access: nat, range: int): (r: seq<int>)
    ensures |r| <= batchSize
    ensures forall k :: 0 <= k < |r| ==> batchSize * access + k < |indices| && r[k] == indices[batchSize * access + k]
  {
    Slice(indices, batchSize * access, Max(0, Min(batchSize * (access + 1), range)))
  }

  /**
   * Whether the window loop at index i goes through: the window is not empty (an empty one leaves
   * nothing at position h - 1 to copy, and raises), and it reads only stored rows: i .. i+h-1, the
   * row i+1 whose step it tests, and the previous rows from i-1 (the indices start at 1, so never a
   * negative one). Any other index raises the deque's IndexError.
   */
  predicate WindowStored<S, A, B>(memory: seq<Transition<S, A, B>>, i: int, h: nat)
  {
    1 <= h && 1 <= i && i + h <= |memory| && i + 1 < |memory|
  }

  /** Once the deque is full, every index of the permutation leaves room for its window and for the row after it. */
  lemma FullMemoryStoresEveryWindow<S, A, B>(memory: seq<Transition<S, A, B>>, indices: seq<int>, capacity: nat, historySize: nat, k: nat)
    requires historySize >= 1 && PermutationOfRange(indices, IndexCount(capacity, historySize))
    requires |memory| == capacity && k < |indices|
    ensures WindowStored(memory, indices[k], historySize)
  {
  }

  /** Once the deque is full, every index of any chunk of the permutation leaves room for its window and for the row after it. */
  lemma FullMemoryStoresChunk<S, A, B>(memory: seq<Transition<S, A, B>>, indices: seq<int>, capacity: nat, historySize: nat, batchSize: nat, access: nat, range: int)
    requires historySize >= 1 && PermutationOfRange(indices, IndexCount(capacity, historySize))
    requires |memory| == capacity
    ensures forall k :: 0 <= k < |Chunk(indices, batchSize, access, range)| ==>
      WindowStored(memory, Chunk(indices, batchSize, access, range)[k], historySize)
  {
    forall k | 0 <= k < |Chunk(indices, batchSize, access, range)|
      ensures WindowStored(memory, Chunk(indices, batchSize, access, range)[k], historySize)
    {
      FullMemoryStoresEveryWindow(memory, indices, capacity, historySize, batchSize * access + k);
    }
  }

  /** The relevance flags of a window of h frames when the row after the sampled index has a truthy step. */
  function RelevantFlags(h: nat, restart: bool): (r: seq<int>)
    requires h >= 1
    ensures |r| == h && r[h - 1] == 1
    ensures forall j :: 0 <= j < h - 1 ==> r[j] == if restart then 0 else 1
  {
    if restart then seq(h - 1, _ => 0) + [1] else seq(h, _ => 1)
  }

  /** The window loop: appends a 1 per frame and, when the restart test holds, first zeroes the flags so far. */
  method GatherFlags(h: nat, restart: bool) returns (relevant: seq<int>)
    requires h >= 1
    ensures relevant == RelevantFlags(h, restart)
  {
    relevant := [];
    var j := 0;
    while j < h
      invariant 0 <= j <= h && |relevant| == j
      invariant forall t :: 0 <= t < j ==> relevant[t] == if restart && t < j - 1 then 0 else 1
    {
      if restart {
        relevant := seq(|relevant|, _ => 0);
      }
      relevant := relevant + [1];
      j := j + 1;
    }
  }

  /** The row sampled at index i: the window over rows i .. i+h-1, with previous actions from rows i-1 .. i+h-2. */
  function SampleAt<S, A, B>(memory: seq<Transition<S, A, B>>, i: int, h: nat): (r: Sample<S, A, B>)
    requires h >= 1 && WindowStored(memory, i, h)
  {
    var last := memory[i + h - 1];
    Sample(Window(seq(h, j requires 0 <= j < h => memory[i + j].state),
                  seq(h, j requires 0 <= j < h => memory[i + j - 1].action.0),
                  RelevantFlags(h, memory[i + 1].step != 0)),
           last.action, last.reward, last.done, last.value, last.ret, last.adv, last.step)
  }

  /** What a sampled row holds: every field of the stored row at i + h - 1, h states in order, frame j's previous action from row i + j - 1, and flags ending in 1. */
  lemma SampleAtContents<S, A, B>(memory: seq<Transition<S, A, B>>, i: int, h: nat)
    requires h >= 1 && WindowStored(memory, i, h)
    ensures var r := SampleAt(memory, i, h); var last := memory[i + h - 1];
      && (r.action, r.reward, r.done, r.value, r.ret, r.adv, r.step)
         == (last.action, last.reward, last.done, last.value, last.ret, last.adv, last.step)
      && |r.window.states| == h && |r.window.prevActions| == h && |r.window.relevant| == h
      && (forall j :: 0 <= j < h ==> r.window.states[j] == memory[i + j].state)
      && (forall j :: 0 <= j < h ==> r.window.prevActions[j] == memory[i + j - 1].action.0)
      && r.window.relevant[h - 1] == 1
  {
  }

  /** The window loop over j = 0 .. h-1. */
  method GatherSample<S, A, B>(memory: seq<Transition<S, A, B>>, i: int, h: nat) returns (r: Sample<S, A, B>)
    requires h >= 1 && WindowStored(memory, i, h)
    ensures r == SampleAt(memory, i, h)
  {
    var states: seq<S> := [];
    var prev: seq<A> := [];
    var j := 0;
    while j < h
      invariant 0 <= j <= h
      invariant states == seq(j, t requires 0 <= t < j => memory[i + t].state)
      invariant prev == seq(j, t requires 0 <= t < j => memory[i + t - 1].action.0)
    {
      states := states + [memory[i + j].state];
      prev := prev + [memory[i + j - 1].action.0];
      j := j + 1;
    }
    var relevant := GatherFlags(h, memory[i + 1].step != 0);
    var last := memory[i + h - 1];
    r := Sample(Window(states, prev, relevant), last.action, last.reward, last.done, last.value, last.ret, last.adv, last.step);
  }

  /**
   * The loop over a chunk: one copied sample per index, the buffer only read. An index whose
   * window runs past the stored rows raises, and the samples gathered so far are dropped.
   */
  method SampleChunk<S, A, B>(memory: seq<Transition<S, A, B>>, chunk: seq<int>, h: nat) returns (r: Result<seq<Sample<S, A, B>>>)
    ensures r.Ok? <==> forall k :: 0 <= k < |chunk| ==> WindowStored(memory, chunk[k], h)
    ensures r.Ok? ==> |r.value| == |chunk| && forall k :: 0 <= k < |chunk| ==> r.value[k] == SampleAt(memory, chunk[k], h)
  {
    var batch := [];
    var n := 0;
    while n < |chunk|
      invariant 0 <= n <= |chunk| && |batch| == n
      invariant forall k :: 0 <= k < n ==> WindowStored(memory, chunk[k], h)
      invariant forall k :: 0 <= k < n ==> batch[k] == SampleAt(memory, chunk[k], h)
    {
      if !WindowStored(memory, chunk[n], h) {
        return Fail("deque index out of range");
      }
      var row := GatherSample(memory, chunk[n], h);
      batch := batch + [row];
      n := n + 1;
    }
    r := Ok(batch);
  }

  // ---------------------------------------------------------------------------
  // Generalized Advantage Estimation over rows 0 .. N-2; the newest row is left as pushed.

  /** The advantage of row i < N-1: no bootstrap value, the running term restarts at the newest row. */
  function Advantage<S, A, B>(memory: seq<Transition<S, A, B>>, i: nat, gamma: real, lam: real): real
    requires i + 1 < |memory|
    decreases |memory| - i
  {
    var nonterminal := if memory[i + 1].done then 0.0 else 1.0;
    var delta := memory[i].reward + gamma * memory[i + 1].value * nonterminal - memory[i].value;
    var later := if i + 2 == |memory| then 0.0 else Advantage(memory, i + 1, gamma, lam);
    delta + gamma * lam * nonterminal * later
  }

  /** The buffer after the pass: rows before the newest hold return = advantage + value, the newest row is unchanged. */
  function Finalized<S, A, B>(memory: seq<Transition<S, A, B>>, gamma: real, lam: real): (r: seq<Transition<S, A, B>>)
    ensures |r| == |memory|
    ensures |memory| > 0 ==> r[|memory| - 1] == memory[|memory| - 1]
    ensures forall k :: 0 <= k < |r| - 1 ==> r[k].ret == r[k].adv + r[k].value
    ensures forall k :: 0 <= k < |r| ==> r[k] == memory[k].(adv := r[k].adv, ret := r[k].ret)
  {
    seq(|memory|, k requires 0 <= k < |memory| =>
      if k + 1 == |memory| then memory[k]
      else
        var a := Advantage(memory, k, gamma, lam);
        memory[k].(adv := a, ret := a + memory[k].value))
  }

  /** The loop of `compute_vtargets_adv`: rows N-2 down to 0, carrying the previous row's advantage. */
  method GaePass<S, A, B>(memory: seq<Transition<S, A, B>>, gamma: real, lam: real) returns (rows: seq<Transition<S, A, B>>)
    ensures rows == Finalized(memory, gamma, lam)
  {
    rows := memory;
    var n := |rows|;
    if n == 0 {
      return;
    }
    var prevGae := 0.0;
    var i := n - 1;
    while i > 0
      invariant 0 <= i <= n - 1 && |rows| == n
      invariant forall k :: 0 <= k < i ==> rows[k] == memory[k]
      invariant rows[n - 1] == memory[n - 1]
      invariant forall k :: i <= k < n - 1 ==> rows[k] == Finalized(memory, gamma, lam)[k]
      invariant prevGae == if i == n - 1 then 0.0 else Advantage(memory, i, gamma, lam)
    {
      i := i - 1;
      var nonterminal := if rows[i + 1].done then 0.0 else 1.0;
      var delta := rows[i].reward + gamma * rows[i + 1].value * nonterminal - rows[i].value;
      var gae := delta + gamma * lam * nonterminal * prevGae;
      assert gae == Advantage(memory, i, gamma, lam);
      rows := rows[i := rows[i].(adv := gae, ret := gae + rows[i].value)];
      prevGae := gae;
    }
    assert rows == Finalized(memory, gamma, lam);
  }

  /** The rows as the minigame buffer stores them, so that the two GAE passes can be compared. */
  function AsPpoRows<S, A, B>(memory: seq<Transition<S, A, B>>): (r: seq<PpoMemory.Transition<S, (A, B)>>)
    ensures |r| == |memory|
    ensures forall k :: 0 <= k < |r| ==> r[k].reward == memory[k].reward && r[k].done == memory[k].done && r[k].value == memory[k].value
  {
    seq(|memory|, k requires 0 <= k < |memory| =>
      var t := memory[k];
      PpoMemory.Transition(PpoMemory.Obs(t.state), t.action, t.reward, t.done, t.value, t.ret, t.adv, t.step))
  }

  /**
   * Not bootstrapping is the same as the minigame buffer's bootstrapped pass over all rows but the
   * newest, bootstrapped from the newest row's value, or from 0 when the newest row is done.
   */
  lemma {:induction false} AdvantageIsBootstrappedFromNewest<S, A, B>(memory: seq<Transition<S, A, B>>, i: nat, gamma: real, lam: real)
    requires i + 1 < |memory|
    ensures var n := |memory| - 1;
      var boot := if memory[n].done then 0.0 else memory[n].value;
      Advantage(memory, i, gamma, lam) == PpoMemory.Advantage(AsPpoRows(memory[..n]), i, gamma, lam, boot)
    decreases |memory| - i
  {
    var n := |memory| - 1;
    var rows := AsPpoRows(memory[..n]);
    assert rows[i].reward == memory[i].reward && rows[i].value == memory[i].value;
    if i + 2 < |memory| {
      AdvantageIsBootstrappedFromNewest(memory, i + 1, gamma, lam);
      assert rows[i + 1].done == memory[i + 1].done && rows[i + 1].value == memory[i + 1].value;
    }
  }

  // ---------------------------------------------------------------------------

  class ReplayMemory<S, A, B> {
    var memory: seq<Transition<S, A, B>>
    var accessNum: nat
    var indices: seq<int>
    const batchSize: nat
    const resetNum: nat
    const capacity: nat
    const historySize: nat

    ghost predicate Valid()
      reads this
    {
      && 0 < batchSize
      && resetNum == capacity / batchSize
      && |memory| <= capacity
      && (accessNum < resetNum || accessNum == 0)
      && PermutationOfRange(indices, IndexCount(capacity, historySize))
    }

    /**
     * `shuffled` is the order `random.shuffle` produced for the first permutation. A batch size
     * larger than the capacity gives `reset_num` 0, and a history size of 0 gives empty windows:
     * both are accepted here, and sampling then raises.
     */
    constructor (memCap: nat, batch: nat, histSize: nat, shuffled: seq<int>)
      requires 0 < batch
      requires PermutationOfRange(shuffled, IndexCount(memCap, histSize))
      ensures Valid()
      ensures memory == [] && accessNum == 0 && indices == shuffled
      ensures capacity == memCap && historySize == histSize && batchSize == batch
    {
      memory := [];
      batchSize := batch;
      resetNum := memCap / batch;
      capacity := memCap;
      historySize := histSize;
      accessNum := 0;
      indices := shuffled;
    }

    /** Appends one row; a full deque drops its oldest row first, and one of capacity 0 keeps nothing. */
    method Push(state: S, action: (A, B), reward: real, done: bool, value: real, ret: real, adv: real, step: int)
      requires Valid()
      modifies this`memory
      ensures Valid()
      ensures memory == LastN(old(memory) + [Transition(state, action, reward, done, value, ret, adv, step)], capacity)
      ensures |memory| == Min(|old(memory)| + 1, capacity)
    {
      var row := Transition(state, action, reward, done, value, ret, adv, step);
      if capacity == 0 {
        // a deque with maxlen 0 drops every row it is given
      } else if |memory| == capacity {
        memory := memory[1..] + [row];
      } else {
        memory := memory + [row];
      }
    }

    method UpdateIndices(shuffled: seq<int>)
      requires Valid()
      requires PermutationOfRange(shuffled, IndexCount(capacity, historySize))
      modifies this`indices
      ensures Valid() && indices == shuffled
    {
      indices := shuffled;
    }

    function Length(): (n: nat)
      reads this
      requires Valid()
      ensures n <= capacity
    {
      |memory|
    }

    function CurrentChunk(frame: nat): seq<int>
      reads this
    {
      Chunk(indices, batchSize, accessNum, SampleRange(frame, capacity))
    }

    /**
     * Returns deep copies of the sampled rows, so the buffer is left as it was, and advances the
     * cursor; `shuffled` is used when the cursor wraps. A window that is empty or runs past the
     * stored rows (possible until the deque is full) raises before the cursor moves, and so does
     * a `reset_num` of 0 (batch size above the capacity), at the modulo.
     */
    method SampleMiniBatch(frame: nat, shuffled: seq<int>) returns (r: Result<seq<Sample<S, A, B>>>)
      requires Valid()
      requires PermutationOfRange(shuffled, IndexCount(capacity, historySize))
      modifies this`accessNum, this`indices
      ensures Valid()
      ensures var chunk := old(CurrentChunk(frame));
        r.Ok? <==> (forall k :: 0 <= k < |chunk| ==> WindowStored(memory, chunk[k], historySize)) && resetNum > 0
      ensures var chunk := old(CurrentChunk(frame));
        r.Ok? ==>
        && |r.value| == |chunk| <= batchSize
        && (forall k :: 0 <= k < |r.value| ==> r.value[k] == SampleAt(memory, chunk[k], historySize))
        && accessNum == (old(accessNum) + 1) % resetNum
        && indices == if accessNum == 0 then shuffled else old(indices)
      ensures r.Fail? ==> accessNum == old(accessNum) && indices == old(indices)
    {
      var chunk := CurrentChunk(frame);
      r := SampleChunk(memory, chunk, historySize);
      if r.Fail? {
        return;
      }
      if resetNum == 0 {
        r := Fail("integer division or modulo by zero");
        return;
      }
      accessNum := (accessNum + 1) % resetNum;
      if accessNum == 0 {
        indices := shuffled;
      }
    }

    /** The backward pass over rows N-2 .. 0. */
    method ComputeVTargetsAdv(gamma: real, lam: real)
      requires Valid()
      modifies this`memory
      ensures Valid()
      ensures memory == Finalized(old(memory), gamma, lam)
    {
      memory := GaePass(memory, gamma, lam);
    }
  }
}
