/**
 * The on-policy trajectory buffer of the minigame PPO agent: a bounded deque of
 * eight-field transitions, a shuffled index permutation read in chunks by a cursor,
 * and the bootstrapped Generalized Advantage Estimation pass.
 */
module PpoMemory {
  import opened Common

  /** A stored state: the observation as pushed, or the stacked history window that sampling writes over it. */
  datatype State<S, A> = Obs(s: S) | Stacked(frames: seq<State<S, A>>, actions: seq<A>)

  /** One row: state, action, reward, done, value, return, advantage, step (fields 0..7). */
  datatype Transition<S, A> = Transition(
    state: State<S, A>, action: A, reward: real, done: bool,
    value: real, ret: real, adv: real, step: int)

  /** The shuffled indices range over 1 .. capacity - historySize. */
  function IndexCount(capacity: nat, historySize: nat): int
  {
    capacity - historySize
  }

  lemma WindowStaysBelowCapacity(indices: seq<int>, capacity: nat, historySize: nat, k: nat)
    requires PermutationOfRange(indices, IndexCount(capacity, historySize))
    requires k < |indices|
    ensures 1 <= indices[k] && indices[k] + historySize - 1 < capacity
  {
  }

  /** The sample range of a call: the frame count, cut to the capacity. */
  function SampleRange(frame: nat, capacity: nat): (r: nat)
    ensures r <= capacity && r <= frame
    ensures frame >= capacity ==> r == capacity
  {
    if frame >= capacity then capacity else frame
  }

  /** The chunk that the cursor value `access` selects from a permutation. */
  function Chunk(indices: seq<int>, batchSize: nat, access: nat, range: nat): (r: seq<int>)
    ensures |r| <= batchSize
    ensures forall k :: 0 <= k < |r| ==> batchSize * access + k < |indices| && r[k] == indices[batchSize * access + k]
  {
    assert batchSize * (access + 1) == batchSize * access + batchSize;
    Slice(indices, batchSize * access, Min(batchSize * (access + 1), range))
  }

  /** Two chunks read under different cursor values share no index. */
  lemma ChunksDisjoint(indices: seq<int>, batchSize: nat, a: nat, b: nat, range: nat)
    requires forall i, j :: 0 <= i < j < |indices| ==> indices[i] != indices[j]
    requires a != b
    ensures forall x, y :: 0 <= x < |Chunk(indices, batchSize, a, range)| && 0 <= y < |Chunk(indices, batchSize, b, range)|
              ==> Chunk(indices, batchSize, a, range)[x] != Chunk(indices, batchSize, b, range)[y]
  {
    var ca, cb := Chunk(indices, batchSize, a, range), Chunk(indices, batchSize, b, range);
    if a < b {
      MulMonotone(batchSize, a + 1, b);
    } else {
      MulMonotone(batchSize, b + 1, a);
    }
    forall x, y | 0 <= x < |ca| && 0 <= y < |cb| ensures ca[x] != cb[y] {
      var px, py := batchSize * a + x, batchSize * b + y;
      assert ca[x] == indices[px] && cb[y] == indices[py];
      assert px != py;
    }
  }

  lemma MulMonotone(m: nat, x: nat, y: nat)
    requires x <= y
    ensures m * x <= m * y && m * x + m <= m * (x + 1)
  {
  }

  /** The first `n` chunks of one permutation, in the order the cursor reads them. */
  function Chunks(indices: seq<int>, batchSize: nat, range: nat, n: nat): seq<int>
  {
    if n == 0 then [] else Chunks(indices, batchSize, range, n - 1) + Chunk(indices, batchSize, n - 1, range)
  }

  /** Reading chunks 0 .. n-1 reads the permutation's prefix of length batchSize * n, each position once. */
  lemma {:induction false} ChunksCoverPrefix(indices: seq<int>, batchSize: nat, range: nat, n: nat)
    requires batchSize * n <= range
    ensures Chunks(indices, batchSize, range, n) == indices[..Min(|indices|, batchSize * n)]
  {
    if n > 0 {
      assert batchSize * (n - 1) <= batchSize * n;
      ChunksCoverPrefix(indices, batchSize, range, n - 1);
      var lo, hi := Min(|indices|, batchSize * (n - 1)), Min(|indices|, batchSize * n);
      assert Chunk(indices, batchSize, n - 1, range) == indices[lo..hi];
      assert indices[..lo] + indices[lo..hi] == indices[..hi];
    }
  }

  /** The history window ending at `i + historySize - 1`: the states and actions of rows i .. i+h-1. */
  function Window<S, A>(memory: seq<Transition<S, A>>, i: int, historySize: nat): (w: State<S, A>)
    requires 0 <= i && i + historySize <= |memory|
    ensures w.Stacked? && |w.frames| == historySize && |w.actions| == historySize
    ensures forall j :: 0 <= j < historySize ==> w.frames[j] == memory[i + j].state && w.actions[j] == memory[i + j].action
  {
    Stacked(seq(historySize, j requires 0 <= j < historySize => memory[i + j].state),
            seq(historySize, j requires 0 <= j < historySize => memory[i + j].action))
  }

  /** Every window of the chunk is a non-empty run of stored rows. */
  ghost predicate WindowsStored<S, A>(memory: seq<Transition<S, A>>, chunk: seq<int>, historySize: nat)
  {
    forall k :: 0 <= k < |chunk| ==> 1 <= historySize && 0 <= chunk[k] && chunk[k] + historySize <= |memory|
  }

  /**
   * Whether the window loop at index i goes through: the window is not empty (an empty one leaves
   * nothing at position h - 1 to take the row from, and raises), every row i .. i+h-1 is stored,
   * and no row after the first has step 0 (for such a row the zeroing block indexes the lists it
   * is building at i + j - 1 >= j, past their end, and raises).
   */
  predicate WindowOk<S, A>(memory: seq<Transition<S, A>>, i: int, historySize: nat)
  {
    && 1 <= historySize
    && 0 <= i && i + historySize <= |memory|
    && forall x :: i < x < i + historySize ==> memory[x].step != 0
  }

  /** How many indices of the chunk are sampled before the first one whose window raises. */
  function GoodPrefix<S, A>(memory: seq<Transition<S, A>>, chunk: seq<int>, historySize: nat): (n: nat)
    ensures n <= |chunk|
    ensures forall k :: 0 <= k < n ==> WindowOk(memory, chunk[k], historySize)
    ensures n < |chunk| ==> !WindowOk(memory, chunk[n], historySize)
    decreases |chunk|
  {
    if chunk == [] || !WindowOk(memory, chunk[0], historySize) then 0
    else 1 + GoodPrefix(memory, chunk[1..], historySize)
  }

  /**
   * Sampling a chunk: each index i yields the stored row at i + h - 1 with its state replaced
   * by the window, and because that row is the stored object itself the buffer is updated too.
   * Returns the mini-batch and the buffer afterwards.
   */
  function SampleRows<S, A>(memory: seq<Transition<S, A>>, chunk: seq<int>, historySize: nat)
    : (res: (seq<Transition<S, A>>, seq<Transition<S, A>>))
    requires WindowsStored(memory, chunk, historySize)
    ensures |res.0| == |chunk| && |res.1| == |memory|
    decreases |chunk|
  {
    if chunk == [] then ([], memory)
    else
      var i := chunk[0];
      var row := memory[i + historySize - 1].(state := Window(memory, i, historySize));
      var rest := SampleRows(memory[i + historySize - 1 := row], chunk[1..], historySize);
      ([row] + rest.0, rest.1)
  }

  /** One step of sampling: the first index's window is written, then the rest of the chunk is sampled. */
  lemma SampleRowsStep<S, A>(memory: seq<Transition<S, A>>, chunk: seq<int>, historySize: nat)
    requires WindowsStored(memory, chunk, historySize) && chunk != []
    ensures var i := chunk[0];
      var row := memory[i + historySize - 1].(state := Window(memory, i, historySize));
      var m := memory[i + historySize - 1 := row];
      && WindowsStored(m, chunk[1..], historySize)
      && SampleRows(memory, chunk, historySize).0 == [row] + SampleRows(m, chunk[1..], historySize).0
      && SampleRows(memory, chunk, historySize).1 == SampleRows(m, chunk[1..], historySize).1
  {
  }

  /** Sampling one more index: its window is read from the buffer as the earlier indices left it. */
  lemma {:induction false} SampleRowsSnoc<S, A>(memory: seq<Transition<S, A>>, chunk: seq<int>, i: int, historySize: nat)
    requires historySize >= 1 && WindowsStored(memory, chunk, historySize)
    requires 0 <= i && i + historySize <= |memory|
    ensures WindowsStored(memory, chunk + [i], historySize)
    ensures var pre := SampleRows(memory, chunk, historySize);
      var row := pre.1[i + historySize - 1].(state := Window(pre.1, i, historySize));
      SampleRows(memory, chunk + [i], historySize) == (pre.0 + [row], pre.1[i + historySize - 1 := row])
    decreases |chunk|
  {
    forall k | 0 <= k < |chunk + [i]| ensures 0 <= (chunk + [i])[k] && (chunk + [i])[k] + historySize <= |memory| {
      if k < |chunk| {
        assert (chunk + [i])[k] == chunk[k];
      }
    }
    if chunk == [] {
      assert chunk + [i] == [i] && [i][1..] == [];
      var row := memory[i + historySize - 1].(state := Window(memory, i, historySize));
      assert SampleRows(memory[i + historySize - 1 := row], [], historySize) == ([], memory[i + historySize - 1 := row]);
      assert SampleRows(memory, chunk, historySize) == ([], memory);
      assert SampleRows(memory, [i], historySize) == ([row] + [], memory[i + historySize - 1 := row]);
      assert [row] + [] == [] + [row];
    } else {
      var j := chunk[0];
      var row0 := memory[j + historySize - 1].(state := Window(memory, j, historySize));
      var m := memory[j + historySize - 1 := row0];
      SampleRowsStep(memory, chunk + [i], historySize);
      assert (chunk + [i])[1..] == chunk[1..] + [i];
      SampleRowsStep(memory, chunk, historySize);
      SampleRowsSnoc(m, chunk[1..], i, historySize);
      var p := SampleRows(m, chunk[1..], historySize);
      var row := p.1[i + historySize - 1].(state := Window(p.1, i, historySize));
      assert [row0] + (p.0 + [row]) == ([row0] + p.0) + [row];
    }
  }

  /**
   * Row k of the batch carries every field of the stored row at chunk[k] + h - 1 except its
   * state, which is a window of h frames.
   */
  lemma {:induction false} SampleRowsBatch<S, A>(memory: seq<Transition<S, A>>, chunk: seq<int>, historySize: nat)
    requires WindowsStored(memory, chunk, historySize)
    ensures var res := SampleRows(memory, chunk, historySize);
      forall k :: 0 <= k < |chunk| ==>
        && res.0[k] == memory[chunk[k] + historySize - 1].(state := res.0[k].state)
        && res.0[k].state.Stacked? && |res.0[k].state.frames| == historySize
    decreases |chunk|
  {
    if chunk != [] {
      var i := chunk[0];
      var row := memory[i + historySize - 1].(state := Window(memory, i, historySize));
      var m := memory[i + historySize - 1 := row];
      SampleRowsStep(memory, chunk, historySize);
      SampleRowsBatch(m, chunk[1..], historySize);
      var res := SampleRows(memory, chunk, historySize);
      var rest := SampleRows(m, chunk[1..], historySize);
      forall k | 0 <= k < |chunk|
        ensures res.0[k] == memory[chunk[k] + historySize - 1].(state := res.0[k].state)
        ensures res.0[k].state.Stacked? && |res.0[k].state.frames| == historySize
      {
        if k > 0 {
          assert chunk[k] == chunk[1..][k - 1];
          assert res.0[k] == rest.0[k - 1];
        }
      }
    }
  }

  /** Sampling leaves every field of the stored rows but the state as it was. */
  lemma {:induction false} SampleRowsKeepsFields<S, A>(memory: seq<Transition<S, A>>, chunk: seq<int>, historySize: nat)
    requires WindowsStored(memory, chunk, historySize)
    ensures var res := SampleRows(memory, chunk, historySize);
      forall x :: 0 <= x < |memory| ==> res.1[x] == memory[x].(state := res.1[x].state)
    decreases |chunk|
  {
    if chunk != [] {
      var i := chunk[0];
      var row := memory[i + historySize - 1].(state := Window(memory, i, historySize));
      var m := memory[i + historySize - 1 := row];
      SampleRowsStep(memory, chunk, historySize);
      SampleRowsKeepsFields(m, chunk[1..], historySize);
    }
  }

  /** Rows that no sampled window ends at are left exactly as they were. */
  lemma {:induction false} SampleRowsKeepsOthers<S, A>(memory: seq<Transition<S, A>>, chunk: seq<int>, historySize: nat, x: int)
    requires WindowsStored(memory, chunk, historySize)
    requires 0 <= x < |memory| && forall k :: 0 <= k < |chunk| ==> chunk[k] + historySize - 1 != x
    ensures SampleRows(memory, chunk, historySize).1[x] == memory[x]
    decreases |chunk|
  {
    if chunk != [] {
      var i := chunk[0];
      var row := memory[i + historySize - 1].(state := Window(memory, i, historySize));
      var m := memory[i + historySize - 1 := row];
      SampleRowsStep(memory, chunk, historySize);
      assert chunk[0] + historySize - 1 != x;
      forall k | 0 <= k < |chunk[1..]| ensures chunk[1..][k] + historySize - 1 != x {
        assert chunk[1..][k] == chunk[k + 1];
      }
      SampleRowsKeepsOthers(m, chunk[1..], historySize, x);
    }
  }

  /** Aliasing: when the chunk has no repeated index, every returned row is the stored row afterwards. */
  lemma {:induction false} SampleRowsAlias<S, A>(memory: seq<Transition<S, A>>, chunk: seq<int>, historySize: nat)
    requires WindowsStored(memory, chunk, historySize)
    requires forall i, j :: 0 <= i < j < |chunk| ==> chunk[i] != chunk[j]
    ensures var res := SampleRows(memory, chunk, historySize);
      forall k :: 0 <= k < |chunk| ==> res.0[k] == res.1[chunk[k] + historySize - 1]
    decreases |chunk|
  {
    if chunk != [] {
      var i := chunk[0];
      var row := memory[i + historySize - 1].(state := Window(memory, i, historySize));
      var m := memory[i + historySize - 1 := row];
      SampleRowsStep(memory, chunk, historySize);
      SampleRowsAlias(m, chunk[1..], historySize);
      var res := SampleRows(memory, chunk, historySize);
      var rest := SampleRows(m, chunk[1..], historySize);
      forall k | 0 <= k < |chunk| ensures res.0[k] == res.1[chunk[k] + historySize - 1] {
        if k > 0 {
          assert chunk[k] == chunk[1..][k - 1];
          assert res.0[k] == rest.0[k - 1];
        } else {
          forall k' | 0 <= k' < |chunk[1..]| ensures chunk[1..][k'] + historySize - 1 != i + historySize - 1 {
            assert chunk[1..][k'] == chunk[k' + 1];
          }
          SampleRowsKeepsOthers(m, chunk[1..], historySize, i + historySize - 1);
        }
      }
    }
  }

  // ---------------------------------------------------------------------------
  // Generalized Advantage Estimation, bootstrapped from the value of the next frame.

  function NonterminalAfter<S, A>(memory: seq<Transition<S, A>>, i: nat): real
    requires i < |memory|
  {
    if i + 1 == |memory| then 1.0 else if memory[i + 1].done then 0.0 else 1.0
  }

  function ValueAfter<S, A>(memory: seq<Transition<S, A>>, i: nat, nextValue: real): real
    requires i < |memory|
  {
    if i + 1 == |memory| then nextValue else memory[i + 1].value
  }

  /** The one-step temporal-difference error of row i. */
  function TdError<S, A>(memory: seq<Transition<S, A>>, i: nat, gamma: real, nextValue: real): real
    requires i < |memory|
  {
    memory[i].reward + gamma * ValueAfter(memory, i, nextValue) * NonterminalAfter(memory, i) - memory[i].value
  }

  /** GAE(lambda) of row i: its TD error plus the discounted advantage of the row after it. */
  function Advantage<S, A>(memory: seq<Transition<S, A>>, i: nat, gamma: real, lam: real, nextValue: real): real
    requires i < |memory|
    decreases |memory| - i
  {
    var later := if i + 1 == |memory| then 0.0 else Advantage(memory, i + 1, gamma, lam, nextValue);
    TdError(memory, i, gamma, nextValue) + gamma * lam * NonterminalAfter(memory, i) * later
  }

  /** The buffer after the GAE pass: fields 5 and 6 of each row hold its return target and advantage. */
  function Finalized<S, A>(memory: seq<Transition<S, A>>, gamma: real, lam: real, nextValue: real)
    : (r: seq<Transition<S, A>>)
    ensures |r| == |memory|
    ensures forall k :: 0 <= k < |r| ==> r[k].ret == r[k].adv + r[k].value
    ensures forall k :: 0 <= k < |r| ==> r[k] == memory[k].(adv := r[k].adv, ret := r[k].ret)
    ensures forall k :: 0 <= k < |r| ==> r[k].adv == Advantage(memory, k, gamma, lam, nextValue)
  {
    seq(|memory|, k requires 0 <= k < |memory| =>
      var a := Advantage(memory, k, gamma, lam, nextValue);
      memory[k].(adv := a, ret := a + memory[k].value))
  }

  /** With lambda = 0 the advantage is the one-step TD error. */
  lemma GaeLambdaZeroIsTdError<S, A>(memory: seq<Transition<S, A>>, i: nat, gamma: real, nextValue: real)
    requires i < |memory|
    ensures Advantage(memory, i, gamma, 0.0, nextValue) == TdError(memory, i, gamma, nextValue)
  {
  }

  /** The discounted return of row i, cut at a done flag and bootstrapped after the newest row. */
  function DiscountedReturn<S, A>(memory: seq<Transition<S, A>>, i: nat, gamma: real, nextValue: real): real
    requires i < |memory|
    decreases |memory| - i
  {
    var later := if i + 1 == |memory| then nextValue else DiscountedReturn(memory, i + 1, gamma, nextValue);
    memory[i].reward + gamma * NonterminalAfter(memory, i) * later
  }

  /** With lambda = 1 the return target (advantage plus value) is the bootstrapped discounted return. */
  lemma {:induction false} GaeLambdaOneIsDiscountedReturn<S, A>(memory: seq<Transition<S, A>>, i: nat, gamma: real, nextValue: real)
    requires i < |memory|
    ensures Advantage(memory, i, gamma, 1.0, nextValue) + memory[i].value == DiscountedReturn(memory, i, gamma, nextValue)
    decreases |memory| - i
  {
    var nt := NonterminalAfter(memory, i);
    if i + 1 < |memory| {
      GaeLambdaOneIsDiscountedReturn(memory, i + 1, gamma, nextValue);
      var a' := Advantage(memory, i + 1, gamma, 1.0, nextValue);
      var v' := memory[i + 1].value;
      calc {
        Advantage(memory, i, gamma, 1.0, nextValue) + memory[i].value;
        memory[i].reward + gamma * v' * nt + gamma * 1.0 * nt * a';
        { assert gamma * v' * nt + gamma * 1.0 * nt * a' == gamma * nt * (v' + a'); }
        memory[i].reward + gamma * nt * (v' + a');
      }
    }
  }

  // ---------------------------------------------------------------------------

  /** The loop that stacks the states and actions of rows i .. i+h-1. */
  method GatherWindow<S, A>(memory: seq<Transition<S, A>>, i: int, historySize: nat) returns (w: State<S, A>)
    requires 0 <= i && i + historySize <= |memory|
    ensures w == Window(memory, i, historySize)
  {
    var frames: seq<State<S, A>> := [];
    var acts: seq<A> := [];
    var j := 0;
    while j < historySize
      invariant 0 <= j <= historySize
      invariant frames == seq(j, t requires 0 <= t < j => memory[i + t].state)
      invariant acts == seq(j, t requires 0 <= t < j => memory[i + t].action)
    {
      frames := frames + [memory[i + j].state];
      acts := acts + [memory[i + j].action];
      j := j + 1;
    }
    w := Stacked(frames, acts);
  }

  /**
   * The loop over the chunk: gathers each window and writes it over the stored state it ends at.
   * An index whose window raises ends the loop with the error; the rows written before it stay
   * written, because they are the stored objects themselves.
   */
  method SampleChunk<S, A>(memory: seq<Transition<S, A>>, chunk: seq<int>, historySize: nat)
    returns (r: Result<seq<Transition<S, A>>>, after: seq<Transition<S, A>>)
    ensures r.Ok? <==> GoodPrefix(memory, chunk, historySize) == |chunk|
    ensures WindowsStored(memory, chunk[..GoodPrefix(memory, chunk, historySize)], historySize)
    ensures r.Ok? ==> WindowsStored(memory, chunk, historySize) && (r.value, after) == SampleRows(memory, chunk, historySize)
    ensures r.Fail? ==> after == SampleRows(memory, chunk[..GoodPrefix(memory, chunk, historySize)], historySize).1
  {
    var mem := memory;
    var batch := [];
    var n := 0;
    while n < |chunk|
      invariant 0 <= n <= |chunk|
      invariant forall k :: 0 <= k < n ==> WindowOk(memory, chunk[k], historySize)
      invariant WindowsStored(memory, chunk[..n], historySize)
      invariant (batch, mem) == SampleRows(memory, chunk[..n], historySize)
    {
      var i := chunk[n];
      SampleRowsKeepsFields(memory, chunk[..n], historySize);
      if !WindowOk(mem, i, historySize) {
        assert !WindowOk(memory, i, historySize) by {
          forall x | i < x < i + historySize && 0 <= x < |memory| ensures mem[x].step == memory[x].step {
            assert mem[x] == memory[x].(state := mem[x].state);
          }
        }
        r := Fail("index out of range");
        after := mem;
        return;
      }
      assert WindowOk(memory, i, historySize) by {
        forall x | i < x < i + historySize ensures memory[x].step != 0 {
          assert mem[x] == memory[x].(state := mem[x].state);
        }
      }
      var w := GatherWindow(mem, i, historySize);
      var row := mem[i + historySize - 1].(state := w);
      assert chunk[..n + 1] == chunk[..n] + [i];
      SampleRowsSnoc(memory, chunk[..n], i, historySize);
      batch := batch + [row];
      mem := mem[i + historySize - 1 := row];
      n := n + 1;
    }
    assert chunk[..n] == chunk;
    r := Ok(batch);
    after := mem;
  }

  class ReplayMemory<S, A> {
    var memory: seq<Transition<S, A>>
    var accessNum: nat
    var indices: seq<int>
    const batchSize: nat
    const resetNum: nat
    const capacity: nat
    const historySize: nat

    ghost predicate Valid()
      reads this
    {
      && 0 < batchSize
      && resetNum == capacity / batchSize
      && |memory| <= capacity
      && (accessNum < resetNum || accessNum == 0)
      && PermutationOfRange(indices, IndexCount(capacity, historySize))
    }

    /**
     * `shuffled` is the order `random.shuffle` produced for the first permutation. A batch size
     * larger than the capacity gives `reset_num` 0, and a history size of 0 gives empty windows:
     * both are accepted here, and sampling then raises.
     */
    constructor (memCap: nat, histSize: nat, batch: nat, shuffled: seq<int>)
      requires 0 < batch
      requires PermutationOfRange(shuffled, IndexCount(memCap, histSize))
      ensures Valid()
      ensures memory == [] && accessNum == 0 && indices == shuffled
      ensures capacity == memCap && historySize == histSize && batchSize == batch
    {
      memory := [];
      batchSize := batch;
      resetNum := memCap / batch;
      capacity := memCap;
      historySize := histSize;
      accessNum := 0;
      indices := shuffled;
    }

    /** Appends one row; a full deque drops its oldest row first, and one of capacity 0 keeps nothing. */
    method Push(state: S, action: A, reward: real, done: bool, value: real, ret: real, adv: real, step: int)
      requires Valid()
      modifies this`memory
      ensures Valid()
      ensures memory == LastN(old(memory) + [Transition(Obs(state), action, reward, done, value, ret, adv, step)], capacity)
      ensures |memory| == Min(|old(memory)| + 1, capacity)
      ensures capacity > 0 ==> memory[|memory| - 1].state == Obs(state)
    {
      var row := Transition(Obs(state), action, reward, done, value, ret, adv, step);
      if capacity == 0 {
        // a deque with maxlen 0 drops every row it is given
      } else if |memory| == capacity {
        memory := memory[1..] + [row];
      } else {
        memory := memory + [row];
      }
    }

    /** `shuffled` is the order `random.shuffle` produces. */
    method UpdateIndices(shuffled: seq<int>)
      requires Valid()
      requires PermutationOfRange(shuffled, IndexCount(capacity, historySize))
      modifies this`indices
      ensures Valid() && indices == shuffled
    {
      indices := shuffled;
    }

    function Length(): (n: nat)
      reads this
      requires Valid()
      ensures n <= capacity
    {
      |memory|
    }

    function CurrentChunk(frame: nat): seq<int>
      reads this
    {
      Chunk(indices, batchSize, accessNum, SampleRange(frame, capacity))
    }

    /**
     * Returns one mini-batch and advances the cursor; `shuffled` is used when the cursor wraps.
     * The stored states the windows end at are overwritten by the windows. A window that is
     * empty, runs past the stored rows, or holds a row with step 0 after its first, raises: the
     * rows written before it stay written and the cursor does not move. When every window goes
     * through, a `reset_num` of 0 (batch size above the capacity) raises at the modulo, after all
     * the writes.
     */
    method SampleMiniBatch(frame: nat, shuffled: seq<int>) returns (r: Result<seq<Transition<S, A>>>)
      requires Valid()
      requires PermutationOfRange(shuffled, IndexCount(capacity, historySize))
      modifies this`memory, this`accessNum, this`indices
      ensures Valid()
      ensures var chunk := old(CurrentChunk(frame));
        r.Ok? <==> GoodPrefix(old(memory), chunk, historySize) == |chunk| && resetNum > 0
      ensures var chunk := old(CurrentChunk(frame)); var n := GoodPrefix(old(memory), chunk, historySize);
        && WindowsStored(old(memory), chunk[..n], historySize)
        && memory == SampleRows(old(memory), chunk[..n], historySize).1
      ensures var chunk := old(CurrentChunk(frame));
        r.Ok? ==>
        && WindowsStored(old(memory), chunk, historySize)
        && (r.value, memory) == SampleRows(old(memory), chunk, historySize)
        && |r.value| <= batchSize
        && accessNum == (old(accessNum) + 1) % resetNum
        && indices == if accessNum == 0 then shuffled else old(indices)
      ensures r.Fail? ==> accessNum == old(accessNum) && indices == old(indices)
    {
      var chunk := CurrentChunk(frame);
      r, memory := SampleChunk(memory, chunk, historySize);
      if r.Fail? {
        return;
      }
      assert chunk[..|chunk|] == chunk;
      if resetNum == 0 {
        r := Fail("integer division or modulo by zero");
        return;
      }
      accessNum := (accessNum + 1) % resetNum;
      if accessNum == 0 {
        indices := shuffled;
      }
    }

    /** The backward GAE pass: writes the advantage and return target of every row, nothing else. */
    method ComputeVTargetsAdv(gamma: real, lam: real, frameNextVal: real)
      requires Valid()
      modifies this`memory
      ensures Valid()
      ensures memory == Finalized(old(memory), gamma, lam, frameNextVal)
    {
      ghost var mem0 := memory;
      var n := |memory|;
      var prevGae := 0.0;
      var i := n;
      while i > 0
        invariant 0 <= i <= n && |memory| == n
        invariant forall k :: 0 <= k < i ==> memory[k] == mem0[k]
        invariant forall k :: i <= k < n ==> memory[k] == Finalized(mem0, gamma, lam, frameNextVal)[k]
        invariant prevGae == if i == n then 0.0 else Advantage(mem0, i, gamma, lam, frameNextVal)
      {
        i := i - 1;
        var vnext: real;
        var nonterminal: real;
        if i + 1 == n {
          vnext := frameNextVal;
          nonterminal := 1.0;
        } else {
          vnext := memory[i + 1].value;
          nonterminal := if memory[i + 1].done then 0.0 else 1.0;
        }
        var delta := memory[i].reward + gamma * vnext * nonterminal - memory[i].value;
        var gae := delta + gamma * lam * nonterminal * prevGae;
        assert gae == Advantage(mem0, i, gamma, lam, frameNextVal);
        memory := memory[i := memory[i].(adv := gae, ret := gae + memory[i].value)];
        prevGae := gae;
      }
      assert memory == Finalized(mem0, gamma, lam, frameNextVal);
    }
  }
}
