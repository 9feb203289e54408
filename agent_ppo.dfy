/**
 * The PPO agent's bookkeeping: counters advanced per sampled action, what it pushes into its
 * trajectory buffer, the training schedule, and the clipped surrogate objective.
 *
 * The networks are not modelled: a forward pass is given as its outputs (value, next hidden
 * state, action), and the live and target parameters are tracked by a version number that
 * each optimizer step advances.
 */
module AgentPpo {
  import opened Common
  import BaseMemory

  // ---------------------------------------------------------------------------
  // Which sub-choices count toward the log-probability of an action

  /** The first spatial coordinate counts for nonspatial actions 0, 1 and 2. */
  function FirstSpatialMask(nonspatial: int): (m: real)
    ensures m == 1.0 <==> nonspatial < 3
    ensures m == 0.0 <==> nonspatial >= 3
  {
    if nonspatial < 3 then 1.0 else 0.0
  }

  /** The second spatial coordinate counts for nonspatial action 0 only. */
  function SecondSpatialMask(nonspatial: int): (m: real)
    ensures m == 1.0 <==> nonspatial == 0
    ensures m == 0.0 <==> nonspatial != 0
  {
    if nonspatial == 0 then 1.0 else 0.0
  }

  /** The log-probability of a chosen action from the log-probabilities of its parts. */
  function ActionLogProb(nonspatialLog: real, firstLog: real, secondLog: real, nonspatial: int): (lp: real)
    ensures lp == nonspatialLog + (if nonspatial < 3 then firstLog else 0.0) + (if nonspatial == 0 then secondLog else 0.0)
  {
    nonspatialLog + firstLog * FirstSpatialMask(nonspatial) + secondLog * SecondSpatialMask(nonspatial)
  }

  /** For a nonspatial action of 3 or more, the ratio of the new and old probabilities ignores the spatial choices. */
  lemma SpatialChoicesIgnoredFromThree(n1: real, f1: real, s1: real, n0: real, f0: real, s0: real, nonspatial: int)
    requires nonspatial >= 3
    ensures ActionLogProb(n1, f1, s1, nonspatial) - ActionLogProb(n0, f0, s0, nonspatial) == n1 - n0
  {
  }

  // ---------------------------------------------------------------------------
  // Clipped surrogate

  function RealMin(a: real, b: real): real
  {
    if a <= b then a else b
  }

  /** `torch.clamp(x, lo, hi)`: raised to `lo`, then lowered to `hi`. */
  function ClampReal(x: real, lo: real, hi: real): (r: real)
    ensures lo <= hi ==> lo <= r <= hi
    ensures lo <= x <= hi ==> r == x
  {
    var raised := if x < lo then lo else x;
    if raised > hi then hi else raised
  }

  /** The per-sample surrogate `min(r * A, clamp(r, 1 - eps, 1 + eps) * A)`. */
  function Surrogate(ratio: real, adv: real, eps: real): (s: real)
    ensures s <= ratio * adv
  {
    RealMin(ratio * adv, ClampReal(ratio, 1.0 - eps, 1.0 + eps) * adv)
  }

  /** Inside the trust interval the surrogate is the plain ratio-weighted advantage. */
  lemma SurrogateInsideClip(ratio: real, adv: real, eps: real)
    requires 1.0 - eps <= ratio <= 1.0 + eps
    ensures Surrogate(ratio, adv, eps) == ratio * adv
  {
  }

  /** For a non-negative advantage the gain from raising the ratio stops at 1 + eps; for a negative one, the ratio is floored at 1 - eps. */
  lemma SurrogateClipsOneSide(ratio: real, adv: real, eps: real)
    requires eps >= 0.0
    ensures adv >= 0.0 ==> Surrogate(ratio, adv, eps) == RealMin(ratio, 1.0 + eps) * adv
    ensures adv < 0.0 ==> Surrogate(ratio, adv, eps) == (if ratio < 1.0 - eps then 1.0 - eps else ratio) * adv
  {
    var c := ClampReal(ratio, 1.0 - eps, 1.0 + eps);
    if adv >= 0.0 {
      if ratio <= 1.0 + eps {
        assert c <= ratio || c == 1.0 - eps;
        assert c * adv <= ratio * adv || ratio < 1.0 - eps;
      }
    } else {
      if ratio > 1.0 + eps {
        assert c == 1.0 + eps;
        assert ratio * adv <= c * adv;
      } else if ratio < 1.0 - eps {
        assert c == 1.0 - eps;
        assert c * adv <= ratio * adv;
      }
    }
  }

  function Surrogates(ratios: seq<real>, advs: seq<real>, eps: real): (s: seq<real>)
    requires |ratios| == |advs|
    ensures |s| == |ratios|
    ensures forall k :: 0 <= k < |s| ==> s[k] == Surrogate(ratios[k], advs[k], eps)
  {
    seq(|ratios|, k requires 0 <= k < |ratios| => Surrogate(ratios[k], advs[k], eps))
  }

  function Products(ratios: seq<real>, advs: seq<real>): (s: seq<real>)
    requires |ratios| == |advs|
    ensures |s| == |ratios|
    ensures forall k :: 0 <= k < |s| ==> s[k] == ratios[k] * advs[k]
  {
    seq(|ratios|, k requires 0 <= k < |ratios| => ratios[k] * advs[k])
  }

  /**
   * The policy loss: the negated mean surrogate over a mini-batch. It is never below the unclipped
   * objective's: clipping only takes away improvement.
   */
  function PolicyLoss(ratios: seq<real>, advs: seq<real>, eps: real): (loss: real)
    requires |ratios| == |advs| > 0
    ensures loss >= -(Sum(Products(ratios, advs)) / |ratios| as real)
  {
    SumMonotone(Surrogates(ratios, advs, eps), Products(ratios, advs));
    -(Sum(Surrogates(ratios, advs, eps)) / |ratios| as real)
  }

  lemma {:induction false} SumMonotone(a: seq<real>, b: seq<real>)
    requires |a| == |b| && forall k :: 0 <= k < |a| ==> a[k] <= b[k]
    ensures Sum(a) <= Sum(b)
    decreases |a|
  {
    if a != [] {
      var n := |a| - 1;
      SumMonotone(a[..n], b[..n]);
    }
  }

  // ---------------------------------------------------------------------------

  /** What `train` does, in order. */
  datatype Event = ComputeTargets | TrainStep | SyncTarget

  function Repeat(e: Event, n: nat): (s: seq<Event>)
    ensures |s| == n && forall k :: 0 <= k < n ==> s[k] == e
  {
    seq(n, _ => e)
  }

  /** One draw's move of the cursor: one step modulo `resetNum`, installing `shuffled` when it wraps to 0. */
  function Advance(c: (nat, seq<int>), resetNum: nat, shuffled: seq<int>): (nat, seq<int>)
    requires resetNum > 0
  {
    var a := (c.0 + 1) % resetNum;
    (a, if a == 0 then shuffled else c.1)
  }

  /**
   * The replay buffer's cursor and index permutation after `steps` successful draws that start at
   * cursor `access` over `ix`: each draw advances the cursor modulo `resetNum`, and the k-th draw
   * installs `shuffles[from + k]` when the cursor wraps to 0. With `resetNum` 0 no draw succeeds.
   */
  function Cursor(access: nat, ix: seq<int>, resetNum: nat, shuffles: seq<seq<int>>, from: nat, steps: nat): (c: (nat, seq<int>))
    requires from + steps <= |shuffles|
    ensures steps == 0 || resetNum == 0 ==> c == (access, ix)
    decreases steps
  {
    if steps == 0 || resetNum == 0 then (access, ix)
    else Advance(Cursor(access, ix, resetNum, shuffles, from, steps - 1), resetNum, shuffles[from + steps - 1])
  }

  lemma ModSucc(x: nat, m: nat)
    requires m > 0
    ensures (x % m + 1) % m == (x + 1) % m
  {
    var q, r := x / m, x % m;
    assert x == q * m + r;
    if r + 1 < m {
      ModUnique(x + 1, m, q, r + 1);
      ModSmall(r + 1, m);
    } else {
      assert x + 1 == (q + 1) * m;
      ModUnique(x + 1, m, q + 1, 0);
    }
  }

  lemma ModUnique(a: nat, m: nat, q: nat, r: nat)
    requires m > 0 && r < m && a == q * m + r
    ensures a % m == r
  {
    var q2 := a / m;
    assert a == q2 * m + a % m;
    if q2 > q {
      assert (q + 1) * m == q * m + m;
      MulLe(q + 1, q2, m);
      assert false;
    } else if q2 < q {
      assert (q2 + 1) * m == q2 * m + m;
      MulLe(q2 + 1, q, m);
      assert false;
    }
  }

  lemma ModSmall(x: nat, m: nat)
    requires x < m
    ensures x % m == x
  {
  }

  /** From a cursor inside its range, `steps` draws leave it at `(access + steps) % resetNum`, and the permutation changes only if the cursor passed 0. */
  lemma {:induction false} CursorCount(access: nat, ix: seq<int>, resetNum: nat, shuffles: seq<seq<int>>, from: nat, steps: nat)
    requires from + steps <= |shuffles| && access < resetNum
    ensures Cursor(access, ix, resetNum, shuffles, from, steps).0 == (access + steps) % resetNum
    ensures access + steps < resetNum ==> Cursor(access, ix, resetNum, shuffles, from, steps).1 == ix
  {
    if steps > 0 {
      CursorCount(access, ix, resetNum, shuffles, from, steps - 1);
      var prev := Cursor(access, ix, resetNum, shuffles, from, steps - 1);
      assert prev.0 == (access + steps - 1) % resetNum;
      ModSucc(access + steps - 1, resetNum);
      assert Cursor(access, ix, resetNum, shuffles, from, steps).0 == (prev.0 + 1) % resetNum;
      if access + steps < resetNum {
        ModSmall(access + steps, resetNum);
        assert Cursor(access, ix, resetNum, shuffles, from, steps).1 == prev.1;
      }
    }
  }

  /** The permutation in use after any number of draws is the starting one or one of the reshuffles offered to those draws. */
  lemma {:induction false} CursorIndicesOffered(access: nat, ix: seq<int>, resetNum: nat, shuffles: seq<seq<int>>, from: nat, steps: nat)
    requires from + steps <= |shuffles|
    ensures var c := Cursor(access, ix, resetNum, shuffles, from, steps);
      c.1 == ix || exists k :: from <= k < from + steps && c.1 == shuffles[k]
  {
    if steps > 0 && resetNum > 0 {
      CursorIndicesOffered(access, ix, resetNum, shuffles, from, steps - 1);
    }
  }

  /** Draws compose: `m` draws from `from`, then `n` more from `from + m`, are `m + n` draws from `from`. */
  lemma {:induction false} CursorThen(access: nat, ix: seq<int>, resetNum: nat, shuffles: seq<seq<int>>, from: nat, m: nat, n: nat)
    requires from + m + n <= |shuffles|
    ensures var mid := Cursor(access, ix, resetNum, shuffles, from, m);
      Cursor(mid.0, mid.1, resetNum, shuffles, from + m, n) == Cursor(access, ix, resetNum, shuffles, from, m + n)
  {
    if n > 0 && resetNum > 0 {
      CursorThen(access, ix, resetNum, shuffles, from, m, n - 1);
      var mid := Cursor(access, ix, resetNum, shuffles, from, m);
      var prev := Cursor(mid.0, mid.1, resetNum, shuffles, from + m, n - 1);
      assert prev == Cursor(access, ix, resetNum, shuffles, from, m + n - 1);
      assert from + m + n - 1 == (from + m) + n - 1;
    }
  }

  /** What a draw depends on besides the cursor: the window length, `reset_num`, the batch size and the sample range. */
  datatype Sampler = Sampler(historySize: nat, resetNum: nat, batchSize: nat, range: int)

  /**
   * Whether the draw at cursor `c` reads at least one index: its slice of the permutation starts
   * before its end, which the sample range caps, and before the permutation's end.
   */
  predicate ReadsAny(s: Sampler, c: (nat, seq<int>))
  {
    var lo := s.batchSize * c.0;
    lo < |c.1| && lo < Max(0, Min(s.batchSize * (c.0 + 1), s.range))
  }

  /** `ReadsAny` is exactly the chunk `sample_mini_batch` slices being non-empty. */
  lemma ReadsAnyIsChunk(s: Sampler, c: (nat, seq<int>))
    ensures ReadsAny(s, c) <==> BaseMemory.Chunk(c.1, s.batchSize, c.0, s.range) != []
  {
  }

  /**
   * Whether `sample_mini_batch` returns, and so advances the cursor, on a full buffer at cursor
   * `c`: `reset_num` is not 0, and the windows have at least one row unless none is read.
   */
  predicate Returns(s: Sampler, c: (nat, seq<int>))
  {
    s.resetNum > 0 && (s.historySize >= 1 || !ReadsAny(s, c))
  }

  /** Whether the draw at cursor `c` trains: the mini-batch is returned and is not empty, since `train_step` indexes its first column. */
  predicate Trains(s: Sampler, c: (nat, seq<int>))
  {
    Returns(s, c) && ReadsAny(s, c)
  }

  /**
   * The draws of `n` train steps from cursor `c`, offered the reshuffles `shuffles[from..]`, up to
   * the first that does not train: how many trained, and the cursor they leave. A draw that raises
   * on its empty mini-batch has moved the cursor already; one the sampler refuses has not.
   */
  function Draws(s: Sampler, c: (nat, seq<int>), shuffles: seq<seq<int>>, from: nat, n: nat): (d: (nat, (nat, seq<int>)))
    requires from + n <= |shuffles|
    ensures d.0 <= n
    decreases n
  {
    if n == 0 || !Returns(s, c) then (0, c)
    else if !ReadsAny(s, c) then (0, Advance(c, s.resetNum, shuffles[from]))
    else
      var rest := Draws(s, Advance(c, s.resetNum, shuffles[from]), shuffles, from + 1, n - 1);
      (rest.0 + 1, rest.1)
  }

  /** `m` draws, then `n` more if all `m` trained, are `m + n` draws; once one has failed, later draws do not happen. */
  lemma {:induction false} DrawsThen(s: Sampler, c: (nat, seq<int>), shuffles: seq<seq<int>>, from: nat, m: nat, n: nat)
    requires from + m + n <= |shuffles|
    ensures var d := Draws(s, c, shuffles, from, m);
      var e := Draws(s, d.1, shuffles, from + m, n);
      Draws(s, c, shuffles, from, m + n) == if d.0 == m then (m + e.0, e.1) else d
    decreases m
  {
    if m > 0 && Returns(s, c) && ReadsAny(s, c) {
      DrawsThen(s, Advance(c, s.resetNum, shuffles[from]), shuffles, from + 1, m - 1, n);
    }
  }

  /** The cursor of `k` successful draws after a first one is that of `k + 1` draws. */
  lemma CursorShift(c: (nat, seq<int>), resetNum: nat, shuffles: seq<seq<int>>, from: nat, k: nat)
    requires resetNum > 0 && from + 1 + k <= |shuffles|
    ensures var next := Advance(c, resetNum, shuffles[from]);
      Cursor(next.0, next.1, resetNum, shuffles, from + 1, k) == Cursor(c.0, c.1, resetNum, shuffles, from, k + 1)
  {
    assert Cursor(c.0, c.1, resetNum, shuffles, from, 1) == Advance(c, resetNum, shuffles[from]);
    CursorThen(c.0, c.1, resetNum, shuffles, from, 1, k);
  }

  /** The draw after those `Draws` counts, if it happens within the `n`, does not train. */
  lemma {:induction false} DrawsStopAt(s: Sampler, c: (nat, seq<int>), shuffles: seq<seq<int>>, from: nat, n: nat)
    requires from + n <= |shuffles|
    ensures var d := Draws(s, c, shuffles, from, n);
      d.0 < n ==> !Trains(s, Cursor(c.0, c.1, s.resetNum, shuffles, from, d.0))
    decreases n
  {
    if n > 0 && Trains(s, c) {
      var next := Advance(c, s.resetNum, shuffles[from]);
      DrawsStopAt(s, next, shuffles, from + 1, n - 1);
      CursorShift(c, s.resetNum, shuffles, from, Draws(s, next, shuffles, from + 1, n - 1).0);
    }
  }

  /**
   * The cursor `Draws` leaves is that of the draws it counts, plus the failing draw when the
   * sampler returned on it.
   */
  lemma {:induction false} DrawsLeave(s: Sampler, c: (nat, seq<int>), shuffles: seq<seq<int>>, from: nat, n: nat)
    requires from + n <= |shuffles|
    ensures var d := Draws(s, c, shuffles, from, n);
      d.1 == if d.0 < n && Returns(s, Cursor(c.0, c.1, s.resetNum, shuffles, from, d.0))
        then Cursor(c.0, c.1, s.resetNum, shuffles, from, d.0 + 1)
        else Cursor(c.0, c.1, s.resetNum, shuffles, from, d.0)
    decreases n
  {
    var d := Draws(s, c, shuffles, from, n);
    if n == 0 || !Returns(s, c) {
      assert d == (0, c);
    } else if !ReadsAny(s, c) {
      CursorShift(c, s.resetNum, shuffles, from, 0);
      assert d == (0, Cursor(c.0, c.1, s.resetNum, shuffles, from, 1));
    } else {
      var next := Advance(c, s.resetNum, shuffles[from]);
      DrawsLeave(s, next, shuffles, from + 1, n - 1);
      var rest := Draws(s, next, shuffles, from + 1, n - 1);
      assert d == (rest.0 + 1, rest.1);
      var k := rest.0 + 1;
      CursorShift(c, s.resetNum, shuffles, from, rest.0);
      assert Cursor(next.0, next.1, s.resetNum, shuffles, from + 1, rest.0) == Cursor(c.0, c.1, s.resetNum, shuffles, from, k);
      if rest.0 < n - 1 && Returns(s, Cursor(c.0, c.1, s.resetNum, shuffles, from, k)) {
        CursorShift(c, s.resetNum, shuffles, from, k);
        assert rest.1 == Cursor(c.0, c.1, s.resetNum, shuffles, from, k + 1);
      } else {
        assert rest.1 == Cursor(c.0, c.1, s.resetNum, shuffles, from, k);
      }
    }
  }

  /** Every draw `Draws` counts trains: its count is a run of training draws from the start. */
  lemma {:induction false} DrawsTrain(s: Sampler, c: (nat, seq<int>), shuffles: seq<seq<int>>, from: nat, n: nat, k: nat)
    requires from + n <= |shuffles| && k < Draws(s, c, shuffles, from, n).0
    ensures Trains(s, Cursor(c.0, c.1, s.resetNum, shuffles, from, k))
    decreases n
  {
    var next := Advance(c, s.resetNum, shuffles[from]);
    if k > 0 {
      DrawsTrain(s, next, shuffles, from + 1, n - 1, k - 1);
      CursorShift(c, s.resetNum, shuffles, from, k - 1);
    }
  }

  /**
   * An epoch of `n` draws after `used` draws that all trained: together they are the first
   * `used + n` draws, and if the epoch stops short, so do the first `total` draws.
   */
  lemma EpochThen(s: Sampler, c0: (nat, seq<int>), shuffles: seq<seq<int>>, used: nat, n: nat, total: nat)
    requires used + n <= total <= |shuffles| && Draws(s, c0, shuffles, 0, used).0 == used
    ensures var e := Draws(s, Draws(s, c0, shuffles, 0, used).1, shuffles, used, n);
      && Draws(s, c0, shuffles, 0, used + n) == (used + e.0, e.1)
      && (e.0 < n ==> Draws(s, c0, shuffles, 0, total) == (used + e.0, e.1))
  {
    DrawsThen(s, c0, shuffles, 0, used, n);
    DrawsThen(s, c0, shuffles, 0, used + n, total - used - n);
  }

  /**
   * Epoch `i` of `epochs`, each of `n` draws, after `i` full epochs: a full epoch leaves the draws
   * of the first `i + 1` epochs all training; a short one is where the draws of all epochs stop,
   * short of `epochs * n`, and leaves `i` full epochs counted.
   */
  lemma EpochsThen(s: Sampler, c0: (nat, seq<int>), shuffles: seq<seq<int>>, i: nat, epochs: nat, n: nat,
                   cBefore: (nat, seq<int>), steps: nat, c: (nat, seq<int>))
    requires i < epochs && epochs * n <= |shuffles|
    requires Draws(s, c0, shuffles, 0, i * n) == (i * n, cBefore)
    requires i * n + n <= |shuffles| && Draws(s, cBefore, shuffles, i * n, n) == (steps, c)
    ensures (i + 1) * n == i * n + n
    ensures steps == n ==> Draws(s, c0, shuffles, 0, i * n + n) == (i * n + n, c)
    ensures steps < n ==>
      && Draws(s, c0, shuffles, 0, epochs * n) == (i * n + steps, c)
      && i * n + steps < epochs * n
      && (i * n + steps) / n == i
  {
    MulBound(i, n, epochs);
    EpochThen(s, c0, shuffles, i * n, n, epochs * n);
    if steps < n {
      DivModOf(i, steps, n);
    }
  }

  /**
   * On a full buffer whose windows have a row, the draw at cursor `a` trains exactly when the
   * batches before it have not used up the `capacity - history_size - 1` sampling indices.
   */
  lemma FullBufferDrawTrains(capacity: nat, h: nat, batch: nat, a: nat, ix: seq<int>)
    requires 1 <= h && 0 < batch && a < capacity / batch
    requires PermutationOfRange(ix, BaseMemory.IndexCount(capacity, h))
    ensures Trains(Sampler(h, capacity / batch, batch, BaseMemory.SampleRange(capacity, capacity)), (a, ix))
      <==> batch * a < capacity - h - 1
  {
    MulLe(a + 1, capacity / batch, batch);
    assert (capacity / batch) * batch <= capacity;
    assert batch * (a + 1) == batch * a + batch;
  }

  /**
   * A buffer of capacity 10 with batch size 1 and one-row windows has `reset_num` 10 but only 8
   * sampling indices: the draw at cursor 7 trains and the one at cursor 8 reads an empty batch.
   */
  lemma ShortIndexListRaises(ix: seq<int>)
    requires PermutationOfRange(ix, 8)
    ensures Trains(Sampler(1, 10, 1, 9), (7, ix))
    ensures Returns(Sampler(1, 10, 1, 9), (8, ix)) && !Trains(Sampler(1, 10, 1, 9), (8, ix))
  {
    FullBufferDrawTrains(10, 1, 1, 7, ix);
    FullBufferDrawTrains(10, 1, 1, 8, ix);
  }

  /**
   * The agent, over observations O, hidden states H and spatial actions A; an action is a
   * spatial part and a nonspatial index. A pushed state is the observation and the hidden
   * state from before the last forward pass.
   */
  class PPOAgent<O, H, A> {
    const memory: BaseMemory.ReplayMemory<(O, Option<H>), A, int>
    const initHidden: H
    var step: int
    var frameCount: nat
    var epochsTrained: nat
    var hidden: H
    var prevHidden: Option<H>
    var value: real
    var action: (A, int)
    /** How many optimizer steps the live parameters have taken, and which of them the target copy holds. */
    var liveVersion: nat
    var targetVersion: nat
    ghost var events: seq<Event>

    ghost predicate Valid()
      reads this, memory
    {
      memory.Valid()
    }

    constructor (memory: BaseMemory.ReplayMemory<(O, Option<H>), A, int>, initHidden: H, noAction: A)
      requires memory.Valid()
      ensures Valid() && this.memory == memory && this.initHidden == initHidden
      ensures step == 0 && frameCount == 0 && epochsTrained == 0 && value == 0.0
      ensures hidden == initHidden && prevHidden == None && action == (noAction, 0)
      ensures liveVersion == 0 && targetVersion == 0 && events == []
    {
      this.memory := memory;
      this.initHidden := initHidden;
      step := 0;
      frameCount := 0;
      epochsTrained := 0;
      hidden := initHidden;
      prevHidden := None;
      value := 0.0;
      action := (noAction, 0);
      liveVersion := 0;
      targetVersion := 0;
      events := [];
    }

    /** `_sample`: one forward pass, given by its value, next hidden state and action; both counters advance by one. */
    method Sample(outValue: real, outHidden: H, outAction: (A, int)) returns (chosen: (A, int))
      modifies this`prevHidden, this`value, this`hidden, this`action, this`frameCount, this`step
      ensures chosen == outAction && action == outAction && value == outValue && hidden == outHidden
      ensures prevHidden == Some(old(hidden))
      ensures frameCount == old(frameCount) + 1 && step == old(step) + 1
    {
      prevHidden := Some(hidden);
      value, hidden, action := outValue, outHidden, outAction;
      frameCount := frameCount + 1;
      step := step + 1;
      chosen := action;
    }

    /**
     * `push_memory`: pushes the state with the pre-forward hidden state, the last value and step,
     * and zero return and advantage. On `done` only the hidden state is reset: the step counter and
     * the value are left as they are.
     */
    method PushMemory(state: O, act: (A, int), reward: real, done: bool)
      requires Valid()
      modifies memory`memory, this`hidden
      ensures Valid()
      ensures memory.memory == LastN(old(memory.memory) + [BaseMemory.Transition((state, prevHidden), act, reward, done, value, 0.0, 0.0, step)], memory.capacity)
      ensures hidden == if done then initHidden else old(hidden)
      ensures step == old(step) && value == old(value)
    {
      memory.Push((state, prevHidden), act, reward, done, value, 0.0, 0.0, step);
      if done {
        hidden := initHidden;
      }
    }

    /** `update_target_net`: the target copy takes the live parameters. */
    method UpdateTargetNet()
      modifies this`targetVersion, this`events
      ensures targetVersion == liveVersion && events == old(events) + [SyncTarget]
    {
      targetVersion := liveVersion;
      events := events + [SyncTarget];
    }

    /** The sampler settings of this agent's draws; none of them changes while it trains. */
    function Sampling(): Sampler
      reads this`frameCount
    {
      Sampler(memory.historySize, memory.resetNum, memory.batchSize, BaseMemory.SampleRange(frameCount, memory.capacity))
    }

    /**
     * The part of `train_step` this model keeps: one mini-batch drawn (advancing the buffer's
     * cursor when the sampler returns) and one optimizer step. An empty mini-batch raises when its
     * first column is taken, after the cursor moved; in either failure no step is taken.
     */
    method TrainStepOnce(shuffled: seq<int>) returns (r: Result<()>)
      requires Valid() && |memory.memory| == memory.capacity
      requires PermutationOfRange(shuffled, BaseMemory.IndexCount(memory.capacity, memory.historySize))
      modifies memory`accessNum, memory`indices, this`liveVersion, this`events
      ensures Valid() && |memory.memory| == memory.capacity
      ensures r.Ok? <==> Trains(Sampling(), (old(memory.accessNum), old(memory.indices)))
      ensures r.Ok? ==> liveVersion == old(liveVersion) + 1 && events == old(events) + [TrainStep]
      ensures r.Fail? ==> liveVersion == old(liveVersion) && events == old(events)
      ensures (memory.accessNum, memory.indices) ==
        if Returns(Sampling(), (old(memory.accessNum), old(memory.indices)))
        then Advance((old(memory.accessNum), old(memory.indices)), memory.resetNum, shuffled)
        else (old(memory.accessNum), old(memory.indices))
    {
      ghost var chunk := memory.CurrentChunk(frameCount);
      ReadsAnyIsChunk(Sampling(), (memory.accessNum, memory.indices));
      if memory.historySize >= 1 {
        BaseMemory.FullMemoryStoresChunk(memory.memory, memory.indices, memory.capacity, memory.historySize,
          memory.batchSize, memory.accessNum, BaseMemory.SampleRange(frameCount, memory.capacity));
      } else if chunk != [] {
        assert !BaseMemory.WindowStored(memory.memory, chunk[0], memory.historySize);
      }
      var batch := memory.SampleMiniBatch(frameCount, shuffled);
      if batch.Fail? {
        return Fail(batch.reason);
      }
      if batch.value == [] {
        return Fail("index 0 is out of bounds for axis 0 with size 0");
      }
      liveVersion := liveVersion + 1;
      events := events + [TrainStep];
      r := Ok(());
    }

    /**
     * The inner loop of `train`: `numIters` steps, taking their reshuffles from `shuffles[used..]`;
     * a step that raises ends it. The steps taken and the cursor left are those of `Draws`.
     */
    method RunEpoch(numIters: nat, shuffles: seq<seq<int>>, used: nat) returns (r: Result<()>)
      requires Valid() && |memory.memory| == memory.capacity && used + numIters <= |shuffles|
      requires forall k :: 0 <= k < |shuffles| ==> PermutationOfRange(shuffles[k], BaseMemory.IndexCount(memory.capacity, memory.historySize))
      modifies memory`accessNum, memory`indices, this`liveVersion, this`events
      ensures Valid() && |memory.memory| == memory.capacity
      ensures var d := Draws(Sampling(), (old(memory.accessNum), old(memory.indices)), shuffles, used, numIters);
        && liveVersion == old(liveVersion) + d.0
        && events == old(events) + Repeat(TrainStep, d.0)
        && (memory.accessNum, memory.indices) == d.1
      ensures r.Ok? <==> liveVersion == old(liveVersion) + numIters
    {
      ghost var total := Draws(Sampling(), (memory.accessNum, memory.indices), shuffles, used, numIters);
      var j := 0;
      while j < numIters
        invariant 0 <= j <= numIters
        invariant Valid() && |memory.memory| == memory.capacity
        invariant liveVersion == old(liveVersion) + j && events == old(events) + Repeat(TrainStep, j)
        invariant var rest := Draws(Sampling(), (memory.accessNum, memory.indices), shuffles, used + j, numIters - j);
          total == (j + rest.0, rest.1)
      {
        var step := TrainStepOnce(shuffles[used + j]);
        if step.Fail? {
          return step;
        }
        assert Repeat(TrainStep, j) + [TrainStep] == Repeat(TrainStep, j + 1);
        j := j + 1;
      }
      r := Ok(());
    }

    /** One pass of the epoch loop of `train`: `numIters` steps, then the epoch counts itself, and an empty epoch fails at the mean. */
    method TrainEpoch(numIters: nat, shuffles: seq<seq<int>>, used: nat) returns (r: Result<()>)
      requires Valid() && |memory.memory| == memory.capacity && used + numIters <= |shuffles|
      requires forall k :: 0 <= k < |shuffles| ==> PermutationOfRange(shuffles[k], BaseMemory.IndexCount(memory.capacity, memory.historySize))
      modifies memory`accessNum, memory`indices, this`liveVersion, this`epochsTrained, this`events
      ensures Valid() && |memory.memory| == memory.capacity
      ensures var d := Draws(Sampling(), (old(memory.accessNum), old(memory.indices)), shuffles, used, numIters);
        && liveVersion == old(liveVersion) + d.0
        && events == old(events) + Repeat(TrainStep, d.0)
        && (memory.accessNum, memory.indices) == d.1
      ensures epochsTrained == old(epochsTrained) + (if liveVersion == old(liveVersion) + numIters then 1 else 0)
      ensures r.Ok? <==> numIters > 0 && liveVersion == old(liveVersion) + numIters
    {
      r := RunEpoch(numIters, shuffles, used);
      if r.Fail? {
        return;
      }
      epochsTrained := epochsTrained + 1;
      if numIters == 0 {
        r := Fail("division by zero");
      }
    }

    /**
     * The epoch loop of `train`: each epoch runs `numIters` steps and then counts itself; an empty
     * epoch fails when its losses are averaged, and a step that raises ends the loop. The steps
     * taken and the cursor left are those of `Draws` over all `epochs * numIters` steps.
     */
    method RunEpochs(numIters: nat, epochs: nat, shuffles: seq<seq<int>>) returns (r: Result<()>)
      requires Valid() && |memory.memory| == memory.capacity && epochs * numIters <= |shuffles|
      requires forall k :: 0 <= k < |shuffles| ==> PermutationOfRange(shuffles[k], BaseMemory.IndexCount(memory.capacity, memory.historySize))
      modifies memory`accessNum, memory`indices, this`liveVersion, this`epochsTrained, this`events
      ensures Valid() && |memory.memory| == memory.capacity
      ensures var d := Draws(Sampling(), (old(memory.accessNum), old(memory.indices)), shuffles, 0, epochs * numIters);
        && liveVersion == old(liveVersion) + d.0
        && events == old(events) + Repeat(TrainStep, d.0)
        && (memory.accessNum, memory.indices) == d.1
      ensures r.Ok? <==> (epochs == 0 || numIters > 0) && liveVersion == old(liveVersion) + epochs * numIters
      ensures numIters > 0 ==> epochsTrained == old(epochsTrained) + (liveVersion - old(liveVersion)) / numIters
      ensures numIters == 0 ==> epochsTrained == old(epochsTrained) + (if epochs == 0 then 0 else 1)
    {
      ghost var c0 := (memory.accessNum, memory.indices);
      ghost var sampler := Sampling();
      var used := 0;
      var i := 0;
      while i < epochs
        invariant 0 <= i <= epochs && used == i * numIters && (i > 0 ==> numIters > 0)
        invariant Valid() && |memory.memory| == memory.capacity
        invariant events == old(events) + Repeat(TrainStep, used)
        invariant liveVersion == old(liveVersion) + used && epochsTrained == old(epochsTrained) + i
        invariant used <= epochs * numIters
        invariant Draws(sampler, c0, shuffles, 0, used) == (used, (memory.accessNum, memory.indices))
      {
        MulBound(i, numIters, epochs);
        ghost var before, cBefore := liveVersion, (memory.accessNum, memory.indices);
        var epoch := TrainEpoch(numIters, shuffles, used);
        ghost var steps := liveVersion - before;
        RepeatAdd(TrainStep, used, steps);
        EpochsThen(sampler, c0, shuffles, i, epochs, numIters, cBefore, steps, (memory.accessNum, memory.indices));
        if epoch.Fail? {
          return epoch;
        }
        used := used + numIters;
        i := i + 1;
      }
      if numIters > 0 {
        DivModOf(epochs, 0, numIters);
      }
      r := Ok(());
    }

    /**
     * `train`: value targets and advantages first, then `epochs` epochs of `len(memory) / batchSize`
     * steps each, then exactly one target sync. With no step per epoch, the mean of the first epoch's
     * losses divides by zero after `epochs_trained` was advanced. `shuffles` are the permutations
     * used whenever the buffer's cursor wraps. The buffer must be full for every window to exist.
     */
    method Train(gamma: real, lam: real, batchSize: nat, epochs: nat, shuffles: seq<seq<int>>) returns (r: Result<()>)
      requires Valid() && |memory.memory| == memory.capacity
      requires forall k :: 0 <= k < |shuffles| ==> PermutationOfRange(shuffles[k], BaseMemory.IndexCount(memory.capacity, memory.historySize))
      requires batchSize > 0 ==> |shuffles| >= epochs * (memory.capacity / batchSize)
      modifies memory`memory, memory`accessNum, memory`indices, this`liveVersion, this`targetVersion, this`epochsTrained, this`events
      ensures Valid()
      ensures memory.memory == BaseMemory.Finalized(old(memory.memory), gamma, lam)
      ensures old(liveVersion) <= liveVersion
      ensures targetVersion == if r.Ok? then liveVersion else old(targetVersion)
      ensures r.Ok? ==> events == old(events) + [ComputeTargets] + Repeat(TrainStep, liveVersion - old(liveVersion)) + [SyncTarget]
      ensures r.Fail? ==> events == old(events) + [ComputeTargets] + Repeat(TrainStep, liveVersion - old(liveVersion))
      ensures batchSize == 0 ==>
        && r.Fail? && liveVersion == old(liveVersion) && epochsTrained == old(epochsTrained)
        && memory.accessNum == old(memory.accessNum) && memory.indices == old(memory.indices)
      ensures batchSize > 0 ==>
        var n := memory.capacity / batchSize;
        var d := Draws(Sampling(), (old(memory.accessNum), old(memory.indices)), shuffles, 0, epochs * n);
        && liveVersion == old(liveVersion) + d.0
        && (memory.accessNum, memory.indices) == d.1
        && (r.Ok? <==> (epochs == 0 || n > 0) && d.0 == epochs * n)
        && (n > 0 ==> epochsTrained == old(epochsTrained) + d.0 / n)
        && (n == 0 ==> epochsTrained == old(epochsTrained) + (if epochs == 0 then 0 else 1))
    {
      memory.ComputeVTargetsAdv(gamma, lam);
      events := events + [ComputeTargets];
      if batchSize == 0 {
        return Fail("division by zero");
      }
      var numIters := memory.Length() / batchSize;
      assert numIters == memory.capacity / batchSize;
      ghost var afterTargets := events;
      r := RunEpochs(numIters, epochs, shuffles);
      if r.Ok? {
        UpdateTargetNet();
        assert events == afterTargets + Repeat(TrainStep, liveVersion - old(liveVersion)) + [SyncTarget];
      }
    }
  }

  lemma MulBound(i: nat, n: nat, e: nat)
    requires i < e
    ensures i * n + n <= e * n
  {
    MulLe(i + 1, e, n);
  }

  lemma MulSucc(i: nat, n: nat)
    ensures (i + 1) * n == i * n + n
  {
  }

  lemma RepeatAdd(e: Event, m: nat, n: nat)
    ensures Repeat(e, m) + Repeat(e, n) == Repeat(e, m + n)
  {
  }

  lemma MulLe(a: nat, b: nat, n: nat)
    requires a <= b
    ensures a * n <= b * n
  {
  }
}
