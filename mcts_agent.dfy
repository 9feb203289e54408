/**
 * The bookkeeping of the Pommerman Monte-Carlo tree search agent: tie-breaking argmax, the
 * discounted trajectory memory of the policy network, per-node visit statistics, the discounted
 * backup along a search trace, and the running averages over rollouts that pick the action.
 * Random choices are given as indices.
 */
module MctsAgent {
  import opened Common

  /** The number of Pommerman actions: stop, up, down, left, right, bomb. */
  const NumActions: nat := 6

  // ---------------------------------------------------------------------------
  // Maximum and tie-breaking

  function MaxOf(q: seq<real>): (m: real)
    requires |q| > 0
    ensures forall k :: 0 <= k < |q| ==> q[k] <= m
    ensures exists k :: 0 <= k < |q| && q[k] == m
  {
    if |q| == 1 then q[0]
    else
      var m := MaxOf(q[..|q| - 1]);
      assert forall k :: 0 <= k < |q| - 1 ==> q[..|q| - 1][k] == q[k];
      if q[|q| - 1] > m then q[|q| - 1] else m
  }

  /** `np.flatnonzero(q == m)`: the indices holding `m`, in increasing order. */
  function IndicesOf(q: seq<real>, m: real): (idx: seq<nat>)
    ensures forall p :: 0 <= p < |idx| ==> idx[p] < |q| && q[idx[p]] == m
    ensures forall p, p' :: 0 <= p < p' < |idx| ==> idx[p] < idx[p']
    ensures forall k :: 0 <= k < |q| && q[k] == m ==> k in idx
  {
    if q == [] then []
    else
      var n := |q| - 1;
      var front := IndicesOf(q[..n], m);
      assert forall k :: 0 <= k < n ==> q[..n][k] == q[k];
      if q[n] == m then front + [n] else front
  }

  /**
   * `argmax_tiebreaking`: one of the indices holding the maximum, chosen by `pick` among them; `np.max`
   * of an empty array fails. The assertion that some index holds the maximum never fails.
   */
  function ArgmaxTiebreaking(q: seq<real>, pick: nat): (r: Result<nat>)
    ensures r.Fail? <==> q == []
    ensures r.Ok? ==> r.value < |q| && forall k :: 0 <= k < |q| ==> q[k] <= q[r.value]
  {
    if q == [] then Fail("zero-size array to reduction operation maximum which has no identity")
    else
      var idx := IndicesOf(q, MaxOf(q));
      Ok(idx[pick % |idx|])
  }

  /** Every index holding the maximum is chosen by some pick. */
  lemma EveryTieCanBePicked(q: seq<real>, j: nat)
    requires j < |q| && forall k :: 0 <= k < |q| ==> q[k] <= q[j]
    ensures exists pick :: 0 <= pick < |q| && ArgmaxTiebreaking(q, pick) == Ok(j)
  {
    var m := MaxOf(q);
    var idx := IndicesOf(q, m);
    assert q[j] == m;
    assert j in idx;
    var p :| 0 <= p < |idx| && idx[p] == j;
    IncreasingBelowIsShort(idx, |q|);
    ModSmall(p, |idx|);
    assert ArgmaxTiebreaking(q, p) == Ok(idx[p]);
  }

  lemma ModSmall(p: nat, n: nat)
    requires p < n
    ensures p % n == p
  {
  }

  lemma {:induction false} IncreasingBelowIsShort(idx: seq<nat>, n: nat)
    requires forall p :: 0 <= p < |idx| ==> idx[p] < n
    requires forall p, p' :: 0 <= p < p' < |idx| ==> idx[p] < idx[p']
    ensures |idx| <= n
    decreases n
  {
    if idx != [] {
      var last := idx[|idx| - 1];
      var front := idx[..|idx| - 1];
      assert forall p :: 0 <= p < |front| ==> front[p] < last;
      IncreasingBelowIsShort(front, last);
    }
  }

  // ---------------------------------------------------------------------------
  // Policy network memory

  /** One stored step: the state's first two parts, the action and the discounted episode reward. */
  datatype Experience<S, A> = Experience(state: S, action: A, reward: real)

  /** A reward discounted k times. */
  function Decayed(reward: real, discount: real, k: nat): real
  {
    reward * Pow(discount, k)
  }

  /** Discounting once more adds one factor. */
  lemma DiscountOnce(reward: real, discount: real, i: nat)
    ensures Decayed(reward, discount, i) * discount == Decayed(reward, discount, i + 1)
  {
    assert Pow(discount, i + 1) == discount * Pow(discount, i);
  }

  /** Step k of an n-step episode with final reward `reward` earns `reward * discount^(n-1-k)`. */
  function Discounted<S, A>(trajectory: seq<(S, A)>, reward: real, discount: real): (e: seq<Experience<S, A>>)
    ensures |e| == |trajectory|
    ensures forall k :: 0 <= k < |e| ==> e[k] == Experience(trajectory[k].0, trajectory[k].1, Decayed(reward, discount, |trajectory| - 1 - k))
  {
    seq(|trajectory|, k requires 0 <= k < |trajectory| =>
      Experience(trajectory[k].0, trajectory[k].1, Decayed(reward, discount, |trajectory| - 1 - k)))
  }

  /** The last step of an episode earns the final reward undiscounted, and each step before it one more factor of the discount. */
  lemma DiscountedSteps<S, A>(trajectory: seq<(S, A)>, reward: real, discount: real, k: nat)
    requires 0 < k < |trajectory|
    ensures Discounted(trajectory, reward, discount)[|trajectory| - 1].reward == reward
    ensures Discounted(trajectory, reward, discount)[k - 1].reward == Discounted(trajectory, reward, discount)[k].reward * discount
  {
    var n := |trajectory|;
    DiscountOnce(reward, discount, n - 1 - k);
  }

  /** `[reward, reward * discount, reward * discount^2, ...]`, n entries. */
  function Decay(reward: real, discount: real, n: nat): (s: seq<real>)
    ensures |s| == n
    ensures forall k :: 0 <= k < n ==> s[k] == Decayed(reward, discount, k)
  {
    if n == 0 then [] else Decay(reward, discount, n - 1) + [Decayed(reward, discount, n - 1)]
  }

  /** The reward loop of `push`: the final reward discounted once more per step, then reversed. */
  method DiscountedRewards(n: nat, reward: real, discount: real) returns (rewards: seq<real>)
    ensures |rewards| == n
    ensures forall k :: 0 <= k < n ==> rewards[k] == Decayed(reward, discount, n - 1 - k)
  {
    var forward: seq<real> := [];
    var r := reward;
    var i := 0;
    while i < n
      invariant 0 <= i <= n
      invariant r == Decayed(reward, discount, i)
      invariant forward == Decay(reward, discount, i)
    {
      forward := forward + [r];
      DiscountOnce(reward, discount, i);
      r := r * discount;
      i := i + 1;
    }
    rewards := seq(n, k requires 0 <= k < n => forward[n - 1 - k]);
    assert forall k :: 0 <= k < n ==> rewards[k] == forward[n - 1 - k];
  }

  class PolicyNetMemory<S, A> {
    const bufferLen: nat
    const discount: real
    var experiences: seq<Experience<S, A>>
    var currentTrajectory: seq<(S, A)>

    ghost predicate Valid()
      reads this
    {
      |experiences| <= bufferLen
    }

    constructor (bufferLen: nat, discount: real)
      ensures Valid() && this.bufferLen == bufferLen && this.discount == discount
      ensures experiences == [] && currentTrajectory == []
    {
      this.bufferLen := bufferLen;
      this.discount := discount;
      experiences := [];
      currentTrajectory := [];
    }

    /**
     * `push`: records the step; at the end of an episode, stores the whole trajectory with
     * discounted rewards, oldest experiences evicted first, and starts a new trajectory.
     */
    method Push(state: S, action: A, reward: real, done: bool)
      requires Valid()
      modifies this
      ensures Valid()
      ensures !done ==> currentTrajectory == old(currentTrajectory) + [(state, action)] && experiences == old(experiences)
      ensures done ==>
        && currentTrajectory == []
        && experiences == LastN(old(experiences) + Discounted(old(currentTrajectory) + [(state, action)], reward, discount), bufferLen)
    {
      currentTrajectory := currentTrajectory + [(state, action)];
      if done {
        var steps := currentTrajectory;
        var rewards := DiscountedRewards(|steps|, reward, discount);
        var trajectory := seq(|steps|, k requires 0 <= k < |steps| => Experience(steps[k].0, steps[k].1, rewards[k]));
        ghost var expected := Discounted(steps, reward, discount);
        assert forall k :: 0 <= k < |steps| ==> trajectory[k] == expected[k];
        assert trajectory == expected;
        experiences := LastN(experiences + trajectory, bufferLen);
        currentTrajectory := [];
      }
    }

    /** `get_data`: the stored experiences, oldest first. */
    function GetData(): (d: seq<Experience<S, A>>)
      reads this
      requires Valid()
      ensures d == experiences && |d| <= bufferLen
    {
      experiences
    }
  }

  // ---------------------------------------------------------------------------
  // Search tree node

  class MCTSNode {
    const P: seq<real>
    const cPuct: real
    /** Mean value, total value and visit count per action. */
    const Q: array<real>
    const W: array<real>
    const N: array<nat>

    ghost predicate Valid()
      reads this, Q, W, N
    {
      && Q.Length == NumActions && W.Length == NumActions && N.Length == NumActions
      && Q != W
      && (forall a :: 0 <= a < NumActions ==> Q[a] * N[a] as real == W[a])
      && (forall a :: 0 <= a < NumActions && N[a] == 0 ==> Q[a] == 0.0)
    }

    /** The prior must have one entry per action: the constructor's own assertion on its length is this precondition. */
    constructor (p: seq<real>, cPuct: real)
      requires |p| == NumActions
      ensures Valid() && fresh(Q) && fresh(W) && fresh(N)
      ensures P == p && this.cPuct == cPuct
      ensures forall a :: 0 <= a < NumActions ==> Q[a] == 0.0 && W[a] == 0.0 && N[a] == 0
    {
      P := p;
      this.cPuct := cPuct;
      Q := new real[NumActions](_ => 0.0);
      W := new real[NumActions](_ => 0.0);
      N := new nat[NumActions](_ => 0);
    }

    /** `update`: adds one visit with the given reward to action `a`; the other actions are untouched. */
    method Update(a: nat, reward: real)
      requires Valid() && a < NumActions
      modifies Q, W, N
      ensures Valid()
      ensures W[a] == old(W[a]) + reward && N[a] == old(N[a]) + 1 && Q[a] == W[a] / N[a] as real
      ensures forall b :: 0 <= b < NumActions && b != a ==> Q[b] == old(Q[b]) && W[b] == old(W[b]) && N[b] == old(N[b])
    {
      W[a] := W[a] + reward;
      N[a] := N[a] + 1;
      Q[a] := W[a] / N[a] as real;
    }

    function Visits(): (v: seq<real>)
      reads this, N
      ensures |v| == N.Length && forall a :: 0 <= a < |v| ==> v[a] == N[a] as real
    {
      seq(N.Length, a requires 0 <= a < N.Length reads N => N[a] as real)
    }

    /** `probs(0)`: one-hot at a most visited action, chosen by `pick` among the ties. */
    function ProbsGreedy(pick: nat): (p: seq<real>)
      reads this, Q, W, N
      requires Valid()
      ensures |p| == NumActions && Sum(p) == 1.0
      ensures exists a ::
        && 0 <= a < NumActions && p[a] == 1.0
        && (forall b :: 0 <= b < NumActions ==> N[b] <= N[a])
        && (forall b :: 0 <= b < NumActions && b != a ==> p[b] == 0.0)
    {
      var a := ArgmaxTiebreaking(Visits(), pick).value;
      var p := seq(NumActions, b requires 0 <= b < NumActions => if b == a then 1.0 else 0.0);
      OneHotSum(p, a);
      p
    }

    /** `probs(1)`: visit counts normalized to sum 1; with no visit at all numpy yields NaNs, here `None`. */
    function ProbsProportional(): (p: Option<seq<real>>)
      reads this, Q, W, N
      requires Valid()
      ensures p.None? <==> Sum(Visits()) == 0.0
      ensures p.Some? ==>
        && |p.value| == NumActions && Sum(p.value) == 1.0
        && forall a :: 0 <= a < NumActions ==> p.value[a] * Sum(Visits()) == N[a] as real
    {
      var v := Visits();
      var total := Sum(v);
      if total == 0.0 then None
      else
        var p := seq(NumActions, a requires 0 <= a < NumActions => v[a] / total);
        SumScaled(v, total);
        assert p == Scaled(v, total);
        Some(p)
    }
  }

  lemma {:induction false} OneHotSum(p: seq<real>, a: nat)
    requires a < |p| && forall b :: 0 <= b < |p| ==> p[b] == if b == a then 1.0 else 0.0
    ensures Sum(p) == 1.0
    decreases |p|
  {
    var n := |p| - 1;
    if n == a {
      ZeroSum(p[..n]);
    } else {
      OneHotSum(p[..n], a);
    }
  }

  lemma {:induction false} ZeroSum(p: seq<real>)
    requires forall b :: 0 <= b < |p| ==> p[b] == 0.0
    ensures Sum(p) == 0.0
    decreases |p|
  {
    if p != [] {
      ZeroSum(p[..|p| - 1]);
    }
  }

  function Scaled(v: seq<real>, total: real): (s: seq<real>)
    requires total != 0.0
    ensures |s| == |v| && forall k :: 0 <= k < |s| ==> s[k] == v[k] / total
  {
    seq(|v|, k requires 0 <= k < |v| => v[k] / total)
  }

  lemma {:induction false} SumScaled(v: seq<real>, total: real)
    requires total != 0.0
    ensures Sum(Scaled(v, total)) == Sum(v) / total
    decreases |v|
  {
    if v != [] {
      var n := |v| - 1;
      SumScaled(v[..n], total);
      assert Scaled(v, total)[..n] == Scaled(v[..n], total);
    }
  }

  // ---------------------------------------------------------------------------
  // Backup along a search trace

  /**
   * The reward loop of the backup: walking the trace from its end, each node receives the current
   * reward, which is then discounted. Returned in trace order.
   */
  method BackupRewards(traceLen: nat, leafReward: real, discount: real) returns (received: seq<real>)
    ensures |received| == traceLen
    ensures traceLen > 0 ==> received[traceLen - 1] == leafReward
    ensures forall k :: 0 <= k < traceLen ==> received[k] == Decayed(leafReward, discount, traceLen - 1 - k)
  {
    received := seq(traceLen, _ => 0.0);
    var reward := leafReward;
    var i := traceLen;
    while i > 0
      invariant 0 <= i <= traceLen && |received| == traceLen
      invariant reward == Decayed(leafReward, discount, traceLen - i)
      invariant forall k :: i <= k < traceLen ==> received[k] == Decayed(leafReward, discount, traceLen - 1 - k)
    {
      i := i - 1;
      received := received[i := reward];
      DiscountOnce(leafReward, discount, traceLen - 1 - i);
      reward := reward * discount;
    }
  }

  // ---------------------------------------------------------------------------
  // Running averages over rollouts

  /** A rollout's first action, length and discounted reward. */
  datatype Rollout = Rollout(firstAction: int, length: nat, reward: real)

  function CountOf(rs: seq<Rollout>, a: int): nat
  {
    if rs == [] then 0 else CountOf(rs[..|rs| - 1], a) + (if rs[|rs| - 1].firstAction == a then 1 else 0)
  }

  function RewardOf(rs: seq<Rollout>, a: int): real
  {
    if rs == [] then 0.0 else RewardOf(rs[..|rs| - 1], a) + (if rs[|rs| - 1].firstAction == a then rs[|rs| - 1].reward else 0.0)
  }

  function LengthOf(rs: seq<Rollout>, a: int): real
  {
    if rs == [] then 0.0 else LengthOf(rs[..|rs| - 1], a) + (if rs[|rs| - 1].firstAction == a then rs[|rs| - 1].length as real else 0.0)
  }

  /** The first actions in order of first appearance: the dictionary's key order. */
  function FirstSeen(rs: seq<Rollout>): (order: seq<int>)
    ensures forall a :: a in order <==> CountOf(rs, a) > 0
    ensures forall p, q :: 0 <= p < q < |order| ==> order[p] != order[q]
  {
    if rs == [] then []
    else
      var front := FirstSeen(rs[..|rs| - 1]);
      if rs[|rs| - 1].firstAction in front then front else front + [rs[|rs| - 1].firstAction]
  }

  /** The mean of `count` values adding up to `total`. */
  function Mean(total: real, count: nat): real
    requires count > 0
  {
    total / count as real
  }

  /** The running-mean update of `act`: the mean of `f` values folded with one more value. */
  function RunningMean(f: nat, avg: real, x: real): real
  {
    (f as real) / ((f + 1) as real) * avg + x / ((f + 1) as real)
  }

  /** Updating the mean of f values with one more value gives the mean of f + 1 values. */
  lemma RunningMeanIsMean(f: nat, total: real, x: real)
    requires f > 0
    ensures RunningMean(f, Mean(total, f), x) == Mean(total + x, f + 1)
  {
    var F := f as real;
    assert F / (F + 1.0) * (total / F) == total / (F + 1.0);
  }

  /** What the averaging loop keeps about the rollouts seen so far, for one first action. */
  ghost predicate KeyAveraged(rs: seq<Rollout>, frequency: map<int, nat>, avgLength: map<int, real>, avgReward: map<int, real>, a: int)
  {
    && (a in frequency <==> CountOf(rs, a) > 0)
    && (a in frequency ==>
         && a in avgLength && a in avgReward
         && frequency[a] == CountOf(rs, a)
         && avgReward[a] == Mean(RewardOf(rs, a), CountOf(rs, a))
         && avgLength[a] == Mean(LengthOf(rs, a), CountOf(rs, a)))
  }

  ghost predicate Averages(rs: seq<Rollout>, frequency: map<int, nat>, avgLength: map<int, real>, avgReward: map<int, real>)
  {
    forall a :: KeyAveraged(rs, frequency, avgLength, avgReward, a)
  }

  lemma AppendRollout(rs: seq<Rollout>, x: Rollout, a: int)
    ensures CountOf(rs + [x], a) == CountOf(rs, a) + if x.firstAction == a then 1 else 0
    ensures RewardOf(rs + [x], a) == RewardOf(rs, a) + if x.firstAction == a then x.reward else 0.0
    ensures LengthOf(rs + [x], a) == LengthOf(rs, a) + if x.firstAction == a then x.length as real else 0.0
    ensures FirstSeen(rs + [x]) == if x.firstAction in FirstSeen(rs) then FirstSeen(rs) else FirstSeen(rs) + [x.firstAction]
  {
    assert (rs + [x])[..|rs|] == rs;
  }

  lemma {:induction false} UnseenIsZero(rs: seq<Rollout>, a: int)
    requires CountOf(rs, a) == 0
    ensures RewardOf(rs, a) == 0.0 && LengthOf(rs, a) == 0.0
  {
    if rs != [] {
      UnseenIsZero(rs[..|rs| - 1], a);
    }
  }

  /** One iteration of the averaging loop: counts the rollout and folds it into the running means of its first action. */
  method AddRollout(ghost rs: seq<Rollout>, x: Rollout, frequency: map<int, nat>, avgLength: map<int, real>, avgReward: map<int, real>, order: seq<int>)
    returns (frequency': map<int, nat>, avgLength': map<int, real>, avgReward': map<int, real>, order': seq<int>)
    requires Averages(rs, frequency, avgLength, avgReward) && order == FirstSeen(rs)
    ensures Averages(rs + [x], frequency', avgLength', avgReward') && order' == FirstSeen(rs + [x])
  {
    var a := x.firstAction;
    assert KeyAveraged(rs, frequency, avgLength, avgReward, a);
    AppendRollout(rs, x, a);
    if a in frequency {
      var f := frequency[a];
      RunningMeanIsMean(f, RewardOf(rs, a), x.reward);
      RunningMeanIsMean(f, LengthOf(rs, a), x.length as real);
      avgLength' := avgLength[a := RunningMean(f, avgLength[a], x.length as real)];
      avgReward' := avgReward[a := RunningMean(f, avgReward[a], x.reward)];
      frequency' := frequency[a := f + 1];
      order' := order;
    } else {
      UnseenIsZero(rs, a);
      avgLength' := avgLength[a := x.length as real];
      avgReward' := avgReward[a := x.reward];
      frequency' := frequency[a := 1];
      order' := order + [a];
    }
    assert KeyAveraged(rs + [x], frequency', avgLength', avgReward', a);
    forall b
      ensures KeyAveraged(rs + [x], frequency', avgLength', avgReward', b)
    {
      if b != a {
        AppendRollout(rs, x, b);
        assert KeyAveraged(rs, frequency, avgLength, avgReward, b);
      }
    }
  }

  /**
   * The averaging loop of `act`: per first action, how many rollouts began with it and the mean of
   * their lengths and rewards, kept as running means; the actions in order of first appearance.
   */
  method RolloutAverages(rollouts: seq<Rollout>)
    returns (frequency: map<int, nat>, avgLength: map<int, real>, avgReward: map<int, real>, order: seq<int>)
    ensures order == FirstSeen(rollouts)
    ensures Averages(rollouts, frequency, avgLength, avgReward)
  {
    frequency, avgLength, avgReward, order := map[], map[], map[], [];
    var i := 0;
    while i < |rollouts|
      invariant 0 <= i <= |rollouts|
      invariant order == FirstSeen(rollouts[..i])
      invariant Averages(rollouts[..i], frequency, avgLength, avgReward)
    {
      assert rollouts[..i + 1] == rollouts[..i] + [rollouts[i]];
      frequency, avgLength, avgReward, order := AddRollout(rollouts[..i], rollouts[i], frequency, avgLength, avgReward, order);
      i := i + 1;
    }
    assert rollouts[..i] == rollouts;
  }

  function FirstArgmax(s: seq<real>): (k: nat)
    requires |s| > 0
    ensures k < |s|
    ensures forall j :: 0 <= j < |s| ==> s[j] <= s[k]
    ensures forall j :: 0 <= j < k ==> s[j] < s[k]
  {
    if |s| == 1 then 0
    else
      var k := FirstArgmax(s[..|s| - 1]);
      assert forall j :: 0 <= j < |s| - 1 ==> s[..|s| - 1][j] == s[j];
      if s[|s| - 1] > s[k] then |s| - 1 else k
  }

  /** `max(avg_reward, key=avg_reward.get)`: the first key, in insertion order, with the highest average; no rollout, no key. */
  function BestAction(order: seq<int>, avgReward: map<int, real>): (r: Result<int>)
    requires forall k :: 0 <= k < |order| ==> order[k] in avgReward
    ensures r.Fail? <==> order == []
    ensures r.Ok? ==> r.value in order && forall a :: a in order ==> avgReward[a] <= avgReward[r.value]
    ensures r.Ok? ==> exists k :: 0 <= k < |order| && order[k] == r.value && forall j :: 0 <= j < k ==> avgReward[order[j]] < avgReward[r.value]
  {
    if order == [] then Fail("max() arg is an empty sequence")
    else
      var values := seq(|order|, k requires 0 <= k < |order| => avgReward[order[k]]);
      var k := FirstArgmax(values);
      assert forall a :: a in order ==> exists j :: 0 <= j < |order| && order[j] == a && values[j] == avgReward[a];
      assert forall j :: 0 <= j < k ==> avgReward[order[j]] == values[j] < values[k] == avgReward[order[k]];
      Ok(order[k])
  }
}
