/**
 * The index bookkeeping of the base network: splitting an action's argument types into spatial and
 * non-spatial ones, placing sampled argument values, decoding a sampled flat screen index into a
 * row and a column, and the schedule of hidden-state resets while unrolling a frame history.
 * The networks themselves are left out: a forward step is a function given as a parameter, and
 * every random draw is an input.
 */
module Network {
  import opened Common
  import opened Sc2EnvUtils

  // ---------------------------------------------------------------------------
  // Splitting an action's argument types

  /** `action_to_spatial_args`, given `get_action_args(action)`: the spatial ids, in order. */
  function SpatialArgs(args: seq<nat>): (s: seq<nat>)
    ensures forall k :: 0 <= k < |s| ==> IsSpatialArg(s[k])
    ensures |s| <= |args|
  {
    if args == [] then []
    else SpatialArgs(args[..|args| - 1]) + (if IsSpatialArg(args[|args| - 1]) then [args[|args| - 1]] else [])
  }

  /** `action_to_nonspatial_args`: the non-spatial ids, in order. */
  function NonspatialArgs(args: seq<nat>): (s: seq<nat>)
    ensures forall k :: 0 <= k < |s| ==> !IsSpatialArg(s[k])
    ensures |s| <= |args|
  {
    if args == [] then []
    else NonspatialArgs(args[..|args| - 1]) + (if IsSpatialArg(args[|args| - 1]) then [] else [args[|args| - 1]])
  }

  /** The two lists share no id and together hold every id of the action, as often as it occurs. */
  lemma {:induction false} SplitPartitions(args: seq<nat>)
    ensures multiset(SpatialArgs(args)) + multiset(NonspatialArgs(args)) == multiset(args)
    ensures forall i :: i in SpatialArgs(args) <==> i in args && IsSpatialArg(i)
    ensures forall i :: i in NonspatialArgs(args) <==> i in args && !IsSpatialArg(i)
  {
    if args != [] {
      var front, last := args[..|args| - 1], args[|args| - 1];
      SplitPartitions(front);
      assert args == front + [last];
    }
  }

  /** Splitting a concatenation splits each part in turn: both lists keep the order of the ids. */
  lemma {:induction false} SplitKeepsOrder(xs: seq<nat>, ys: seq<nat>)
    ensures SpatialArgs(xs + ys) == SpatialArgs(xs) + SpatialArgs(ys)
    ensures NonspatialArgs(xs + ys) == NonspatialArgs(xs) + NonspatialArgs(ys)
    decreases |ys|
  {
    if ys == [] {
      assert xs + ys == xs;
    } else {
      var front, last := ys[..|ys| - 1], ys[|ys| - 1];
      assert (xs + ys)[..|xs + ys| - 1] == xs + front;
      SplitKeepsOrder(xs, front);
    }
  }

  // ---------------------------------------------------------------------------
  // Sampling arguments

  /**
   * `sample_arg`: `arg_depth` zeros, except that slot `i - 3` of each non-spatial argument type `i`
   * of the action holds the value drawn for it. `draws[j]` is the value `sample_func` draws from
   * the distribution of slot `j`. A type past the last slot is an index error.
   */
  method SampleArg(args: seq<nat>, draws: seq<int>) returns (r: Result<seq<int>>)
    requires |draws| == ArgDepth
    ensures r.Fail? <==> exists i :: i in NonspatialArgs(args) && i - NumSpatialArgTypes >= ArgDepth
    ensures r.Ok? ==> |r.value| == ArgDepth && forall j :: 0 <= j < ArgDepth ==>
      r.value[j] == if j + NumSpatialArgTypes in NonspatialArgs(args) then draws[j] else 0
  {
    var argTypes := NonspatialArgs(args);
    var argOut := new int[ArgDepth](_ => 0);
    for q := 0 to |argTypes|
      invariant forall k :: 0 <= k < q ==> argTypes[k] - NumSpatialArgTypes < ArgDepth
      invariant forall j :: 0 <= j < ArgDepth ==> argOut[j] == if j + NumSpatialArgTypes in argTypes[..q] then draws[j] else 0
    {
      var i := argTypes[q];
      if i - NumSpatialArgTypes >= ArgDepth {
        assert i in NonspatialArgs(args) && i - NumSpatialArgTypes >= ArgDepth;
        return Fail("index out of bounds for the argument slots");
      }
      argOut[i - NumSpatialArgTypes] := draws[i - NumSpatialArgTypes];
      assert argTypes[..q + 1] == argTypes[..q] + [i];
    }
    assert argTypes[..|argTypes|] == argTypes;
    r := Ok(argOut[..]);
  }

  /** A flat index into a `size` by `size` screen, as `(row, column)`. */
  function Decode(idx: nat, size: nat): (nat, nat)
    requires size > 0
  {
    (idx / size, idx % size)
  }

  /** Decoding a flat screen index gives an in-range cell from which the index is recovered. */
  lemma DecodeRecovers(idx: nat, size: nat)
    requires size > 0 && idx < size * size
    ensures Decode(idx, size).0 < size && Decode(idx, size).1 < size
    ensures Decode(idx, size).0 * size + Decode(idx, size).1 == idx
  {
  }

  /** Every cell of the screen is decoded from its row-major index. */
  lemma EncodeDecode(row: nat, col: nat, size: nat)
    requires col < size
    ensures Decode(row * size + col, size) == (row, col)
  {
    DivModOf(row, col, size);
  }

  /**
   * `sample_spatial`: one `(row, column)` per spatial argument slot, zero except at the action's
   * spatial argument types; `flatDraws[i]` is the flat index drawn for spatial type `i`.
   */
  method SampleSpatial(args: seq<nat>, flatDraws: seq<nat>, spatialSize: nat) returns (out: seq<(nat, nat)>)
    requires |flatDraws| == NumSpatialArgTypes && spatialSize > 0
    ensures |out| == NumSpatialArgTypes
    ensures forall i :: 0 <= i < NumSpatialArgTypes ==>
      out[i] == if i in SpatialArgs(args) then Decode(flatDraws[i], spatialSize) else (0, 0)
  {
    var argTypes := SpatialArgs(args);
    var spatialArgOut := new (nat, nat)[NumSpatialArgTypes](_ => (0, 0));
    for q := 0 to |argTypes|
      invariant forall i :: 0 <= i < NumSpatialArgTypes ==>
        spatialArgOut[i] == if i in argTypes[..q] then Decode(flatDraws[i], spatialSize) else (0, 0)
    {
      var i := argTypes[q];
      var argIndex := flatDraws[i];
      spatialArgOut[i] := (argIndex / spatialSize, argIndex % spatialSize);
      assert argTypes[..q + 1] == argTypes[..q] + [i];
    }
    assert argTypes[..|argTypes|] == argTypes;
    out := spatialArgOut[..];
  }

  // ---------------------------------------------------------------------------
  // Unrolling a history of frames

  /** After unrolling frame `i`, the rows whose frame `i` is not relevant restart from `init`. */
  function ResetIrrelevant<H>(hiddens: seq<H>, relevant: seq<seq<int>>, i: nat, init: H): (h: seq<H>)
    requires |relevant| == |hiddens| && forall b :: 0 <= b < |relevant| ==> i < |relevant[b]|
    ensures |h| == |hiddens|
    ensures forall b :: 0 <= b < |h| ==> h[b] == if relevant[b][i] == 0 then init else hiddens[b]
  {
    seq(|hiddens|, b requires 0 <= b < |hiddens| => if relevant[b][i] == 0 then init else hiddens[b])
  }

  /** A forward step keeps one hidden state per batch row. */
  ghost predicate KeepsBatch<H(!new)>(forward: (nat, seq<H>) -> seq<H>)
  {
    forall i, h :: |forward(i, h)| == |h|
  }

  /** The hidden states after unrolling the first `n` frames. */
  function Unrolled<H(!new)>(forward: (nat, seq<H>) -> seq<H>, hiddens: seq<H>, relevant: seq<seq<int>>, n: nat, init: H): (h: seq<H>)
    requires KeepsBatch(forward)
    requires |relevant| == |hiddens| && forall b :: 0 <= b < |relevant| ==> n <= |relevant[b]|
    ensures |h| == |hiddens|
  {
    if n == 0 then hiddens
    else
      var before := Unrolled(forward, hiddens, relevant, n - 1, init);
      ResetIrrelevant(forward(n - 1, before), relevant, n - 1, init)
  }

  /**
   * The loop of `unroll_forward`: one step per frame but the last, each followed by the resets,
   * then the hidden states handed to the final step on the last frame. The frames each step
   * reads are listed in `frames`. With no frame at all, reading the last one is an index error.
   */
  method UnrollForward<H(!new)>(forward: (nat, seq<H>) -> seq<H>, hiddens: seq<H>, relevant: seq<seq<int>>, histSize: nat, init: H)
    returns (r: Result<seq<H>>, frames: seq<int>)
    requires KeepsBatch(forward)
    requires |relevant| == |hiddens| && forall b :: 0 <= b < |relevant| ==> histSize <= |relevant[b]|
    ensures r.Fail? <==> histSize == 0
    ensures r.Ok? ==> r.value == Unrolled(forward, hiddens, relevant, histSize - 1, init)
    ensures r.Ok? ==> |frames| == histSize && forall k :: 0 <= k < histSize ==> frames[k] == k
  {
    var h := hiddens;
    frames := [];
    var i := 0;
    while i + 1 < histSize
      invariant i <= Max(0, histSize - 1)
      invariant h == Unrolled(forward, hiddens, relevant, i, init)
      invariant |frames| == i && forall k :: 0 <= k < i ==> frames[k] == k
    {
      h := forward(i, h);
      h := ResetIrrelevant(h, relevant, i, init);
      frames := frames + [i];
      i := i + 1;
    }
    if histSize == 0 {
      return Fail("index -1 is out of bounds for dimension 1 with size 0"), frames;
    }
    frames := frames + [histSize - 1];
    r := Ok(h);
  }

  /** A row that is not relevant at the frame before the last enters the final step from `init`. */
  lemma LastResetHolds<H(!new)>(forward: (nat, seq<H>) -> seq<H>, hiddens: seq<H>, relevant: seq<seq<int>>, n: nat, init: H, b: nat)
    requires KeepsBatch(forward)
    requires |relevant| == |hiddens| && forall b' :: 0 <= b' < |relevant| ==> n <= |relevant[b']|
    requires 0 < n && b < |hiddens| && relevant[b][n - 1] == 0
    ensures Unrolled(forward, hiddens, relevant, n, init)[b] == init
  {
  }

  /** The plain iteration of the forward step, with no reset. */
  function Iterated<H>(forward: (nat, seq<H>) -> seq<H>, hiddens: seq<H>, n: nat): seq<H>
  {
    if n == 0 then hiddens else forward(n - 1, Iterated(forward, hiddens, n - 1))
  }

  /** When every frame is relevant, unrolling never resets: it is the plain iteration. */
  lemma {:induction false} AllRelevantNoReset<H(!new)>(forward: (nat, seq<H>) -> seq<H>, hiddens: seq<H>, relevant: seq<seq<int>>, n: nat, init: H)
    requires KeepsBatch(forward)
    requires |relevant| == |hiddens| && forall b :: 0 <= b < |relevant| ==> n <= |relevant[b]|
    requires forall b, i :: 0 <= b < |relevant| && 0 <= i < n ==> relevant[b][i] != 0
    ensures Unrolled(forward, hiddens, relevant, n, init) == Iterated(forward, hiddens, n)
  {
    if n > 0 {
      AllRelevantNoReset(forward, hiddens, relevant, n - 1, init);
      var stepped := forward(n - 1, Iterated(forward, hiddens, n - 1));
      assert ResetIrrelevant(stepped, relevant, n - 1, init) == stepped;
    }
  }
}
