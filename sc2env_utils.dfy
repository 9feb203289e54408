/**
 * Feature and argument index bookkeeping for the StarCraft II environment: which argument types
 * are spatial, which observation features are categorical, how wide the embedded feature stack
 * is and where each input lands in it, and the mask of valid values per non-spatial argument.
 * The pysc2 feature and argument tables are inputs.
 */
module Sc2EnvUtils {
  import opened Common

  /** Argument types 0, 1 and 2 are screen, minimap and second screen coordinates. */
  const NumSpatialArgTypes: nat := 3
  const ArgDepth: nat := 10
  const MaxArgSize: nat := 500

  /** `is_spatial_arg`. */
  function IsSpatialArg(id: int): (b: bool)
    ensures 0 <= id ==> (b <==> id == 0 || id == 1 || id == 2)
  {
    id < NumSpatialArgTypes
  }

  datatype FeatureType = Categorical | Scalar
  datatype Feature = Feature(name: string, scale: nat, kind: FeatureType)

  /**
   * `categorical_mask`: the positions of the categorical features in increasing order, and the
   * scale of each.
   */
  method CategoricalMask(features: seq<Feature>) returns (indices: seq<nat>, sizes: seq<nat>)
    ensures |indices| == |sizes|
    ensures forall q :: 0 <= q < |indices| ==>
      indices[q] < |features| && features[indices[q]].kind == Categorical && sizes[q] == features[indices[q]].scale
    ensures forall q, q' :: 0 <= q < q' < |indices| ==> indices[q] < indices[q']
    ensures forall i :: 0 <= i < |features| && features[i].kind == Categorical ==> i in indices
  {
    indices, sizes := [], [];
    for i := 0 to |features|
      invariant |indices| == |sizes|
      invariant forall q :: 0 <= q < |indices| ==>
        indices[q] < i && features[indices[q]].kind == Categorical && sizes[q] == features[indices[q]].scale
      invariant forall q, q' :: 0 <= q < q' < |indices| ==> indices[q] < indices[q']
      invariant forall j :: 0 <= j < i && features[j].kind == Categorical ==> j in indices
    {
      if features[i].kind == Categorical {
        indices := indices + [i];
        sizes := sizes + [features[i].scale];
      }
    }
  }

  function SumNat(s: seq<nat>): nat
  {
    if s == [] then 0 else SumNat(s[..|s| - 1]) + s[|s| - 1]
  }

  /** `processed_feature_dim`: each embedding widens its one input channel to its embedding size. */
  function ProcessedFeatureDim(featureSize: nat, embeddingDims: seq<nat>): (d: int)
    ensures (forall k :: 0 <= k < |embeddingDims| ==> embeddingDims[k] >= 1) ==> d >= featureSize
  {
    SumNatAtLeastCount(embeddingDims);
    featureSize + SumNat(embeddingDims) - |embeddingDims|
  }

  lemma {:induction false} SumNatAtLeastCount(s: seq<nat>)
    ensures (forall k :: 0 <= k < |s| ==> s[k] >= 1) ==> SumNat(s) >= |s|
  {
    if s != [] {
      SumNatAtLeastCount(s[..|s| - 1]);
    }
  }

  // ---------------------------------------------------------------------------
  // The channel layout of `embed`

  /** Output channels `lower` up to, not including, `upper` hold one input feature. */
  datatype Span = Span(lower: nat, upper: nat)

  /** An embedded input takes `embeddingSize` channels, a scalar input one. */
  function Width(i: nat, embeddingIndices: seq<int>, embeddingSize: nat): nat
  {
    if i in embeddingIndices then embeddingSize else 1
  }

  /** Where input `i` starts: the widths of the inputs before it, added up. */
  function Offset(i: nat, embeddingIndices: seq<int>, embeddingSize: nat): nat
  {
    if i == 0 then 0 else Offset(i - 1, embeddingIndices, embeddingSize) + Width(i - 1, embeddingIndices, embeddingSize)
  }

  /** How many of the inputs before `i` are embedded. */
  function EmbeddedBefore(i: nat, embeddingIndices: seq<int>): (n: nat)
    ensures n <= i
  {
    if i == 0 then 0 else EmbeddedBefore(i - 1, embeddingIndices) + (if i - 1 in embeddingIndices then 1 else 0)
  }

  /**
   * The offsets of `embed`: each input starts where the one before it ends. Reading the embedding
   * size from an empty embedding list fails, and so does an embedded input past the last embedding.
   */
  method EmbedLayout(featureDim: nat, embeddingDims: seq<nat>, embeddingIndices: seq<int>) returns (r: Result<seq<Span>>)
    ensures r.Fail? <==> embeddingDims == [] || EmbeddedBefore(featureDim, embeddingIndices) > |embeddingDims|
    ensures r.Ok? ==> |r.value| == featureDim && forall i :: 0 <= i < featureDim ==>
      r.value[i] == Span(Offset(i, embeddingIndices, embeddingDims[0]), Offset(i + 1, embeddingIndices, embeddingDims[0]))
  {
    if embeddingDims == [] {
      return Fail("list index out of range");
    }
    var embeddingSize := embeddingDims[0];
    var spans: seq<Span> := [];
    var lower, upper := 0, 0;
    var embedCount := 0;
    for i := 0 to featureDim
      invariant lower == upper == Offset(i, embeddingIndices, embeddingSize)
      invariant embedCount == EmbeddedBefore(i, embeddingIndices) <= |embeddingDims|
      invariant |spans| == i
      invariant forall k :: 0 <= k < i ==>
        spans[k] == Span(Offset(k, embeddingIndices, embeddingSize), Offset(k + 1, embeddingIndices, embeddingSize))
    {
      if i in embeddingIndices {
        upper := upper + embeddingSize;
        if embedCount >= |embeddingDims| {
          EmbeddedOnlyGrows(i + 1, featureDim, embeddingIndices);
          return Fail("index out of range in the embedding list");
        }
        embedCount := embedCount + 1;
      } else {
        upper := upper + 1;
      }
      spans := spans + [Span(lower, upper)];
      lower := upper;
    }
    r := Ok(spans);
  }

  lemma {:induction false} EmbeddedOnlyGrows(i: nat, j: nat, embeddingIndices: seq<int>)
    requires i <= j
    ensures EmbeddedBefore(i, embeddingIndices) <= EmbeddedBefore(j, embeddingIndices)
    decreases j
  {
    if i < j {
      EmbeddedOnlyGrows(i, j - 1, embeddingIndices);
    }
  }

  /** Every embedded input adds `embeddingSize - 1` channels to the input count. */
  lemma {:induction false} OffsetClosedForm(i: nat, embeddingIndices: seq<int>, embeddingSize: nat)
    ensures Offset(i, embeddingIndices, embeddingSize) == i + EmbeddedBefore(i, embeddingIndices) * (embeddingSize - 1)
  {
    if i > 0 {
      OffsetClosedForm(i - 1, embeddingIndices, embeddingSize);
    }
  }

  lemma {:induction false} SumOfEqual(dims: seq<nat>, e: nat)
    requires forall k :: 0 <= k < |dims| ==> dims[k] == e
    ensures SumNat(dims) == |dims| * e
  {
    if dims != [] {
      SumOfEqual(dims[..|dims| - 1], e);
    }
  }

  /**
   * When every embedding has the same size and each embedding serves exactly one input, the
   * layout of `embed` ends at the width it allocates, `processed_feature_dim`.
   */
  lemma EmbedWidth(featureDim: nat, embeddingDims: seq<nat>, embeddingIndices: seq<int>)
    requires embeddingDims != [] && forall k :: 0 <= k < |embeddingDims| ==> embeddingDims[k] == embeddingDims[0]
    requires EmbeddedBefore(featureDim, embeddingIndices) == |embeddingDims|
    ensures Offset(featureDim, embeddingIndices, embeddingDims[0]) == ProcessedFeatureDim(featureDim, embeddingDims)
  {
    OffsetClosedForm(featureDim, embeddingIndices, embeddingDims[0]);
    SumOfEqual(embeddingDims, embeddingDims[0]);
  }

  // ---------------------------------------------------------------------------
  // Valid argument values

  /**
   * `valid_args`: row `i` marks the values the non-spatial argument type `i + 3` can take, its
   * first `sizes[i]` positions (cut at the row width).
   */
  method ValidArgs(sizes: seq<nat>) returns (valid: array2<int>)
    requires |sizes| == ArgDepth
    ensures valid.Length0 == ArgDepth && valid.Length1 == MaxArgSize
    ensures forall i, j :: 0 <= i < ArgDepth && 0 <= j < MaxArgSize ==> valid[i, j] == if j < sizes[i] then 1 else 0
  {
    valid := new int[ArgDepth, MaxArgSize]((i, j) => 0);
    for i := 0 to ArgDepth
      invariant forall i', j :: 0 <= i' < ArgDepth && 0 <= j < MaxArgSize ==>
        valid[i', j] == if i' < i && j < sizes[i'] then 1 else 0
    {
      var size := Min(sizes[i], MaxArgSize);
      for j := 0 to size
        invariant forall i', j' :: 0 <= i' < ArgDepth && 0 <= j' < MaxArgSize ==>
          valid[i', j'] == if (i' < i && j' < sizes[i']) || (i' == i && j' < j) then 1 else 0
      {
        valid[i, j] := 1;
      }
    }
  }
}
