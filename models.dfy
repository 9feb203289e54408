/**
 * The sampling helpers of the graph-convolution model: an action index drawn by bisecting the
 * prefix sums of a distribution, a screen cell drawn from the row-major prefix sums of a 2-D
 * distribution, and one action per agent. Every random draw is an input in [0, 1).
 */
module Models {
  import opened Common

  // ---------------------------------------------------------------------------
  // Sums

  lemma {:induction false} SumAppend(a: seq<real>, b: seq<real>)
    ensures Sum(a + b) == Sum(a) + Sum(b)
    decreases |b|
  {
    if b == [] {
      assert a + b == a;
    } else {
      assert (a + b)[..|a + b| - 1] == a + b[..|b| - 1];
      SumAppend(a, b[..|b| - 1]);
    }
  }

  predicate NonNegative(s: seq<real>)
  {
    forall k :: 0 <= k < |s| ==> s[k] >= 0.0
  }

  /** With no negative entry, a longer prefix never sums to less. */
  lemma {:induction false} PrefixSumGrows(s: seq<real>, i: nat, j: nat)
    requires NonNegative(s) && i <= j <= |s|
    ensures Sum(s[..i]) <= Sum(s[..j])
    decreases j
  {
    if i < j {
      PrefixSumGrows(s, i, j - 1);
      assert s[..j][..j - 1] == s[..j - 1];
    }
  }

  /** `np.cumsum`: entry `k` is the sum of the first `k + 1` entries. */
  function CumSum(p: seq<real>): (c: seq<real>)
    ensures |c| == |p|
    ensures forall k :: 0 <= k < |c| ==> c[k] == Sum(p[..k + 1])
  {
    if p == [] then []
    else
      var front := p[..|p| - 1];
      assert forall j :: 0 <= j <= |front| ==> front[..j] == p[..j];
      assert p[..|p|] == p;
      CumSum(front) + [Sum(p)]
  }

  ghost predicate Sorted(a: seq<real>)
  {
    forall i, j :: 0 <= i <= j < |a| ==> a[i] <= a[j]
  }

  /** The prefix sums of a distribution with no negative entry never decrease. */
  lemma {:induction false} CumSumSorted(p: seq<real>)
    requires NonNegative(p)
    ensures Sorted(CumSum(p))
  {
    forall i, j | 0 <= i <= j < |p|
      ensures CumSum(p)[i] <= CumSum(p)[j]
    {
      PrefixSumGrows(p, i + 1, j + 1);
    }
  }

  // ---------------------------------------------------------------------------
  // Bisection

  /** The binary search of `bisect.bisect_right` over `a[lo..hi]`. */
  function BisectFrom(a: seq<real>, x: real, lo: nat, hi: nat): (i: nat)
    requires lo <= hi <= |a|
    ensures lo <= i <= hi
    decreases hi - lo
  {
    if lo < hi then
      var mid := (lo + hi) / 2;
      if x < a[mid] then BisectFrom(a, x, lo, mid) else BisectFrom(a, x, mid + 1, hi)
    else lo
  }

  /** `bisect.bisect`, also on a list that is not sorted. */
  function Bisect(a: seq<real>, x: real): (i: nat)
    ensures i <= |a|
  {
    BisectFrom(a, x, 0, |a|)
  }

  /** On a sorted list, bisection splits it into the entries at most `x` and those above `x`. */
  lemma {:induction false} BisectSplits(a: seq<real>, x: real, lo: nat, hi: nat)
    requires lo <= hi <= |a| && Sorted(a)
    requires forall k :: 0 <= k < lo ==> a[k] <= x
    requires forall k :: hi <= k < |a| ==> x < a[k]
    ensures forall k :: 0 <= k < BisectFrom(a, x, lo, hi) ==> a[k] <= x
    ensures forall k :: BisectFrom(a, x, lo, hi) <= k < |a| ==> x < a[k]
    decreases hi - lo
  {
    if lo < hi {
      var mid := (lo + hi) / 2;
      if x < a[mid] {
        BisectSplits(a, x, lo, mid);
      } else {
        BisectSplits(a, x, mid + 1, hi);
      }
    }
  }

  /** A larger `x` never gives a smaller position, whether or not the list is sorted. */
  lemma {:induction false} BisectMonotone(a: seq<real>, x: real, y: real, lo: nat, hi: nat)
    requires lo <= hi <= |a| && x <= y
    ensures BisectFrom(a, x, lo, hi) <= BisectFrom(a, y, lo, hi)
    decreases hi - lo
  {
    if lo < hi {
      var mid := (lo + hi) / 2;
      if y < a[mid] {
        BisectMonotone(a, x, y, lo, mid);
      } else if x >= a[mid] {
        BisectMonotone(a, x, y, mid + 1, hi);
      }
    }
  }

  // ---------------------------------------------------------------------------
  // Drawing an action from a distribution

  /** The 1-D branch of `choose_action`: `bisect(cumsum(probs), choice)`. */
  function ChooseAction(probs: seq<real>, choice: real): (i: nat)
    ensures i <= |probs|
  {
    Bisect(CumSum(probs), choice)
  }

  /**
   * The drawn action is the one whose slice of the cumulative distribution holds the draw: the
   * mass before it is at most the draw and the mass up to and including it exceeds the draw. A
   * draw below the total mass always lands on an action.
   */
  lemma {:induction false} ChooseActionIsInverseCdf(probs: seq<real>, choice: real)
    requires NonNegative(probs) && 0.0 <= choice
    ensures ChooseAction(probs, choice) > 0 ==> Sum(probs[..ChooseAction(probs, choice)]) <= choice
    ensures ChooseAction(probs, choice) < |probs| ==> choice < Sum(probs[..ChooseAction(probs, choice) + 1])
    ensures ChooseAction(probs, choice) < |probs| <==> choice < Sum(probs)
  {
    var c := CumSum(probs);
    CumSumSorted(probs);
    BisectSplits(c, choice, 0, |c|);
    var i := ChooseAction(probs, choice);
    if i > 0 {
      assert c[i - 1] == Sum(probs[..i]);
    }
    if probs != [] {
      assert probs[..|probs|] == probs;
      assert c[|probs| - 1] == Sum(probs);
      if i < |probs| {
        assert c[i] <= c[|probs| - 1];
      }
    }
  }

  /** On a sorted list, the position of the first entry above `x` is where bisection lands. */
  lemma {:induction false} BisectFinds(a: seq<real>, x: real, j: nat)
    requires Sorted(a) && j < |a| && x < a[j] && (j > 0 ==> a[j - 1] <= x)
    ensures Bisect(a, x) == j
  {
    BisectSplits(a, x, 0, |a|);
  }

  /** A larger draw never gives a smaller action. */
  lemma {:induction false} ChooseActionMonotone(probs: seq<real>, x: real, y: real)
    requires x <= y
    ensures ChooseAction(probs, x) <= ChooseAction(probs, y)
  {
    BisectMonotone(CumSum(probs), x, y, 0, |probs|);
  }

  // ---------------------------------------------------------------------------
  // Row-major prefix sums of a 2-D distribution

  /** Every row has `w` entries. */
  predicate Rectangular(p: seq<seq<real>>, w: nat)
  {
    forall r :: 0 <= r < |p| ==> |p[r]| == w
  }

  function SumRows(p: seq<seq<real>>): real
  {
    if p == [] then 0.0 else SumRows(p[..|p| - 1]) + Sum(p[|p| - 1])
  }

  function Flatten(p: seq<seq<real>>): seq<real>
  {
    if p == [] then [] else Flatten(p[..|p| - 1]) + p[|p| - 1]
  }

  /** Entry `(r, c)` of `cumsum2D`: all rows before `r`, then row `r` up to column `c`. */
  function Prefix2D(p: seq<seq<real>>, r: nat, c: nat): real
    requires r < |p| && c < |p[r]|
  {
    SumRows(p[..r]) + Sum(p[r][..c + 1])
  }

  /** What `cumsum2D` returns. */
  function CumSums2D(p: seq<seq<real>>): (s: seq<seq<real>>)
    ensures |s| == |p| && forall r :: 0 <= r < |p| ==> |s[r]| == |p[r]|
    ensures forall r, c :: 0 <= r < |p| && 0 <= c < |p[r]| ==> s[r][c] == Prefix2D(p, r, c)
  {
    seq(|p|, r requires 0 <= r < |p| => seq(|p[r]|, c requires 0 <= c < |p[r]| => Prefix2D(p, r, c)))
  }

  lemma {:induction false} FlattenLength(p: seq<seq<real>>, w: nat)
    requires Rectangular(p, w)
    ensures |Flatten(p)| == |p| * w
  {
    if p != [] {
      var front := p[..|p| - 1];
      FlattenLength(front, w);
      assert |Flatten(p)| == |front| * w + w;
      assert |front| * w + w == |p| * w;
    }
  }

  lemma {:induction false} FlattenSum(p: seq<seq<real>>)
    ensures Sum(Flatten(p)) == SumRows(p)
  {
    if p != [] {
      FlattenSum(p[..|p| - 1]);
      SumAppend(Flatten(p[..|p| - 1]), p[|p| - 1]);
    }
  }

  lemma {:induction false} FlattenPrefix(p: seq<seq<real>>, r: nat)
    requires r <= |p|
    ensures Flatten(p[..r]) <= Flatten(p)
    decreases |p|
  {
    if r < |p| {
      var front := p[..|p| - 1];
      assert p[..r] == front[..r];
      FlattenPrefix(front, r);
    } else {
      assert p[..r] == p;
    }
  }

  /** The rows before `r`, then row `r` up to column `c`, start the flattened distribution. */
  lemma {:induction false} CellPrefix(p: seq<seq<real>>, r: nat, c: nat)
    requires r < |p| && c < |p[r]|
    ensures |Flatten(p[..r])| + c + 1 <= |Flatten(p)|
    ensures Flatten(p)[..|Flatten(p[..r])| + c + 1] == Flatten(p[..r]) + p[r][..c + 1]
  {
    FlattenPrefix(p, r + 1);
    assert p[..r + 1][..r] == p[..r];
    assert Flatten(p[..r + 1]) == Flatten(p[..r]) + p[r];
  }

  /** `cumsum2D` is the prefix sum of the distribution read row by row. */
  lemma {:induction false} RowMajorPrefix(p: seq<seq<real>>, w: nat, r: nat, c: nat)
    requires Rectangular(p, w) && r < |p| && c < w
    ensures r * w + c + 1 <= |Flatten(p)|
    ensures Prefix2D(p, r, c) == Sum(Flatten(p)[..r * w + c + 1])
  {
    FlattenLength(p[..r], w);
    CellPrefix(p, r, c);
    SumAppend(Flatten(p[..r]), p[r][..c + 1]);
    FlattenSum(p[..r]);
  }

  /** The distribution as a nested sequence, row by row. */
  function Contents(a: array2<real>): (p: seq<seq<real>>)
    reads a
    ensures |p| == a.Length0 && Rectangular(p, a.Length1)
    ensures forall r, c :: 0 <= r < a.Length0 && 0 <= c < a.Length1 ==> p[r][c] == a[r, c]
  {
    seq(a.Length0, r requires 0 <= r < a.Length0 reads a =>
      seq(a.Length1, c requires 0 <= c < a.Length1 reads a => a[r, c]))
  }

  /** `torch.cumsum(torch.sum(probs, 1), 0)`: the running totals of the row sums. */
  method RowTotals(probs: array2<real>) returns (rowsums: seq<real>)
    ensures |rowsums| == probs.Length0
    ensures forall r :: 0 <= r < probs.Length0 ==> rowsums[r] == SumRows(Contents(probs)[..r + 1])
  {
    ghost var p := Contents(probs);
    rowsums := [];
    var total := 0.0;
    for r := 0 to probs.Length0
      invariant |rowsums| == r && total == SumRows(p[..r])
      invariant forall r' :: 0 <= r' < r ==> rowsums[r'] == SumRows(p[..r' + 1])
    {
      var rowTotal := 0.0;
      for c := 0 to probs.Length1
        invariant rowTotal == Sum(p[r][..c])
      {
        assert p[r][..c + 1][..c] == p[r][..c];
        rowTotal := rowTotal + probs[r, c];
      }
      assert p[r][..probs.Length1] == p[r];
      assert p[..r + 1][..r] == p[..r];
      total := total + rowTotal;
      rowsums := rowsums + [total];
    }
  }

  /** `torch.cumsum(probs, 1)`: the running sums within each row. */
  method RowCumSums(probs: array2<real>) returns (cumsums: array2<real>)
    ensures fresh(cumsums) && cumsums.Length0 == probs.Length0 && cumsums.Length1 == probs.Length1
    ensures forall r, c :: 0 <= r < probs.Length0 && 0 <= c < probs.Length1 ==> cumsums[r, c] == Sum(Contents(probs)[r][..c + 1])
  {
    ghost var p := Contents(probs);
    cumsums := new real[probs.Length0, probs.Length1]((r, c) => 0.0);
    for r := 0 to probs.Length0
      invariant forall r', c :: 0 <= r' < r && 0 <= c < probs.Length1 ==> cumsums[r', c] == Sum(p[r'][..c + 1])
    {
      var acc := 0.0;
      for c := 0 to probs.Length1
        invariant acc == Sum(p[r][..c])
        invariant forall r', c' :: 0 <= r' < r && 0 <= c' < probs.Length1 ==> cumsums[r', c'] == Sum(p[r'][..c' + 1])
        invariant forall c' :: 0 <= c' < c ==> cumsums[r, c'] == Sum(p[r][..c' + 1])
      {
        assert p[r][..c + 1][..c] == p[r][..c];
        acc := acc + probs[r, c];
        cumsums[r, c] := acc;
      }
    }
  }

  /** `cumsums[1:, :] += rowsums`: each row after the first is shifted by the total of the rows before it. */
  method AddRowTotals(cumsums: array2<real>, rowsums: seq<real>)
    requires |rowsums| == cumsums.Length0 > 0
    modifies cumsums
    ensures forall r, c :: 0 <= r < cumsums.Length0 && 0 <= c < cumsums.Length1 ==>
      cumsums[r, c] == old(cumsums[r, c]) + (if r == 0 then 0.0 else rowsums[r - 1])
  {
    for r := 1 to cumsums.Length0
      invariant forall r', c :: 0 <= r' < cumsums.Length0 && 0 <= c < cumsums.Length1 ==>
        cumsums[r', c] == old(cumsums[r', c]) + (if r' == 0 || r' >= r then 0.0 else rowsums[r' - 1])
    {
      for c := 0 to cumsums.Length1
        invariant forall r', c' :: 0 <= r' < cumsums.Length0 && 0 <= c' < cumsums.Length1 ==>
          cumsums[r', c'] == old(cumsums[r', c']) + (if r' == 0 || r' > r || (r' == r && c' >= c) then 0.0 else rowsums[r' - 1])
      {
        cumsums[r, c] := cumsums[r, c] + rowsums[r - 1];
      }
    }
  }

  /**
   * `cumsum2D`: the row-major prefix sums. The row totals are reshaped to `spatialWidth` rows, so a
   * distribution of any other height raises, and the write of 1.0 into the last cell of the
   * distribution it was given raises on an empty one; that write leaves the returned sums as they are.
   */
  method CumSum2D(probs: array2<real>, spatialWidth: nat) returns (r: Result<array2<real>>)
    modifies probs
    ensures r.Ok? <==> probs.Length0 == spatialWidth && probs.Length0 > 0 && probs.Length1 > 0
    ensures r.Ok? ==> fresh(r.value) && r.value.Length0 == probs.Length0 && r.value.Length1 == probs.Length1
    ensures r.Ok? ==> Contents(r.value) == CumSums2D(old(Contents(probs)))
    ensures forall row, c :: 0 <= row < probs.Length0 && 0 <= c < probs.Length1 ==>
      probs[row, c] == if r.Ok? && row == probs.Length0 - 1 && c == probs.Length1 - 1 then 1.0 else old(probs[row, c])
  {
    if probs.Length0 != spatialWidth {
      return Fail("shape is invalid for the input size");
    }
    if probs.Length0 == 0 || probs.Length1 == 0 {
      return Fail("index -1 is out of bounds");
    }
    ghost var p := Contents(probs);
    var rowsums := RowTotals(probs);
    var cumsums := RowCumSums(probs);
    AddRowTotals(cumsums, rowsums);
    forall row, c | 0 <= row < probs.Length0 && 0 <= c < probs.Length1
      ensures cumsums[row, c] == Prefix2D(p, row, c)
    {
      if row > 0 {
        assert p[..row - 1 + 1] == p[..row];
      }
    }
    assert forall row :: 0 <= row < probs.Length0 ==> Contents(cumsums)[row] == CumSums2D(p)[row];
    probs[probs.Length0 - 1, probs.Length1 - 1] := 1.0;
    r := Ok(cumsums);
  }

  // ---------------------------------------------------------------------------
  // Drawing a screen cell

  /** The last entry of `row` at most `x`. */
  function LastInRow(row: seq<real>, x: real): (o: Option<nat>)
    ensures o.Some? ==> o.value < |row| && row[o.value] <= x && forall k :: o.value < k < |row| ==> row[k] > x
    ensures o.None? ==> forall k :: 0 <= k < |row| ==> row[k] > x
  {
    if row == [] then None
    else if row[|row| - 1] <= x then Some(|row| - 1)
    else LastInRow(row[..|row| - 1], x)
  }

  /** Cell `(r, c)` comes after cell `(r', c')` in row-major order. */
  predicate Later(r: nat, c: nat, r': nat, c': nat)
  {
    r > r' || (r == r' && c > c')
  }

  /** `probmap.nonzero()[-1]` of `probs <= choice`: the last cell, row by row, at most `x`. */
  function LastAtMost(s: seq<seq<real>>, x: real): (o: Option<(nat, nat)>)
    ensures o.Some? ==> o.value.0 < |s| && o.value.1 < |s[o.value.0]| && s[o.value.0][o.value.1] <= x
    ensures o.Some? ==> forall r, c :: 0 <= r < |s| && 0 <= c < |s[r]| && Later(r, c, o.value.0, o.value.1) ==> s[r][c] > x
    ensures o.None? ==> forall r, c :: 0 <= r < |s| && 0 <= c < |s[r]| ==> s[r][c] > x
  {
    if s == [] then None
    else
      var last := |s| - 1;
      match LastInRow(s[last], x)
      case Some(c) => Some((last, c))
      case None =>
        var o := LastAtMost(s[..last], x);
        assert forall r :: 0 <= r < last ==> s[..last][r] == s[r];
        o
  }

  /** The first entry of `row` above `x`. */
  function FirstInRow(row: seq<real>, x: real): (o: Option<nat>)
    ensures o.Some? ==> o.value < |row| && row[o.value] > x && forall k :: 0 <= k < o.value ==> row[k] <= x
    ensures o.None? ==> forall k :: 0 <= k < |row| ==> row[k] <= x
  {
    if row == [] then None
    else if row[0] > x then Some(0)
    else match FirstInRow(row[1..], x)
      case Some(k) => Some(k + 1)
      case None => None
  }

  /** The first cell, row by row, above `x`. */
  function FirstAbove(s: seq<seq<real>>, x: real): (o: Option<(nat, nat)>)
    ensures o.Some? ==> o.value.0 < |s| && o.value.1 < |s[o.value.0]| && s[o.value.0][o.value.1] > x
    ensures o.Some? ==> forall r, c :: 0 <= r < |s| && 0 <= c < |s[r]| && Later(o.value.0, o.value.1, r, c) ==> s[r][c] <= x
    ensures o.None? ==> forall r, c :: 0 <= r < |s| && 0 <= c < |s[r]| ==> s[r][c] <= x
  {
    if s == [] then None
    else match FirstInRow(s[0], x)
      case Some(c) => Some((0, c))
      case None =>
        match FirstAbove(s[1..], x)
        case Some(rc) => Some((rc.0 + 1, rc.1))
        case None => None
  }

  /** The 2-D branch of `choose_action` as written: the last cell whose prefix sum is at most the draw, else `(0, 0)`. */
  function ChooseCellAsWritten(p: seq<seq<real>>, choice: real): (cell: (nat, nat))
    ensures cell == (0, 0) || (cell.0 < |p| && cell.1 < |p[cell.0]| && Prefix2D(p, cell.0, cell.1) <= choice)
    ensures forall r, c :: 0 <= r < |p| && 0 <= c < |p[r]| && Later(r, c, cell.0, cell.1) ==> choice < Prefix2D(p, r, c)
  {
    match LastAtMost(CumSums2D(p), choice)
    case Some(rc) => rc
    case None => (0, 0)
  }

  /**
   * The 2-D branch of `choose_action` on the distribution in place (as written); the errors of
   * `cumsum2D` pass through, since only the search for the last cell is guarded.
   */
  method ChooseAction2D(probs: array2<real>, spatialWidth: nat, choice: real) returns (r: Result<(nat, nat)>)
    modifies probs
    ensures r.Ok? <==> probs.Length0 == spatialWidth && probs.Length0 > 0 && probs.Length1 > 0
    ensures r.Ok? ==> r.value == ChooseCellAsWritten(old(Contents(probs)), choice)
    ensures forall row, c :: 0 <= row < probs.Length0 && 0 <= c < probs.Length1 ==>
      probs[row, c] == if r.Ok? && row == probs.Length0 - 1 && c == probs.Length1 - 1 then 1.0 else old(probs[row, c])
  {
    var cumsums := CumSum2D(probs, spatialWidth);
    if cumsums.Fail? {
      return Fail(cumsums.reason);
    }
    match LastAtMost(Contents(cumsums.value), choice)
    case Some(rc) => r := Ok(rc);
    case None => r := Ok((0, 0));
  }

  /**
   * As written, on the square grid with mass 0.5 on each diagonal cell, the second diagonal cell
   * is never drawn, and every draw from 0.5 on lands on the cell of probability 0 beside it, where
   * the corrected draw gives the diagonal cell.
   */
  lemma {:induction false} LastCellNeverChosen(choice: real)
    requires 0.0 <= choice < 1.0
    ensures ChooseCellAsWritten([[0.5, 0.0], [0.0, 0.5]], choice) != (1, 1)
    ensures choice >= 0.5 ==> ChooseCellAsWritten([[0.5, 0.0], [0.0, 0.5]], choice) == (1, 0)
    ensures choice >= 0.5 ==> ChooseCell([[0.5, 0.0], [0.0, 0.5]], choice) == (1, 1)
  {
    var p := [[0.5, 0.0], [0.0, 0.5]];
    assert p[..0] == [] && p[..1] == [[0.5, 0.0]] && p[..2] == p;
    assert [[0.5, 0.0]][..0] == [];
    assert p[0][..1] == [0.5] && p[0][..2] == [0.5, 0.0];
    assert p[1][..1] == [0.0] && p[1][..2] == [0.0, 0.5];
    assert [0.5, 0.0][..1] == [0.5] && [0.0, 0.5][..1] == [0.0];
    assert [0.5][..0] == [] && [0.0][..0] == [];
    assert SumRows([[0.5, 0.0]]) == 0.5;
    var s := CumSums2D(p);
    assert s[0][0] == 0.5 && s[0][1] == 0.5 && s[1][0] == 0.5 && s[1][1] == 1.0;
    assert s[1][1] > choice;
    if choice >= 0.5 {
      assert LastInRow(s[1], choice) == Some(0) by {
        assert s[1][..|s[1]| - 1] == [s[1][0]];
        assert [s[1][0]][..0] == [];
      }
      assert FirstInRow(s[0], choice) == None by {
        assert s[0][1..] == [s[0][1]] && [s[0][1]][1..] == [];
      }
      assert s[1..] == [s[1]] && [s[1]][1..] == [];
      assert FirstInRow(s[1], choice) == Some(1) by {
        assert s[1][1..] == [s[1][1]];
      }
    } else {
      assert LastInRow(s[1], choice) == None by {
        assert s[1][..|s[1]| - 1] == [s[1][0]];
        assert [s[1][0]][..0] == [];
      }
      assert s[..1] == [s[0]];
      assert LastInRow(s[0], choice) == None by {
        assert s[0][..|s[0]| - 1] == [s[0][0]];
        assert [s[0][0]][..0] == [];
      }
      assert [s[0]][..0] == [];
    }
  }

  /** Row-major order is the order of flat positions. */
  lemma LaterIsFurther(w: nat, r: nat, c: nat, r': nat, c': nat)
    requires c < w && c' < w && Later(r, c, r', c')
    ensures r * w + c > r' * w + c'
  {
    if r > r' {
      var d: nat := r - r' - 1;
      assert r * w == r' * w + w + d * w;
    }
  }

  /** Cell `(r, c)` of a grid `w` wide holds the flat prefix sum at position `r * w + c`. */
  lemma {:induction false} FlatPosition(p: seq<seq<real>>, w: nat, r: nat, c: nat)
    requires Rectangular(p, w) && r < |p| && c < w
    ensures r * w + c < |CumSum(Flatten(p))| && CumSum(Flatten(p))[r * w + c] == CumSums2D(p)[r][c]
  {
    var j := FlatCell(p, r, c);
    FlattenLength(p[..r], w);
  }

  /** When no prefix sum is at most the draw, the inverse CDF picks the first action. */
  lemma {:induction false} NothingAtMostIsFirst(p: seq<seq<real>>, w: nat, choice: real)
    requires |p| > 0 && w > 0 && Rectangular(p, w) && NonNegative(Flatten(p)) && choice < SumRows(p)
    requires LastAtMost(CumSums2D(p), choice).None?
    ensures ChooseAction(Flatten(p), choice) == 0
  {
    var j := FirstAboveIsFlatBoundary(p, w, choice);
    ChooseCellAgreesWithFlat(p, w, choice);
    var b := ChooseCell(p, choice);
    FlattenLength(p[..b.0], w);
    if j > 0 {
      var r', c' := PreviousCell(p, w, b.0, b.1);
      assert false;
    }
  }

  /** In a sorted list, an entry at most `x` comes before an entry above `x`. */
  lemma SortedOrder(a: seq<real>, x: real, i: nat, j: nat)
    requires Sorted(a) && i < |a| && j < |a| && a[i] <= x < a[j]
    ensures i < j
  {
  }

  /** Row-major order is the order of flat positions, counted as the cells of the earlier rows plus the column. */
  lemma {:induction false} LaterIsFurtherFlat(p: seq<seq<real>>, w: nat, r: nat, c: nat, r': nat, c': nat)
    requires Rectangular(p, w) && r < |p| && r' < |p| && c < w && c' < w && Later(r, c, r', c')
    ensures |Flatten(p[..r])| + c > |Flatten(p[..r'])| + c'
  {
    FlattenLength(p[..r], w);
    FlattenLength(p[..r'], w);
    LaterIsFurther(w, r, c, r', c');
  }

  /** A cell at most the draw that lies no earlier than the last such cell is that cell. */
  lemma {:induction false} NoLaterCellAtMost(p: seq<seq<real>>, w: nat, choice: real, rc: (nat, nat), r: nat, c: nat)
    requires Rectangular(p, w) && r < |p| && c < w && CumSums2D(p)[r][c] <= choice
    requires LastAtMost(CumSums2D(p), choice) == Some(rc)
    requires |Flatten(p[..rc.0])| + rc.1 <= |Flatten(p[..r])| + c
    ensures rc == (r, c)
  {
    if Later(rc.0, rc.1, r, c) {
      LaterIsFurtherFlat(p, w, rc.0, rc.1, r, c);
    }
  }

  /** The last cell at most the draw sits just before the flat position the inverse CDF picks. */
  lemma {:induction false} LastAtMostIsPredecessorFlat(p: seq<seq<real>>, w: nat, choice: real, rc: (nat, nat))
    requires |p| > 0 && w > 0 && Rectangular(p, w) && NonNegative(Flatten(p)) && choice < SumRows(p)
    requires LastAtMost(CumSums2D(p), choice) == Some(rc)
    ensures |Flatten(p[..rc.0])| + rc.1 + 1 == ChooseAction(Flatten(p), choice)
  {
    var cs := CumSum(Flatten(p));
    CumSumSorted(Flatten(p));
    var j := FirstAboveIsFlatBoundary(p, w, choice);
    BisectFinds(cs, choice, j);
    var b := ChooseCell(p, choice);
    var fa := FlatCell(p, rc.0, rc.1);
    SortedOrder(cs, choice, fa, j);
    var r', c' := PreviousCell(p, w, b.0, b.1);
    var j' := FlatCell(p, r', c');
    NoLaterCellAtMost(p, w, choice, rc, r', c');
  }

  /** The same in row and column terms. */
  lemma {:induction false} LastAtMostIsPredecessor(p: seq<seq<real>>, w: nat, choice: real, rc: (nat, nat))
    requires |p| > 0 && w > 0 && Rectangular(p, w) && NonNegative(Flatten(p)) && choice < SumRows(p)
    requires LastAtMost(CumSums2D(p), choice) == Some(rc)
    ensures rc.0 * w + rc.1 + 1 == ChooseAction(Flatten(p), choice)
  {
    LastAtMostIsPredecessorFlat(p, w, choice, rc);
    FlattenLength(p[..rc.0], w);
  }

  /** A draw at or above the total mass gives the last cell, as written and corrected. */
  lemma {:induction false} DrawAtTotalIsLastCell(p: seq<seq<real>>, w: nat, choice: real)
    requires |p| > 0 && w > 0 && Rectangular(p, w) && NonNegative(Flatten(p)) && SumRows(p) <= choice
    ensures ChooseCellAsWritten(p, choice) == ChooseCell(p, choice) == (|p| - 1, w - 1)
  {
    var s := CumSums2D(p);
    var last := |p| - 1;
    NothingAboveTotal(p, w, choice);
    assert s[last][w - 1] <= choice;
    assert LastInRow(s[last], choice) == Some(w - 1);
  }

  /** No prefix sum exceeds a draw at or above the total mass, which the last prefix sum is. */
  lemma {:induction false} NothingAboveTotal(p: seq<seq<real>>, w: nat, choice: real)
    requires |p| > 0 && w > 0 && Rectangular(p, w) && NonNegative(Flatten(p)) && SumRows(p) <= choice
    ensures FirstAbove(CumSums2D(p), choice).None? && CumSums2D(p)[|p| - 1][w - 1] <= choice
  {
    LastCellIsTotal(p, w);
    if FirstAbove(CumSums2D(p), choice).Some? {
      var rc := FirstAbove(CumSums2D(p), choice).value;
      AtMostLastCell(p, w, rc.0, rc.1);
      assert false;
    }
  }

  /** With no negative entry, no prefix sum exceeds the last one. */
  lemma {:induction false} AtMostLastCell(p: seq<seq<real>>, w: nat, r: nat, c: nat)
    requires |p| > 0 && w > 0 && Rectangular(p, w) && NonNegative(Flatten(p)) && r < |p| && c < w
    ensures CumSums2D(p)[r][c] <= CumSums2D(p)[|p| - 1][w - 1]
  {
    var last := |p| - 1;
    FlatPosition(p, w, r, c);
    FlatPosition(p, w, last, w - 1);
    CumSumSorted(Flatten(p));
    if Later(last, w - 1, r, c) {
      LaterIsFurther(w, last, w - 1, r, c);
    }
  }

  /**
   * How far off the 2-D draw as written is: on any distribution with no negative entry, for a draw
   * below the total mass it returns the cell just before the one the inverse CDF of the flattened
   * distribution picks, or the first cell when that one is the first; for a draw at or above the
   * total mass both give the last cell.
   */
  lemma {:induction false} AsWrittenIsPredecessor(p: seq<seq<real>>, w: nat, choice: real)
    requires |p| > 0 && w > 0 && Rectangular(p, w) && NonNegative(Flatten(p))
    ensures var a := ChooseCellAsWritten(p, choice);
      choice < SumRows(p) ==> a.0 < |p| && a.1 < w && a.0 * w + a.1 == Max(0, ChooseAction(Flatten(p), choice) - 1)
    ensures SumRows(p) <= choice ==> ChooseCellAsWritten(p, choice) == ChooseCell(p, choice) == (|p| - 1, w - 1)
  {
    if choice < SumRows(p) {
      BelowTotalIsPredecessor(p, w, choice);
    } else {
      DrawAtTotalIsLastCell(p, w, choice);
    }
  }

  /** For a draw below the total mass, the 2-D draw as written lags the inverse CDF by one flat position, stopping at the first. */
  lemma {:induction false} BelowTotalIsPredecessor(p: seq<seq<real>>, w: nat, choice: real)
    requires |p| > 0 && w > 0 && Rectangular(p, w) && NonNegative(Flatten(p)) && choice < SumRows(p)
    ensures var a := ChooseCellAsWritten(p, choice);
      a.0 < |p| && a.1 < w && a.0 * w + a.1 == Max(0, ChooseAction(Flatten(p), choice) - 1)
  {
    var o := LastAtMost(CumSums2D(p), choice);
    if o.None? {
      NothingAtMostIsFirst(p, w, choice);
      assert ChooseCellAsWritten(p, choice) == (0, 0);
    } else {
      LastAtMostIsPredecessor(p, w, choice, o.value);
      assert ChooseCellAsWritten(p, choice) == o.value;
    }
  }

  /**
   * The 2-D draw, corrected: the first cell whose prefix sum exceeds the draw, the last cell
   * when the draw reaches the total mass, as the write of 1.0 into the last cell intends.
   */
  function ChooseCell(p: seq<seq<real>>, choice: real): (rc: (nat, nat))
    requires |p| > 0 && |p[|p| - 1]| > 0
    ensures rc.0 < |p| && rc.1 < |p[rc.0]|
  {
    match FirstAbove(CumSums2D(p), choice)
    case Some(rc) => rc
    case None => (|p| - 1, |p[|p| - 1]| - 1)
  }

  /**
   * The corrected draw agrees with the 1-D rule applied to the distribution read row by row:
   * the cell it picks sits at the flat position `bisect(cumsum(flat), choice)`.
   */
  lemma {:induction false} ChooseCellAgreesWithFlat(p: seq<seq<real>>, w: nat, choice: real)
    requires |p| > 0 && w > 0 && Rectangular(p, w)
    requires NonNegative(Flatten(p)) && choice < SumRows(p)
    ensures ChooseCell(p, choice).0 * w + ChooseCell(p, choice).1 == ChooseAction(Flatten(p), choice)
  {
    var j := FirstAboveIsFlatBoundary(p, w, choice);
    FlattenLength(p[..ChooseCell(p, choice).0], w);
    CumSumSorted(Flatten(p));
    BisectFinds(CumSum(Flatten(p)), choice, j);
  }

  /** The cell `FirstAbove` finds sits where the flat prefix sums first pass the draw. */
  lemma {:induction false} FirstAboveIsFlatBoundary(p: seq<seq<real>>, w: nat, choice: real) returns (j: nat)
    requires |p| > 0 && w > 0 && Rectangular(p, w) && choice < SumRows(p)
    ensures FirstAbove(CumSums2D(p), choice).Some? && ChooseCell(p, choice) == FirstAbove(CumSums2D(p), choice).value
    ensures j == |Flatten(p[..ChooseCell(p, choice).0])| + ChooseCell(p, choice).1
    ensures j < |CumSum(Flatten(p))| && CumSum(Flatten(p))[j] > choice
    ensures j > 0 ==> CumSum(Flatten(p))[j - 1] <= choice
  {
    LastCellIsTotal(p, w);
    var rc := FirstAbove(CumSums2D(p), choice).value;
    var r, c := rc.0, rc.1;
    j := FlatCell(p, r, c);
    if j > 0 {
      var r', c' := PreviousCell(p, w, r, c);
      var j' := FlatCell(p, r', c');
    }
  }

  /** The last prefix sum is the total mass. */
  lemma {:induction false} LastCellIsTotal(p: seq<seq<real>>, w: nat)
    requires |p| > 0 && w > 0 && Rectangular(p, w)
    ensures CumSums2D(p)[|p| - 1][w - 1] == SumRows(p)
  {
    assert p[|p| - 1][..w] == p[|p| - 1] && p[..|p| - 1 + 1] == p;
  }

  /** Cell `(r, c)` holds the flat prefix sum at its row-major position `j`. */
  lemma {:induction false} FlatCell(p: seq<seq<real>>, r: nat, c: nat) returns (j: nat)
    requires r < |p| && c < |p[r]|
    ensures j == |Flatten(p[..r])| + c && j < |CumSum(Flatten(p))|
    ensures CumSum(Flatten(p))[j] == CumSums2D(p)[r][c]
  {
    j := |Flatten(p[..r])| + c;
    CellPrefix(p, r, c);
    SumAppend(Flatten(p[..r]), p[r][..c + 1]);
    FlattenSum(p[..r]);
  }

  /** The cell just before `(r, c)` in row-major order. */
  lemma {:induction false} PreviousCell(p: seq<seq<real>>, w: nat, r: nat, c: nat) returns (r': nat, c': nat)
    requires Rectangular(p, w) && r < |p| && c < w && |Flatten(p[..r])| + c > 0
    ensures r' < |p| && c' < w && Later(r, c, r', c')
    ensures |Flatten(p[..r'])| + c' == |Flatten(p[..r])| + c - 1
  {
    if c > 0 {
      r', c' := r, c - 1;
    } else {
      r', c' := r - 1, w - 1;
      assert p[..r][..r - 1] == p[..r - 1];
    }
  }

  /**
   * `choose`: one draw per spatial channel, with row and column swapped into `(x, y)`, then the
   * non-spatial action. `spatialChoices[i]` is the draw for channel `i`.
   */
  method Choose(spatial: seq<seq<seq<real>>>, nonspatial: seq<real>, spatialChoices: seq<real>, nonspatialChoice: real)
    returns (spatials: seq<(nat, nat)>, action: nat)
    requires |spatialChoices| == |spatial|
    requires forall i :: 0 <= i < |spatial| ==> |spatial[i]| > 0 && |spatial[i][|spatial[i]| - 1]| > 0
    ensures |spatials| == |spatial|
    ensures forall i :: 0 <= i < |spatial| ==>
      spatials[i] == (ChooseCell(spatial[i], spatialChoices[i]).1, ChooseCell(spatial[i], spatialChoices[i]).0)
    ensures action == ChooseAction(nonspatial, nonspatialChoice) && action <= |nonspatial|
  {
    spatials := [];
    for i := 0 to |spatial|
      invariant |spatials| == i
      invariant forall k :: 0 <= k < i ==>
        spatials[k] == (ChooseCell(spatial[k], spatialChoices[k]).1, ChooseCell(spatial[k], spatialChoices[k]).0)
    {
      var (y, x) := ChooseCell(spatial[i], spatialChoices[i]);
      spatials := spatials + [(x, y)];
    }
    action := ChooseAction(nonspatial, nonspatialChoice);
  }

  // ---------------------------------------------------------------------------
  // One action per agent

  /** `multi_agent_choose_action` as written: each row's draw bisects the row itself, not its prefix sums. */
  method MultiAgentChooseActionAsWritten(probs: seq<seq<real>>, vals: seq<real>) returns (choices: seq<nat>)
    requires |vals| == |probs|
    ensures |choices| == |probs|
    ensures forall i :: 0 <= i < |probs| ==> choices[i] == Bisect(probs[i], vals[i]) && choices[i] <= |probs[i]|
  {
    choices := [];
    for i := 0 to |probs|
      invariant |choices| == i
      invariant forall k :: 0 <= k < i ==> choices[k] == Bisect(probs[k], vals[k]) && choices[k] <= |probs[k]|
    {
      var row := probs[i];
      choices := choices + [Bisect(row, vals[i])];
    }
  }

  /**
   * Bisecting the raw row `[0.8, 0.2]` with the draw 0.5 gives 2, past the last action, where
   * bisecting its prefix sums `[0.8, 1.0]` gives action 0.
   */
  lemma {:induction false} RawRowOverruns()
    ensures Bisect([0.8, 0.2], 0.5) == 2
    ensures ChooseAction([0.8, 0.2], 0.5) == 0
  {
    assert [0.8, 0.2][..1] == [0.8] && [0.8, 0.2][..2] == [0.8, 0.2];
    assert [0.8][..0] == [];
    assert CumSum([0.8, 0.2]) == [0.8, 1.0];
  }

  /** `multi_agent_choose_action`, corrected: each row's draw bisects that row's prefix sums. */
  method MultiAgentChooseAction(probs: seq<seq<real>>, vals: seq<real>) returns (choices: seq<nat>)
    requires |vals| == |probs|
    ensures |choices| == |probs|
    ensures forall i :: 0 <= i < |probs| ==> choices[i] == ChooseAction(probs[i], vals[i])
    ensures forall i :: 0 <= i < |probs| && NonNegative(probs[i]) && 0.0 <= vals[i] < Sum(probs[i]) ==> choices[i] < |probs[i]|
  {
    var cums := seq(|probs|, i requires 0 <= i < |probs| => CumSum(probs[i]));
    choices := [];
    for i := 0 to |probs|
      invariant |choices| == i
      invariant forall k :: 0 <= k < i ==> choices[k] == ChooseAction(probs[k], vals[k])
      invariant forall k :: 0 <= k < i && NonNegative(probs[k]) && 0.0 <= vals[k] < Sum(probs[k]) ==> choices[k] < |probs[k]|
    {
      var choice := Bisect(cums[i], vals[i]);
      if NonNegative(probs[i]) && 0.0 <= vals[i] {
        ChooseActionIsInverseCdf(probs[i], vals[i]);
      }
      choices := choices + [choice];
    }
  }
}
