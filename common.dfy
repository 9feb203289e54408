/** Small definitions shared by the modules of the model. */
module Common {

  datatype Option<T> = None | Some(value: T)

  /** The outcome of an operation whose Python code can raise: the error names the failed check. */
  datatype Result<T> = Ok(value: T) | Fail(reason: string)

  function Min(a: int, b: int): int
  {
    if a <= b then a else b
  }

  function Max(a: int, b: int): int
  {
    if a <= b then b else a
  }

  /** Python's `s[lo:hi]` for non-negative bounds: both bounds are cut to the length. */
  function Slice<T>(s: seq<T>, lo: nat, hi: nat): (r: seq<T>)
    ensures |r| <= Max(0, hi - lo)
    ensures lo <= hi <= |s| ==> r == s[lo..hi]
    ensures forall k :: 0 <= k < |r| ==> lo + k < |s| && r[k] == s[lo + k]
  {
    var a := if lo < |s| then lo else |s|;
    var b := if hi < |s| then hi else |s|;
    if a <= b then s[a..b] else []
  }

  /** Every element of `p` lies in 1..n and no element occurs twice: by counting, a permutation of 1..n. */
  ghost predicate PermutationOfRange(p: seq<int>, n: int)
  {
    && |p| == Max(0, n)
    && (forall k :: 0 <= k < |p| ==> 1 <= p[k] <= n)
    && (forall i, j :: 0 <= i < j < |p| ==> p[i] != p[j])
  }

  function Sum(s: seq<real>): real
  {
    if s == [] then 0.0 else Sum(s[..|s| - 1]) + s[|s| - 1]
  }

  function Pow(x: real, n: nat): real
  {
    if n == 0 then 1.0 else x * Pow(x, n - 1)
  }

  /** The last `n` elements of `s` (all of them when there are fewer): what a bounded deque keeps. */
  function LastN<T>(s: seq<T>, n: nat): (r: seq<T>)
    ensures |r| == Min(|s|, n)
    ensures forall k :: 0 <= k < |r| ==> r[k] == s[|s| - |r| + k]
  {
    if |s| <= n then s else s[|s| - n..]
  }

  lemma MulPos(a: int, c: int)
    requires a >= 1 && c > 0
    ensures a * c >= c
  {
  }

  /** Dividing `q * c + r` by `c` gives back the quotient `q` and the remainder `r`. */
  lemma DivModOf(q: int, r: int, c: int)
    requires c > 0 && 0 <= r < c && q >= 0
    ensures (q * c + r) / c == q && (q * c + r) % c == r
  {
    var k := q * c + r;
    var q2, r2 := k / c, k % c;
    assert k == q2 * c + r2;
    if q2 > q {
      MulPos(q2 - q, c);
    } else if q2 < q {
      MulPos(q - q2, c);
    }
  }
}
