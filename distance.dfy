/** Ray distances: a real length or NumPy's `np.inf` for a miss. */
module Distance {

  datatype Dist = Fin(value: real) | Inf

  /** NumPy's `<` on float distances: `inf < inf` is false, every finite
      distance is below `inf`. */
  predicate Less(a: Dist, b: Dist)
  {
    match a
    case Inf => false
    case Fin(p) => (match b case Inf => true case Fin(q) => p < q)
  }

  /** `inf` is below nothing, every finite distance is below `inf`, and
      finite distances compare as numbers. */
  lemma LessWithInf(a: Dist, p: real, q: real)
    ensures !Less(Inf, a)
    ensures Less(Fin(p), Inf)
    ensures Less(Fin(p), Fin(q)) <==> p < q
  {
  }

  /** `Less` is a strict total order. */
  lemma LessIsStrictTotalOrder(a: Dist, b: Dist, c: Dist)
    ensures !Less(a, a)
    ensures Less(a, b) && Less(b, c) ==> Less(a, c)
    ensures a != b ==> Less(a, b) || Less(b, a)
  {
  }

  /** The elementwise comparison `a < b` of two distance arrays. */
  function LessMask(a: seq<Dist>, b: seq<Dist>): (mask: seq<bool>)
    requires |a| == |b|
    ensures |mask| == |a|
  {
    seq(|a|, i requires 0 <= i < |a| => Less(a[i], b[i]))
  }
}
