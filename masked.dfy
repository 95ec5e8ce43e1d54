/** The NumPy masked primitives the ray tracer is built on, as operations on
    sequences (the specification) and on arrays (the in-place update):
    `np.count_nonzero`, `ndarray.any`, `np.extract`, `np.place`,
    `np.copyto(..., where=mask)` and `np.repeat`. */
module Masked {

  /** `np.clip(t, lo, hi)`, which is `min(max(t, lo), hi)`. */
  function Clip(t: real, lo: real, hi: real): (r: real)
    ensures r <= hi
    ensures lo <= hi ==> lo <= r
    ensures lo <= t <= hi ==> r == t
    ensures t <= lo <= hi ==> r == lo
    ensures hi <= t ==> r == hi
    ensures hi < lo ==> r == hi
  {
    var m := if t < lo then lo else t;
    if m > hi then hi else m
  }

  /** Number of true entries of a mask. */
  function Count(mask: seq<bool>): (c: nat)
    ensures c <= |mask|
  {
    if |mask| == 0 then 0
    else Count(mask[..|mask| - 1]) + (if mask[|mask| - 1] then 1 else 0)
  }

  lemma {:induction false} CountZero(mask: seq<bool>)
    ensures Count(mask) == 0 <==> forall i :: 0 <= i < |mask| ==> !mask[i]
  {
    if |mask| > 0 {
      var n := |mask| - 1;
      CountZero(mask[..n]);
      assert forall i :: 0 <= i < n ==> mask[..n][i] == mask[i];
    }
  }

  /** `mask.any()`: some entry is true. */
  function Any(mask: seq<bool>): (b: bool)
    ensures b <==> exists i :: 0 <= i < |mask| && mask[i]
  {
    CountZero(mask);
    Count(mask) > 0
  }

  lemma CountStep(mask: seq<bool>, i: nat)
    requires i < |mask|
    ensures Count(mask[..i + 1]) == Count(mask[..i]) + (if mask[i] then 1 else 0)
  {
    assert mask[..i + 1][..i] == mask[..i];
  }

  lemma {:induction false} CountMonotone(mask: seq<bool>, i: nat, j: nat)
    requires i <= j <= |mask|
    ensures Count(mask[..i]) <= Count(mask[..j])
    decreases j - i
  {
    if i < j {
      CountStep(mask, i);
      CountMonotone(mask, i + 1, j);
    }
  }

  /** The true entries before a true position are fewer than all of them:
      every true position has a rank below Count(mask). */
  lemma RankBelowCount(mask: seq<bool>, i: nat)
    requires i < |mask| && mask[i]
    ensures Count(mask[..i]) < Count(mask)
  {
    CountStep(mask, i);
    CountMonotone(mask, i + 1, |mask|);
    assert mask[..|mask|] == mask;
  }

  /** `np.extract(mask, s)`: the entries at true positions, in order. */
  function Extract<T>(mask: seq<bool>, s: seq<T>): (r: seq<T>)
    requires |mask| == |s|
    ensures |r| == Count(mask)
  {
    if |s| == 0 then []
    else Extract(mask[..|s| - 1], s[..|s| - 1]) + (if mask[|s| - 1] then [s[|s| - 1]] else [])
  }

  /** The true entry at position i lands at its rank among the true entries. */
  lemma {:induction false} ExtractAt<T>(mask: seq<bool>, s: seq<T>, i: nat)
    requires |mask| == |s| && i < |s| && mask[i]
    ensures Count(mask[..i]) < Count(mask)
    ensures Extract(mask, s)[Count(mask[..i])] == s[i]
  {
    RankBelowCount(mask, i);
    var n := |s| - 1;
    if i == n {
      assert mask[..i] == mask[..n];
    } else {
      ExtractAt(mask[..n], s[..n], i);
      assert mask[..n][..i] == mask[..i];
    }
  }

  /** Every entry of the extraction comes from a true position of that rank. */
  lemma {:induction false} ExtractFrom<T>(mask: seq<bool>, s: seq<T>, k: nat) returns (i: nat)
    requires |mask| == |s| && k < Count(mask)
    ensures i < |s| && mask[i] && Count(mask[..i]) == k
    ensures Extract(mask, s)[k] == s[i]
  {
    var n := |s| - 1;
    if k < Count(mask[..n]) {
      i := ExtractFrom(mask[..n], s[..n], k);
      assert mask[..n][..i] == mask[..i];
    } else {
      i := n;
      assert mask[..n] == mask[..i];
    }
  }

  /** What `np.place` accepts: a mask as long as the array, and a non-empty
      value list whenever some entry is masked. Otherwise NumPy raises
      ValueError and changes nothing. */
  predicate PlaceDefined<T>(n: nat, mask: seq<bool>, vals: seq<T>)
  {
    |mask| == n && (|vals| > 0 || Count(mask) == 0)
  }

  /** `np.place(s, mask, vals)`: the k-th true position receives
      vals[k mod |vals|]; false positions keep their entry. */
  function Place<T>(s: seq<T>, mask: seq<bool>, vals: seq<T>): (r: seq<T>)
    requires PlaceDefined(|s|, mask, vals)
    ensures |r| == |s|
  {
    seq(|s|, i requires 0 <= i < |s| =>
      if mask[i] then (RankBelowCount(mask, i); vals[Count(mask[..i]) % |vals|]) else s[i])
  }

  /** `np.copyto(dst, src, where=mask)` for operands of one length. */
  function CopyTo<T>(dst: seq<T>, src: seq<T>, mask: seq<bool>): (r: seq<T>)
    requires |src| == |dst| && |mask| == |dst|
    ensures |r| == |dst|
  {
    seq(|dst|, i requires 0 <= i < |dst| => if mask[i] then src[i] else dst[i])
  }

  /** `np.repeat(s, n)`: each entry n times in a row. */
  function Repeat<T>(s: seq<T>, n: nat): (r: seq<T>)
    ensures |r| == |s| * n
  {
    if |s| == 0 then []
    else
      var rest := Repeat(s[1..], n);
      assert |rest| == (|s| - 1) * n;
      seq(n, _ => s[0]) + rest
  }

  lemma {:induction false} RepeatAt<T>(s: seq<T>, n: nat, k: nat, t: nat)
    requires k < |s| && t < n
    ensures k * n + t < |s| * n
    ensures Repeat(s, n)[k * n + t] == s[k]
  {
    if k > 0 {
      RepeatAt(s[1..], n, k - 1, t);
      assert k * n + t == n + ((k - 1) * n + t);
    }
  }

  /** A single value repeated n times is the constant sequence. */
  lemma RepeatOne<T>(v: T, n: nat)
    ensures Repeat([v], n) == seq(n, _ => v)
  {
    assert Repeat([v][1..], n) == [];
  }

  /** Placing a single value writes it to every true position. */
  lemma PlaceOne<T>(s: seq<T>, mask: seq<bool>, v: T)
    requires |mask| == |s|
    ensures Place(s, mask, [v]) == CopyTo(s, seq(|s|, _ => v), mask)
  {
  }

  /** Round trip: extracting what was placed gives the values back. */
  lemma ExtractPlace<T>(s: seq<T>, mask: seq<bool>, w: seq<T>)
    requires |mask| == |s| && |w| == Count(mask)
    ensures Extract(mask, Place(s, mask, w)) == w
  {
    ExtractPlacePrefix(s, mask, w);
    assert w[..Count(mask)] == w;
  }

  lemma {:induction false} ExtractPlacePrefix<T>(s: seq<T>, mask: seq<bool>, w: seq<T>)
    requires |mask| == |s| && |w| >= Count(mask)
    ensures PlaceDefined(|s|, mask, w)
    ensures Extract(mask, Place(s, mask, w)) == w[..Count(mask)]
  {
    if |s| > 0 {
      var n := |s| - 1;
      var p := Place(s, mask, w);
      var p' := Place(s[..n], mask[..n], w);
      forall i | 0 <= i < n ensures p[..n][i] == p'[i] {
        assert mask[..n][..i] == mask[..i];
      }
      assert p[..n] == p';
      ExtractPlacePrefix(s[..n], mask[..n], w);
      var c := Count(mask[..n]);
      assert mask[..n] == mask[..|s| - 1];
      if mask[n] {
        RankBelowCount(mask, n);
        ModSmall(c, |w|);
        assert p[n] == w[c];
        assert w[..c] + [w[c]] == w[..c + 1];
      }
    }
  }

  /** Round trip: placing a sequence's own extraction changes nothing. */
  lemma PlaceExtract<T>(s: seq<T>, mask: seq<bool>)
    requires |mask| == |s|
    ensures PlaceDefined(|s|, mask, Extract(mask, s))
    ensures Place(s, mask, Extract(mask, s)) == s
  {
    var e := Extract(mask, s);
    forall i | 0 <= i < |s| && mask[i] ensures Place(s, mask, e)[i] == s[i] {
      ExtractAt(mask, s, i);
      ModSmall(Count(mask[..i]), |e|);
    }
  }

  /** The masked copy is the placement of the source's masked entries. */
  lemma CopyToIsPlace<T>(dst: seq<T>, src: seq<T>, mask: seq<bool>)
    requires |src| == |dst| && |mask| == |dst|
    ensures PlaceDefined(|dst|, mask, Extract(mask, src))
    ensures CopyTo(dst, src, mask) == Place(dst, mask, Extract(mask, src))
  {
    var e := Extract(mask, src);
    forall i | 0 <= i < |dst| && mask[i] ensures Place(dst, mask, e)[i] == src[i] {
      ExtractAt(mask, src, i);
      ModSmall(Count(mask[..i]), |e|);
    }
  }

  lemma CopyToAllOrNothing<T>(dst: seq<T>, src: seq<T>, mask: seq<bool>)
    requires |src| == |dst| && |mask| == |dst|
    ensures (forall i :: 0 <= i < |mask| ==> mask[i]) ==> CopyTo(dst, src, mask) == src
    ensures (forall i :: 0 <= i < |mask| ==> !mask[i]) ==> CopyTo(dst, src, mask) == dst
  {
  }

  lemma ModUnique(x: int, m: int, q: int, r: int)
    requires m > 0 && 0 <= r < m && x == q * m + r
    ensures x % m == r
  {
    var q', r' := x / m, x % m;
    assert (q - q') * m == r' - r;
    MulBounded(q - q', m);
  }

  lemma MulBounded(d: int, m: int)
    requires m > 0 && -m < d * m < m
    ensures d == 0
  {
    if d >= 1 {
    } else if d <= -1 {
    }
  }

  lemma ModSmall(x: nat, m: nat)
    requires x < m
    ensures x % m == x
  {
    ModUnique(x, m, 0, x);
  }

  lemma ModStep(c: nat, m: nat)
    requires m > 0
    ensures (if c % m + 1 == m then 0 else c % m + 1) == (c + 1) % m
  {
    var q, r := c / m, c % m;
    if r + 1 == m {
      ModUnique(c + 1, m, q + 1, 0);
    } else {
      ModUnique(c + 1, m, q, r + 1);
    }
  }

  /** `np.place` on an array, walking the value list cyclically as NumPy's
      loop does. Returns false, changing nothing, where NumPy raises. */
  method PlaceInto<T>(a: array<T>, mask: seq<bool>, vals: seq<T>) returns (ok: bool)
    modifies a
    ensures ok == PlaceDefined(a.Length, mask, vals)
    ensures a[..] == if ok then Place(old(a[..]), mask, vals) else old(a[..])
  {
    ok := PlaceDefined(a.Length, mask, vals);
    if !ok {
      return;
    }
    ghost var s := a[..];
    var i, j := 0, 0;
    while i < a.Length
      invariant 0 <= i <= a.Length
      invariant |vals| > 0 ==> j == Count(mask[..i]) % |vals|
      invariant forall k :: 0 <= k < i ==> a[k] == Place(s, mask, vals)[k]
      invariant forall k :: i <= k < a.Length ==> a[k] == s[k]
    {
      CountStep(mask, i);
      if mask[i] {
        RankBelowCount(mask, i);
        ModStep(Count(mask[..i]), |vals|);
        a[i] := vals[j];
        j := if j + 1 == |vals| then 0 else j + 1;
      }
      i := i + 1;
    }
  }

  /** `np.copyto(a, src, where=mask)` on an array. */
  method CopyInto<T>(a: array<T>, src: seq<T>, mask: seq<bool>)
    requires |src| == a.Length && |mask| == a.Length
    modifies a
    ensures a[..] == CopyTo(old(a[..]), src, mask)
  {
    ghost var s := a[..];
    for i := 0 to a.Length
      invariant forall k :: 0 <= k < i ==> a[k] == CopyTo(s, src, mask)[k]
      invariant forall k :: i <= k < a.Length ==> a[k] == s[k]
    {
      if mask[i] {
        a[i] := src[i];
      }
    }
  }
}
