/**
 * common.NonNil: drops the zero values from a slice, compacting the
 * survivors to the front of the same backing array with two indices,
 * and returns that prefix. The zero value of the element type is a
 * parameter; the returned slice is the array's first n elements.
 */
module NonNil {
  /** The elements of xs that are not `zero`, in order. */
  function NonZero<T(==)>(xs: seq<T>, zero: T): (r: seq<T>)
    ensures |r| <= |xs|
  {
    if xs == [] then []
    else NonZero(xs[..|xs| - 1], zero) + (if xs[|xs| - 1] != zero then [xs[|xs| - 1]] else [])
  }

  /** Filtering distributes over concatenation. */
  lemma {:induction false} NonZeroAppend<T>(a: seq<T>, b: seq<T>, zero: T)
    ensures NonZero(a + b, zero) == NonZero(a, zero) + NonZero(b, zero)
    decreases |b|
  {
    if b == [] {
      assert a + b == a;
    } else {
      var b' := b[..|b| - 1];
      assert (a + b)[..|a + b| - 1] == a + b';
      NonZeroAppend(a, b', zero);
    }
  }

  /** Adding one element to a multiset and then dropping zero. */
  lemma ZeroStep<T>(m: multiset<T>, last: T, zero: T)
    ensures last == zero ==> (m + multiset{last})[zero := 0] == m[zero := 0]
    ensures last != zero ==> (m + multiset{last})[zero := 0] == m[zero := 0] + multiset{last}
  {
  }

  /** The result holds every element as often as the input, except zero, which it does not hold. */
  lemma {:induction false} NonZeroCounts<T>(xs: seq<T>, zero: T)
    ensures multiset(NonZero(xs, zero)) == multiset(xs)[zero := 0]
    decreases |xs|
  {
    if xs != [] {
      var init := xs[..|xs| - 1];
      var last := xs[|xs| - 1];
      NonZeroCounts(init, zero);
      assert xs == init + [last];
      ZeroStep(multiset(init), last, zero);
    }
  }

  /** The result is shorter than the input by the number of zeros in it. */
  lemma {:induction false} NonZeroLength<T>(xs: seq<T>, zero: T)
    ensures |NonZero(xs, zero)| == |xs| - multiset(xs)[zero]
    decreases |xs|
  {
    if xs != [] {
      var init := xs[..|xs| - 1];
      NonZeroLength(init, zero);
      assert xs == init + [xs[|xs| - 1]];
    }
  }

  /** No zero survives. */
  lemma NonZeroHasNoZero<T>(xs: seq<T>, zero: T)
    ensures zero !in NonZero(xs, zero)
  {
    NonZeroCounts(xs, zero);
  }

  /** Input without zeros comes back unchanged. */
  lemma {:induction false} NonZeroOfNoZero<T>(xs: seq<T>, zero: T)
    requires zero !in xs
    ensures NonZero(xs, zero) == xs
    decreases |xs|
  {
    if xs != [] {
      var init := xs[..|xs| - 1];
      NonZeroOfNoZero(init, zero);
      assert xs == init + [xs[|xs| - 1]];
    }
  }

  /** Compacting twice is compacting once. */
  lemma NonZeroIdempotent<T>(xs: seq<T>, zero: T)
    ensures NonZero(NonZero(xs, zero), zero) == NonZero(xs, zero)
  {
    NonZeroHasNoZero(xs, zero);
    NonZeroOfNoZero(NonZero(xs, zero), zero);
  }

  /**
   * NonNil over array v: afterwards its first n elements are the non-zero
   * elements of the input, in order, and the rest is as it was.
   */
  method Compact<T(==)>(v: array<T>, zero: T) returns (n: nat)
    modifies v
    ensures n <= v.Length
    ensures v[..n] == NonZero(old(v[..]), zero)
    ensures v[n..] == old(v[..])[n..]
  {
    if v.Length == 0 {
      return 0;
    }
    ghost var input := v[..];
    var i, j := 0, 0;
    while j < v.Length
      invariant 0 <= i <= j <= v.Length
      invariant v[..i] == NonZero(input[..j], zero)
      invariant v[i..] == input[i..]
    {
      assert v[j] == input[j] by {
        assert v[i..][j - i] == input[i..][j - i];
      }
      assert input[..j + 1] == input[..j] + [input[j]];
      NonZeroAppend(input[..j], [input[j]], zero);
      if v[j] != zero {
        ghost var before := v[..];
        v[i] := v[j];
        assert v[..i + 1] == v[..i] + [v[i]];
        assert v[i + 1..] == before[i + 1..] == input[i + 1..];
        i := i + 1;
      }
      j := j + 1;
    }
    assert input[..v.Length] == input;
    n := i;
  }
}
