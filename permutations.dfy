/** Permutations as index sequences: the outcome of `random.shuffle` on a list of length n
    is the list reordered by some permutation of 0..n-1. */
module Permutations {

  /** [0, 1, ..., n - 1] */
  function Range(n: nat): (r: seq<int>)
    ensures |r| == n && forall i :: 0 <= i < n ==> r[i] == i
  {
    seq(n, i => i)
  }

  /** `perm` lists each of 0..n-1 exactly once. */
  predicate IsPermutation(perm: seq<int>, n: nat) {
    multiset(perm) == multiset(Range(n))
  }

  /** Every entry of `perm` indexes into `s`. */
  predicate Indexes<T>(perm: seq<int>, s: seq<T>) {
    forall i :: 0 <= i < |perm| ==> 0 <= perm[i] < |s|
  }

  /** `s` reordered so that position i holds what `s` held at `perm[i]`. */
  function Permute<T>(s: seq<T>, perm: seq<int>): (r: seq<T>)
    requires Indexes(perm, s)
    ensures |r| == |perm| && forall i :: 0 <= i < |perm| ==> r[i] == s[perm[i]]
  {
    seq(|perm|, i requires 0 <= i < |perm| => s[perm[i]])
  }

  /** A permutation of 0..n-1 has length n and only entries below n. */
  lemma {:induction false} PermutationBounds(perm: seq<int>, n: nat)
    requires IsPermutation(perm, n)
    ensures |perm| == n
    ensures forall i :: 0 <= i < |perm| ==> 0 <= perm[i] < n
  {
    assert |multiset(perm)| == |multiset(Range(n))|;
    forall i | 0 <= i < |perm|
      ensures 0 <= perm[i] < n
    {
      assert perm[i] in multiset(perm);
      assert perm[i] in Range(n);
    }
  }

  /** The identity is a permutation, so every list has at least one shuffle. */
  lemma RangeIsPermutation(n: nat)
    ensures IsPermutation(Range(n), n)
  {
  }

  /** Taking the largest index out of a permutation of 0..n-1 leaves a permutation of 0..n-2. */
  lemma {:induction false} DropLargest(perm: seq<int>, n: nat, j: nat)
    requires n > 0 && IsPermutation(perm, n)
    requires j < |perm| && perm[j] == n - 1
    ensures IsPermutation(perm[..j] + perm[j + 1..], n - 1)
  {
    var rest := perm[..j] + perm[j + 1..];
    assert perm == perm[..j] + [perm[j]] + perm[j + 1..];
    assert multiset(perm) == multiset(rest) + multiset{n - 1};
    assert Range(n) == Range(n - 1) + [n - 1];
    assert multiset(Range(n)) == multiset(Range(n - 1)) + multiset{n - 1};
    assert multiset(rest) == multiset(perm) - multiset{n - 1};
    assert multiset(Range(n - 1)) == multiset(Range(n)) - multiset{n - 1};
  }

  /** Reordering `s` by `perm` puts `s`'s last element at the position `j` where `perm`
      names it and reorders the rest of `s` by the rest of `perm`. */
  lemma {:induction false} PermuteSplit<T>(s: seq<T>, perm: seq<int>, j: nat)
    requires |s| > 0 && Indexes(perm, s)
    requires j < |perm| && perm[j] == |s| - 1
    requires Indexes(perm[..j] + perm[j + 1..], s[..|s| - 1])
    ensures Permute(s, perm) ==
      Permute(s[..|s| - 1], perm[..j] + perm[j + 1..])[..j] + [s[|s| - 1]] +
      Permute(s[..|s| - 1], perm[..j] + perm[j + 1..])[j..]
  {
    var rest := perm[..j] + perm[j + 1..];
    var shorter := Permute(s[..|s| - 1], rest);
    var whole := Permute(s, perm);
    forall i | 0 <= i < |whole|
      ensures whole[i] == (shorter[..j] + [s[|s| - 1]] + shorter[j..])[i]
    {
      if i < j {
        assert rest[i] == perm[i];
      } else if i > j {
        assert rest[i - 1] == perm[i];
      }
    }
  }

  /** Where a permutation of 0..n-1 holds n - 1. */
  lemma {:induction false} PositionOfLargest(perm: seq<int>, n: nat) returns (j: nat)
    requires n > 0 && IsPermutation(perm, n)
    ensures j < |perm| && perm[j] == n - 1
  {
    assert Range(n)[n - 1] == n - 1;
    assert n - 1 in multiset(Range(n));
    assert n - 1 in perm;
    j :| 0 <= j < |perm| && perm[j] == n - 1;
  }

  lemma {:induction false} InsertKeepsMultiset<T>(a: seq<T>, x: T, j: nat)
    requires j <= |a|
    ensures multiset(a[..j] + [x] + a[j..]) == multiset(a) + multiset{x}
  {
    assert a == a[..j] + a[j..];
  }

  lemma SnocMultiset<T>(s: seq<T>)
    requires |s| > 0
    ensures multiset(s) == multiset(s[..|s| - 1]) + multiset{s[|s| - 1]}
  {
    assert s == s[..|s| - 1] + [s[|s| - 1]];
  }

  /** Reordering by a permutation keeps every element, as often as it occurred. */
  lemma {:induction false} PermutePreservesMultiset<T>(s: seq<T>, perm: seq<int>)
    requires IsPermutation(perm, |s|)
    ensures Indexes(perm, s)
    ensures multiset(Permute(s, perm)) == multiset(s)
    decreases |s|
  {
    PermutationBounds(perm, |s|);
    if |s| > 0 {
      var n := |s|;
      var j := PositionOfLargest(perm, n);
      var rest := perm[..j] + perm[j + 1..];
      DropLargest(perm, n, j);
      PermutationBounds(rest, n - 1);
      var front := s[..n - 1];
      PermutePreservesMultiset(front, rest);
      PermuteSplit(s, perm, j);
      var shorter := Permute(front, rest);
      var last := s[n - 1];
      InsertKeepsMultiset(shorter, last, j);
      SnocMultiset(s);
    }
  }
}
