/**
 * The permutation step of `perlin_noise::reseed`: `std::shuffle` over the
 * first 256 table entries. The random engine is not modelled; its choices are
 * a parameter `draws`, where `draws[i]` is the position, at most `i`, that
 * entry `i` is swapped with, in the forward Fisher-Yates order.
 */
module Shuffle {
  import opened MachineInts

  /** The bytes 0, 1, ..., n - 1 in order. */
  function Identity(n: nat): (s: seq<uint8>)
    requires n <= 256
    ensures |s| == n
    ensures forall i :: 0 <= i < n ==> s[i] as int == i
  {
    seq(n, i requires 0 <= i < n => i as uint8)
  }

  /** Choices a uniform engine can make for a range of `n` entries. */
  predicate ValidDraws(draws: seq<int>, n: nat) {
    |draws| == n && forall k :: 0 <= k < n ==> 0 <= draws[k] <= k
  }

  function Swap(s: seq<uint8>, i: nat, j: nat): seq<uint8>
    requires i < |s| && j < |s|
  {
    s[i := s[j]][j := s[i]]
  }

  /** The swaps for positions `i`, `i + 1`, ... of the shuffle, applied to `s`. */
  function ShuffleFrom(s: seq<uint8>, draws: seq<int>, i: nat): seq<uint8>
    requires ValidDraws(draws, |s|)
    decreases |s| - i
  {
    if i >= |s| then s else ShuffleFrom(Swap(s, i, draws[i]), draws, i + 1)
  }

  /** The whole shuffle: position 0 has nothing to swap with, so it starts at 1. */
  function Shuffled(s: seq<uint8>, draws: seq<int>): seq<uint8>
    requires ValidDraws(draws, |s|)
  {
    ShuffleFrom(s, draws, 1)
  }

  /** A 256-byte table that holds every byte value exactly once. */
  predicate IsPermutation(s: seq<uint8>) {
    multiset(s) == multiset(Identity(256))
  }

  lemma SwapPermutes(s: seq<uint8>, i: nat, j: nat)
    requires i < |s| && j < |s|
    ensures |Swap(s, i, j)| == |s|
    ensures multiset(Swap(s, i, j)) == multiset(s)
  {
  }

  /** Shuffling only reorders: the multiset of entries is unchanged. */
  lemma {:induction false} ShufflePermutes(s: seq<uint8>, draws: seq<int>, i: nat)
    requires ValidDraws(draws, |s|)
    ensures |ShuffleFrom(s, draws, i)| == |s|
    ensures multiset(ShuffleFrom(s, draws, i)) == multiset(s)
    decreases |s| - i
  {
    if i < |s| {
      SwapPermutes(s, i, draws[i]);
      ShufflePermutes(Swap(s, i, draws[i]), draws, i + 1);
    }
  }

  /** Shuffling the identity yields a permutation of the byte values. */
  lemma ShuffledIdentityIsPermutation(draws: seq<int>)
    requires ValidDraws(draws, 256)
    ensures IsPermutation(Shuffled(Identity(256), draws))
  {
    ShufflePermutes(Identity(256), draws, 1);
  }

  /** In the identity of length `n`, each byte below `n` occurs once and no other. */
  lemma {:induction false} IdentityCounts(n: nat, v: uint8)
    requires n <= 256
    ensures multiset(Identity(n))[v] == if (v as int) < n then 1 else 0
  {
    if n > 0 {
      assert Identity(n) == Identity(n - 1) + [(n - 1) as uint8];
      IdentityCounts(n - 1, v);
    }
  }

  /** A value at two different positions occurs at least twice. */
  lemma TwiceCounted(s: seq<uint8>, i: nat, j: nat)
    requires i < j < |s| && s[i] == s[j]
    ensures multiset(s)[s[i]] >= 2
  {
    assert s == s[..i] + [s[i]] + s[i + 1..j] + [s[j]] + s[j + 1..];
  }

  /**
   * A permutation table has 256 entries, holds every byte value, and holds
   * no value twice.
   */
  lemma PermutationHasEachByteOnce(s: seq<uint8>)
    requires IsPermutation(s)
    ensures |s| == 256
    ensures forall v: uint8 :: v in s
    ensures forall i, j :: 0 <= i < j < |s| ==> s[i] != s[j]
  {
    assert |multiset(s)| == |s| && |multiset(Identity(256))| == 256;
    forall v: uint8 ensures v in s {
      IdentityCounts(256, v);
      assert v in multiset(s);
    }
    forall i, j | 0 <= i < j < |s| ensures s[i] != s[j] {
      if s[i] == s[j] {
        TwiceCounted(s, i, j);
        IdentityCounts(256, s[i]);
      }
    }
  }

  /** No byte occurs twice in a table without repeated entries. */
  lemma {:induction false} DistinctCountsAtMostOnce(s: seq<uint8>, v: uint8)
    requires forall i, j :: 0 <= i < j < |s| ==> s[i] != s[j]
    ensures multiset(s)[v] <= 1
  {
    if s != [] {
      var init, last := s[..|s| - 1], s[|s| - 1];
      assert s == init + [last];
      DistinctCountsAtMostOnce(init, v);
      assert last !in init;
    }
  }

  /** Conversely, 256 pairwise different bytes form a permutation table. */
  lemma DistinctIsPermutation(s: seq<uint8>)
    requires |s| == 256
    requires forall i, j :: 0 <= i < j < |s| ==> s[i] != s[j]
    ensures IsPermutation(s)
  {
    var m, id := multiset(s), multiset(Identity(256));
    forall v: uint8 ensures m[v] <= id[v] {
      DistinctCountsAtMostOnce(s, v);
      IdentityCounts(256, v);
    }
    assert m <= id;
    assert |id - m| == 0 by {
      assert id == m + (id - m);
    }
    assert id == m + (id - m);
  }

  /** `std::shuffle` on `a[0..n)`, performed in place by swaps. */
  method ShuffleRange(a: array<uint8>, n: nat, draws: seq<int>)
    requires n <= a.Length && ValidDraws(draws, n)
    modifies a
    ensures a[..n] == Shuffled(old(a[..n]), draws)
    ensures a[n..] == old(a[n..])
  {
    var i := 1;
    while i < n
      invariant 1 <= i && (n == 0 || i <= n)
      invariant ShuffleFrom(a[..n], draws, i) == Shuffled(old(a[..n]), draws)
      invariant a[n..] == old(a[n..])
      decreases n - i
    {
      ghost var before := a[..n];
      var j := draws[i];
      a[i], a[j] := a[j], a[i];
      assert a[..n] == Swap(before, i, j);
      i := i + 1;
    }
  }
}
