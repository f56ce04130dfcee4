/**
 * The permutation table of `boar::perlin_noise`: 512 bytes whose second half
 * repeats the first, so that the lattice hash can add an offset of up to 255
 * to an entry and still index the table without wrapping.
 */
module Perlin {
  import opened MachineInts
  import opened Shuffle
  import opened Lattice

  /** The table a snapshot of 256 bytes restores: the snapshot, twice. */
  function Restored(s: seq<uint8>): (t: seq<uint8>)
    requires |s| == 256
    ensures Mirrored(t)
    ensures t[..256] == s
  {
    s + s
  }

  /** A snapshot taken of any table restores to that table exactly when it is mirrored. */
  lemma RestoreSnapshot(t: seq<uint8>)
    requires |t| == 512
    ensures Restored(t[..256]) == t <==> Mirrored(t)
  {
    assert t == t[..256] + t[256..];
  }

  class PerlinNoise {
    /** The table `p`; the object owns it and never replaces it. */
    const p: array<uint8>

    /** The mirror invariant every public operation establishes. */
    ghost predicate Valid()
      reads p
    {
      p.Length == 512 && Mirrored(p[..])
    }

    /** `perlin_noise(seed)`: a fresh table, seeded as `reseed` does. */
    constructor (draws: seq<int>)
      requires ValidDraws(draws, 256)
      ensures Valid() && fresh(p)
      ensures p[..256] == Shuffled(Identity(256), draws)
      ensures IsPermutation(p[..256])
    {
      p := new uint8[512];
      new;
      Reseed(draws);
    }

    /**
     * `reseed`: the identity in the first half, shuffled, then copied into the
     * second half.
     */
    method Reseed(draws: seq<int>)
      requires p.Length == 512 && ValidDraws(draws, 256)
      modifies p
      ensures Valid()
      ensures p[..256] == Shuffled(Identity(256), draws)
      ensures IsPermutation(p[..256])
    {
      for i := 0 to 256
        invariant forall k :: 0 <= k < i ==> p[k] as int == k
      {
        p[i] := i as uint8;
      }
      assert p[..256] == Identity(256);
      ShuffleRange(p, 256, draws);
      ghost var perm := p[..256];
      for i := 0 to 256
        invariant p[..256] == perm
        invariant forall k :: 0 <= k < i ==> p[256 + k] == p[k]
      {
        p[256 + i] := p[i];
      }
      assert p[256..] == p[..256];
      ShuffledIdentityIsPermutation(draws);
    }

    /** `serialize`: copies the first half of the table out; the table is not changed. */
    method Serialize(s: array<uint8>)
      requires p.Length == 512 && s.Length == 256
      modifies s
      ensures s[..] == p[..256]
      ensures p[..] == old(p[..])
    {
      for i := 0 to 256
        invariant forall k :: 0 <= k < i ==> s[k] == p[k]
      {
        s[i] := p[i];
      }
    }

    /**
     * `deserialize`: writes each snapshot byte to both halves. Any bytes are
     * accepted, not only permutations, and the mirror invariant holds after.
     */
    method Deserialize(s: array<uint8>)
      requires p.Length == 512 && s.Length == 256
      modifies p
      ensures Valid()
      ensures p[..] == Restored(s[..])
    {
      for i := 0 to 256
        invariant forall k :: 0 <= k < i ==> p[k] == s[k] && p[256 + k] == s[k]
      {
        p[i] := s[i];
        p[256 + i] := p[i];
      }
      assert p[..] == s[..] + s[..];
    }

    /** Restoring a snapshot and taking a new one gives back the same bytes. */
    method RestoreThenSave(s: array<uint8>, t: array<uint8>)
      requires p.Length == 512 && s.Length == 256 && t.Length == 256
      modifies p, t
      ensures Valid()
      ensures p[..] == Restored(old(s[..]))
      ensures t[..] == old(s[..])
    {
      Deserialize(s);
      Serialize(t);
    }

    /** On a valid table, saving a snapshot and restoring it leaves the table unchanged. */
    method SaveThenRestore(s: array<uint8>)
      requires Valid() && s.Length == 256
      modifies p, s
      ensures Valid()
      ensures p[..] == old(p[..])
      ensures s[..] == p[..256]
    {
      Serialize(s);
      Deserialize(s);
      RestoreSnapshot(old(p[..]));
    }

    /**
     * The corner hashes `raw_noise` reads for lattice point (x, y, z). Every
     * lookup is in bounds for any table contents, valid or not; on a valid
     * table they are the wrapped hashes over the first half.
     */
    function LatticeHashes(x: int32, y: int32, z: int32): (c: Corners)
      reads p
      requires p.Length == 512
      ensures Valid() ==> c == WrappedCorners(p[..256], x as int, y as int, z as int)
    {
      CornerHashes(p[..], x, y, z)
    }
  }
}
