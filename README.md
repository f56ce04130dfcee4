# boarglib Perlin permutation table, in Dafny

This project models the integer core of `boar::perlin_noise` in
`algorithms.hpp`:

- the 512-byte permutation table `p`;
- `reseed`, which fills the first half with 0..255, shuffles it and mirrors
  it into the second half;
- `serialize` and `deserialize`, which copy the first half out to a
  256-byte snapshot and back in;
- the lattice-hash index arithmetic of `raw_noise`, which masks the lattice
  coordinates to a byte and chains table lookups `p[X] + Y`, `p[A] + Z`,
  `p[AA + 1]`, and so on.

Modules:

- `MachineInts` (`machine_ints.dfy`): `uint8` and `int32` as bounded
  integers, and the two's complement reading of an `int32`.
- `Lattice` (`lattice.dfy`): `n & 255`, the index chain and the corner
  hashes of `raw_noise` as pure functions over the table contents. It also
  gives the textbook wrapped hash (every index reduced modulo 256 over a
  256-entry permutation) as an independent reference.
- `Shuffle` (`shuffle.dfy`): `std::shuffle` as an in-place forward
  Fisher-Yates over an array range, proved against a specification function,
  and what a permutation table is.
- `Perlin` (`perlin_noise.dfy`): the class `PerlinNoise` holding the table as
  an `array<uint8>`, with the mirror invariant `p[256 + i] == p[i]` as
  `Valid()`, and the snapshot functions.

The safety property of `raw_noise` is stated on `Lattice.ChainIndices` and
enforced by the precondition `InTable()` of `Lattice.ReadCorners`, which
`Lattice.ChainIndices` ensures. Every index `raw_noise` reads lies in 0..511
for any 512 bytes, not only for permutation tables.
This matters because `deserialize` accepts arbitrary bytes.

## Model

| member | source | states |
|---|---|---|
| `MachineInts.TwosComplement` | algorithms.hpp:88-90 | the bit pattern of an `int32` read as unsigned lies in 0..2^32-1 and is congruent to the value modulo 2^32 |
| `Lattice.Mask` | algorithms.hpp:88-90 | `n & 255` lies in 0..255 and equals the non-negative residue of `n` modulo 256 for every `int32`, negatives included |
| `Lattice.ChainIndices` | algorithms.hpp:88-101 | `X`, `Y`, `Z` lie in 0..255, and every index `raw_noise` reads (`X`, `X+1`, `A`, `A+1`, `B`, `B+1`, `AA`, `AA+1`, `AB`, `AB+1`, `BA`, `BA+1`, `BB`, `BB+1`) lies in 0..511, for any bytes in the table |
| `Lattice.CornerHashes` | algorithms.hpp:107-122 | the eight reads `p[AA]` ... `p[BB + 1]` are well-formed for any 512 table bytes, so every read is in bounds; on a mirrored table its value is the wrapped corner hashes (`CornersAreWrappedHashes`) |
| `Lattice.CornersAreWrappedHashes` | algorithms.hpp:100-122 | on a mirrored table, the eight hashes passed to `grad` equal the wrapped Perlin hashes of the cell's corners, computed over the first half with every index taken modulo 256 |
| `Lattice.Corner` | algorithms.hpp:107-122 | each single corner hash, at offsets (dx, dy, dz) in {0,1}^3, equals the wrapped hash of that corner on a mirrored table |
| `Lattice.Periodic` | algorithms.hpp:88-122 | the corner hashes depend on each lattice coordinate only modulo 256, so they repeat every 256 units along each axis; the fractional offsets, and hence the noise values, are not modelled |
| `Shuffle.ShuffleRange` | algorithms.hpp:33 | shuffling `a[0..n)` in place leaves `a[0..n)` equal to the specification `Shuffled` of its old contents and leaves `a[n..]` unchanged |
| `Shuffle.ShufflePermutes` | algorithms.hpp:33 | the shuffle only reorders: it keeps the length and the multiset of entries |
| `Shuffle.ShuffledIdentityIsPermutation` | algorithms.hpp:29-33 | the shuffled identity 0..255 is a permutation table |
| `Shuffle.IdentityCounts` | algorithms.hpp:29-31 | the identity fill of length `n` holds each byte value below `n` exactly once and no other value |
| `Shuffle.PermutationHasEachByteOnce` | algorithms.hpp:29-33 | a permutation table has 256 entries, holds every byte value and holds no value twice |
| `Shuffle.DistinctIsPermutation` | algorithms.hpp:29-33 | conversely, any 256 pairwise different bytes form a permutation table |
| `Perlin.Restored` | algorithms.hpp:201-205 | the table rebuilt from a snapshot is mirrored and its first half is the snapshot |
| `Perlin.RestoreSnapshot` | algorithms.hpp:194-205 | restoring a snapshot of a 512-byte table gives back that table if and only if the table is mirrored |
| `Perlin.PerlinNoise.constructor` | algorithms.hpp:23-25 | a new object owns a fresh table that is mirrored and whose first half is the shuffled identity, a permutation |
| `Perlin.PerlinNoise.Reseed` | algorithms.hpp:27-38 | after `reseed` the table is mirrored, its first half is the identity shuffled by the engine's choices, and that half is a permutation of 0..255 |
| `Perlin.PerlinNoise.Serialize` | algorithms.hpp:194-199 | the snapshot receives exactly `p[0..256)` and the table is not changed |
| `Perlin.PerlinNoise.Deserialize` | algorithms.hpp:201-206 | every snapshot byte `s[i]` is written to `p[i]` and `p[256 + i]`, so the mirror invariant holds afterwards for any snapshot bytes |
| `Perlin.PerlinNoise.RestoreThenSave` | algorithms.hpp:194-206 | `deserialize(s)` followed by `serialize(t)` leaves the table restored from `s` (mirrored, first half the old `s`) and in `t` the bytes `s` held before, also when `t` is `s` itself |
| `Perlin.PerlinNoise.SaveThenRestore` | algorithms.hpp:194-206 | on a mirrored table, `serialize(s)` followed by `deserialize(s)` leaves the table unchanged |
| `Perlin.PerlinNoise.LatticeHashes` | algorithms.hpp:86-122 | the corner hashes `raw_noise` reads from the object's table; on a valid table they are the wrapped hashes over the first half |

## Left out

- The floating-point part of `raw_noise` is not modelled: `fade`, `lerp`, `grad`, the fractional offsets and the final interpolation (algorithms.hpp:49-67, 92-98, 103-125). So are `weight` and the octave loops of `noise1D`, `noise2D` and `noise3D` (algorithms.hpp:69-81, 136-184), and the `octave_bias` field. They compute doubles only.
- The conversion `static_cast<std::int32_t>(std::floor(x))` is floating point. The lattice functions take the resulting `int32` as their input. A double that is NaN, infinite or outside the `int32` range, for which the cast is undefined in C++, is therefore not covered.
- `std::default_random_engine(seed)` is not modelled. Its choices are the parameter `draws` of `Reseed` and the constructor, with `draws[i]` the position, at most `i`, that entry `i` is swapped with. The seed itself does not appear.
- `Shuffle.ShuffleRange` fixes the forward Fisher-Yates order: for each position `i` from 1 upwards, one swap with a position in [0, i]. An implementation that takes two positions per engine call still fits this form, because the draws are a parameter. One that swaps in another order, such as backwards from the end, is not covered by the model; that every arrangement it can produce is also reachable by some forward `draws` is not proved here.
- `Perlin.PerlinNoise.LatticeHashes` takes the table's contents; the model has no object-level `raw_noise` returning a double.
- `core.hpp` is not part of this model: `distance_to`, `angle_to` and `Angle` use `sqrt`, `pow`, `atan` and double constants, and `dot_product` (with the `Vector2` constructor) is a one-line integer expression with no state or invariant.
- `misc.hpp` is not part of this model: it is an older float-based copy of `Vector2` and `Angle`, and its text is truncated and does not compile.
- `algorithms.hpp` holds no pathfinding code, so no grid search is modelled.
