/**
 * The integer part of `perlin_noise::raw_noise`: the lattice cell of the
 * sample point and the chain of table lookups that hashes its eight corners.
 * The floating-point interpolation around it is not part of this module.
 */
module Lattice {
  import opened MachineInts

  /**
   * `n & 255` on a two's complement `int32`: the low eight bits of the bit
   * pattern. For a negative `n` this is the non-negative residue, not the
   * truncated remainder C++'s `%` would give.
   */
  function Mask(n: int32): (r: int)
    ensures 0 <= r < 256
    ensures r == (n as int) % 256
  {
    var u := TwosComplement(n);
    LowByteOfPattern(n as int, u);
    u % 256
  }

  /** The lattice coordinates `X`, `Y`, `Z` and the six intermediate hashes. */
  datatype Indices = Indices(X: int, Y: int, Z: int, A: int, AA: int, AB: int, B: int, BA: int, BB: int)
  {
    /** Every index `raw_noise` reads the table at (the `+ 1` ones included) is below 512. */
    predicate InTable() {
      0 <= X && X + 1 < 512 &&
      0 <= A && A + 1 < 512 && 0 <= B && B + 1 < 512 &&
      0 <= AA && AA + 1 < 512 && 0 <= AB && AB + 1 < 512 &&
      0 <= BA && BA + 1 < 512 && 0 <= BB && BB + 1 < 512
    }
  }

  /**
   * The hashes `grad` receives for the eight corners of the cell; the name
   * gives the offsets in x, y, z (`a` = 0, `b` = 1).
   */
  datatype Corners = Corners(aaa: uint8, baa: uint8, aba: uint8, bba: uint8,
                             aab: uint8, bab: uint8, abb: uint8, bbb: uint8)

  /**
   * The index chain of `raw_noise` over a table of any 512 bytes. Whatever the
   * bytes, every index stays inside the table: entries are at most 255 and so
   * are `X`, `Y`, `Z`, so each sum is at most 510.
   */
  function ChainIndices(t: seq<uint8>, x: int32, y: int32, z: int32): (ix: Indices)
    requires |t| == 512
    ensures ix.InTable()
    ensures 0 <= ix.X < 256 && 0 <= ix.Y < 256 && 0 <= ix.Z < 256
  {
    var X, Y, Z := Mask(x), Mask(y), Mask(z);
    var A := t[X] as int + Y;
    var AA, AB := t[A] as int + Z, t[A + 1] as int + Z;
    var B := t[X + 1] as int + Y;
    var BA, BB := t[B] as int + Z, t[B + 1] as int + Z;
    Indices(X, Y, Z, A, AA, AB, B, BA, BB)
  }

  /** The eight table reads at the corner indices of a chain. */
  function ReadCorners(t: seq<uint8>, ix: Indices): Corners
    requires |t| == 512 && ix.InTable()
  {
    Corners(t[ix.AA], t[ix.BA], t[ix.AB], t[ix.BB],
            t[ix.AA + 1], t[ix.BA + 1], t[ix.AB + 1], t[ix.BB + 1])
  }

  /**
   * The corner hashes `raw_noise` passes to `grad`, read from the table. The
   * reads are in bounds for any 512 bytes; on a mirrored table they are the
   * wrapped hashes of the cell's corners over the first half.
   */
  function CornerHashes(t: seq<uint8>, x: int32, y: int32, z: int32): (c: Corners)
    requires |t| == 512
    ensures Mirrored(t) ==> c == WrappedCorners(t[..256], x as int, y as int, z as int)
  {
    var c := ReadCorners(t, ChainIndices(t, x, y, z));
    if Mirrored(t) then CornersAreWrappedHashes(t, x, y, z); c else c
  }

  /**
   * The textbook Perlin hash of lattice point (i, j, k) over a 256-entry
   * permutation, with every index wrapped modulo 256 instead of read from a
   * doubled table.
   */
  function WrappedHash(perm: seq<uint8>, i: int, j: int, k: int): uint8
    requires |perm| == 256
  {
    perm[(perm[(perm[i % 256] as int + j) % 256] as int + k) % 256]
  }

  /** The wrapped hashes of the eight corners of cell (i, j, k), in `Corners` order. */
  function WrappedCorners(perm: seq<uint8>, i: int, j: int, k: int): Corners
    requires |perm| == 256
  {
    Corners(WrappedHash(perm, i, j, k), WrappedHash(perm, i + 1, j, k),
            WrappedHash(perm, i, j + 1, k), WrappedHash(perm, i + 1, j + 1, k),
            WrappedHash(perm, i, j, k + 1), WrappedHash(perm, i + 1, j, k + 1),
            WrappedHash(perm, i, j + 1, k + 1), WrappedHash(perm, i + 1, j + 1, k + 1))
  }

  /** A table whose second half repeats its first half. */
  predicate Mirrored(t: seq<uint8>) {
    |t| == 512 && t[256..] == t[..256]
  }

  lemma MirrorAt(t: seq<uint8>, k: int)
    requires Mirrored(t) && 0 <= k < 512
    ensures t[k] == t[k % 256]
  {
    if k >= 256 {
      assert t[k] == t[256..][k - 256];
    }
  }

  /**
   * On a mirrored table the doubled-table lookups of `raw_noise` compute the
   * wrapped hash of each corner of the cell over the table's first half.
   */
  lemma CornersAreWrappedHashes(t: seq<uint8>, x: int32, y: int32, z: int32)
    requires Mirrored(t)
    ensures ReadCorners(t, ChainIndices(t, x, y, z)) == WrappedCorners(t[..256], x as int, y as int, z as int)
  {
    Corner(t, x, y, z, 0, 0, 0);
    Corner(t, x, y, z, 1, 0, 0);
    Corner(t, x, y, z, 0, 1, 0);
    Corner(t, x, y, z, 1, 1, 0);
    Corner(t, x, y, z, 0, 0, 1);
    Corner(t, x, y, z, 1, 0, 1);
    Corner(t, x, y, z, 0, 1, 1);
    Corner(t, x, y, z, 1, 1, 1);
  }

  /** The corner hash at offsets (dx, dy, dz), each 0 or 1. */
  function CornerAt(c: Corners, dx: int, dy: int, dz: int): uint8 {
    match (dx, dy, dz)
    case (0, 0, 0) => c.aaa
    case (1, 0, 0) => c.baa
    case (0, 1, 0) => c.aba
    case (1, 1, 0) => c.bba
    case (0, 0, 1) => c.aab
    case (1, 0, 1) => c.bab
    case (0, 1, 1) => c.abb
    case _ => c.bbb
  }

  /** One corner of `CornersAreWrappedHashes`, picked by its offsets. */
  lemma Corner(t: seq<uint8>, x: int32, y: int32, z: int32, dx: int, dy: int, dz: int)
    requires Mirrored(t) && 0 <= dx <= 1 && 0 <= dy <= 1 && 0 <= dz <= 1
    ensures CornerAt(ReadCorners(t, ChainIndices(t, x, y, z)), dx, dy, dz)
         == WrappedHash(t[..256], x as int + dx, y as int + dy, z as int + dz)
  {
    var X, Y, Z := x as int, y as int, z as int;
    var ix := ChainIndices(t, x, y, z);
    assert ix.A == t[X % 256] as int + Y % 256 && ix.B == t[X % 256 + 1] as int + Y % 256;
    Chain(t, X, Y, Z, dx, dy, dz);
  }

  /** One corner: three chained lookups at masked offsets give the wrapped hash. */
  lemma Chain(t: seq<uint8>, X: int, Y: int, Z: int, dx: int, dy: int, dz: int)
    requires Mirrored(t) && 0 <= dx <= 1 && 0 <= dy <= 1 && 0 <= dz <= 1
    ensures var i := t[X % 256 + dx] as int + Y % 256 + dy;
      0 <= i < 512 && 0 <= t[i] as int + Z % 256 + dz < 512 &&
      t[t[i] as int + Z % 256 + dz] == WrappedHash(t[..256], X + dx, Y + dy, Z + dz)
  {
    At(t, 0, X, dx);
    var v1 := t[X % 256 + dx];
    At(t, v1 as int, Y, dy);
    var v2 := t[v1 as int + Y % 256 + dy];
    At(t, v2 as int, Z, dz);
  }

  /** A lookup at a masked offset `a + (j & 255) + d` reads the wrapped entry of `a + j + d`. */
  lemma At(t: seq<uint8>, a: int, j: int, d: int)
    requires Mirrored(t) && 0 <= a + j % 256 + d < 512
    ensures t[a + j % 256 + d] == t[..256][(a + j + d) % 256]
  {
    var i := a + j % 256 + d;
    MirrorAt(t, i);
    ShiftMod(a + j + d, j / 256);
    assert i == (a + j + d) - 256 * (j / 256);
  }

  /**
   * The hashes depend on each coordinate only modulo 256: the corner hashes
   * repeat every 256 units along each axis, whatever bytes the table holds.
   */
  lemma Periodic(t: seq<uint8>, x: int32, y: int32, z: int32, x': int32, y': int32, z': int32)
    requires |t| == 512
    requires (x as int) % 256 == (x' as int) % 256
    requires (y as int) % 256 == (y' as int) % 256
    requires (z as int) % 256 == (z' as int) % 256
    ensures CornerHashes(t, x, y, z) == CornerHashes(t, x', y', z')
  {
  }

  /** Two numbers congruent modulo 2^32 have the same low byte. */
  lemma LowByteOfPattern(n: int, u: int)
    requires (u - n) % 0x1_0000_0000 == 0
    ensures u % 256 == n % 256
  {
    var q := (u - n) / 0x1_0000_0000;
    assert u == n + 256 * (0x100_0000 * q);
    ShiftMod(n, -0x100_0000 * q);
  }

  lemma ShiftMod(w: int, q: int)
    ensures (w - 256 * q) % 256 == w % 256
  {
  }
}
