/** The grid partition of `compute_image_statistics`: the segment size, the number
    of Z bands, the row-major subcube index, and the voxels each subcube reads. */
module Grid {
  import opened Common
  import opened Volumes

  /** Lines 50-52 for one division: the cube edge and the number of bands along Z. */
  datatype Layout = Layout(segment: int, bandsZ: int)

  lemma PositiveDivision(m: int, d: int)
    requires m >= 0 && d > 0
    ensures FloorDiv(m, d) >= 0
    ensures FloorDiv(m, d) == 0 <==> m < d
  {
    var q := FloorDiv(m, d);
    if q < 0 {
      MulMonotone(-1, q, d);
    } else if q >= 1 {
      MulMonotone(q, 1, d);
    }
  }

  lemma NegativeDivision(m: int, d: int)
    requires m >= 0 && d < 0
    ensures FloorDiv(m, d) <= 0
    ensures FloorDiv(m, d) == 0 <==> m == 0
  {
    var q := FloorDiv(m, d);
    if q > 0 {
      MulMonotone(q, 1, -d);
    } else if q < 0 {
      MulMonotone(-q, 1, -d);
    } else {
      assert d * q == 0;
    }
  }

  /** Lines 51-52: `segment_size = min(x, y) // division` and
      `divisions_z = z // segment_size`. Either floor division by zero raises
      ZeroDivisionError: a zero division, or a segment size of zero. */
  function GridLayout(z: nat, x: nat, y: nat, division: int): (r: Result<Layout>)
    ensures r.Err? ==> r.error == ZeroDivision
    ensures division == 0 ==> r.Err?
    ensures division > 0 ==> (r.Err? <==> Min(x, y) < division)
    ensures division < 0 ==> (r.Err? <==> Min(x, y) == 0)
    ensures r.Ok? && division > 0 ==>
              var L := r.value;
              && 1 <= L.segment
              && division * L.segment <= Min(x, y) < division * L.segment + division
              && 0 <= L.bandsZ
              && L.segment * L.bandsZ <= z < L.segment * L.bandsZ + L.segment
    ensures r.Ok? && division < 0 ==> r.value.segment < 0 && r.value.bandsZ <= 0
  {
    if division == 0 then Err(ZeroDivision)
    else
      var seg := FloorDiv(Min(x, y), division);
      if division > 0 then
        PositiveDivision(Min(x, y), division);
        if seg == 0 then Err(ZeroDivision)
        else
          PositiveDivision(z, seg);
          Ok(Layout(seg, FloorDiv(z, seg)))
      else
        NegativeDivision(Min(x, y), division);
        if seg == 0 then Err(ZeroDivision)
        else
          NegativeDivision(z, seg);
          Ok(Layout(seg, FloorDiv(z, seg)))
  }

  /** Line 61: the row-major index of subcube (i, j, k). */
  function SubcubeIndex(i: int, j: int, k: int, d: int): int {
    i * (d * d) + j * d + k
  }

  /** The inverse of `SubcubeIndex`: band along Z, then X, then Y. The same
      decomposition, with the segment size in place of the division, gives the
      position of the n-th voxel of a flattened subcube (numpy's C order). */
  function Cell(n: int, d: int): (int, int, int)
    requires d > 0
  {
    (n / (d * d), (n / d) % d, n % d)
  }

  lemma SquareBound(j: int, k: int, d: int)
    requires 0 <= j < d && 0 <= k < d
    ensures 0 <= j * d + k < d * d
  {
    MulMonotone(d - 1, j, d);
  }

  /** Every (i, j, k) of the loops gets a distinct index below `bands * d * d`,
      from which `Cell` recovers it. */
  lemma IndexToCell(i: int, j: int, k: int, d: int, bands: int)
    requires d > 0 && 0 <= i < bands && 0 <= j < d && 0 <= k < d
    ensures 0 <= SubcubeIndex(i, j, k, d) < bands * (d * d)
    ensures Cell(SubcubeIndex(i, j, k, d), d) == (i, j, k)
  {
    SquareBound(j, k, d);
    OuterDigit(i, j * d + k, d * d, bands);
    InnerDigits(i, j, k, d);
  }

  /** The leading digit of `i * m + r` in base m, and its bound. */
  lemma OuterDigit(i: int, r: int, m: int, bands: int)
    requires m > 0 && 0 <= r < m && 0 <= i < bands
    ensures (i * m + r) / m == i
    ensures 0 <= i * m + r < bands * m
  {
    DivModUnique(i * m + r, m, i, r);
    MulMonotone(bands - 1, i, m);
  }

  /** The two trailing base-d digits of the index. */
  lemma InnerDigits(i: int, j: int, k: int, d: int)
    requires d > 0 && 0 <= j < d && 0 <= k < d
    ensures var n := i * (d * d) + j * d + k;
            (n / d) % d == j && n % d == k
  {
    var n := i * (d * d) + j * d + k;
    Regroup(i, j, k, d);
    DivModUnique(n, d, i * d + j, k);
    DivModUnique(i * d + j, d, i, j);
  }

  lemma Regroup(i: int, j: int, k: int, d: int)
    ensures i * (d * d) + j * d + k == (i * d + j) * d + k
  {
  }

  /** Every index below `bands * d * d` is the index of exactly the cell `Cell`
      names, and that cell lies in the grid. */
  lemma CellToIndex(n: int, d: int, bands: int)
    requires d > 0 && 0 <= n < bands * (d * d)
    ensures var c := Cell(n, d);
            && 0 <= c.0 < bands && 0 <= c.1 < d && 0 <= c.2 < d
            && SubcubeIndex(c.0, c.1, c.2, d) == n
  {
    var q := n / (d * d);
    var r := n % (d * d);
    BandOf(n, d * d, bands);
    BandOf(r, d, d);
    InnerDigits(q, r / d, r % d, d);
  }

  /** The loops emit indices in strictly increasing order: (i, j, k) before
      (i', j', k') in loop order means a smaller index. */
  lemma IndexIncreasing(i: int, j: int, k: int, i': int, j': int, k': int, d: int)
    requires d > 0 && 0 <= j < d && 0 <= k < d && 0 <= j' < d && 0 <= k' < d
    requires i < i' || (i == i' && j < j') || (i == i' && j == j' && k < k')
    ensures SubcubeIndex(i, j, k, d) < SubcubeIndex(i', j', k', d)
  {
    var dd := d * d;
    SquareBound(j, k, d);
    SquareBound(j', k', d);
    if i < i' {
      MulMonotone(i', i + 1, dd);
      assert (i + 1) * dd == i * dd + dd;
    } else if j < j' {
      MulMonotone(j', j + 1, d);
      assert (j + 1) * d == j * d + d;
    }
  }

  /** Subcube (i, j, k) of edge `seg` fits inside the image. */
  predicate Fits(im: Image, seg: int, c: (int, int, int)) {
    && seg > 0 && c.0 >= 0 && c.1 >= 0 && c.2 >= 0
    && (c.0 + 1) * seg <= im.zSize && (c.1 + 1) * seg <= im.xSize && (c.2 + 1) * seg <= im.ySize
  }

  /** The voxel at offset n of subcube c: the cube's corner plus the C-order
      position of n inside a cube of edge `seg`. */
  function VoxelOf(c: (int, int, int), seg: int, n: int): (int, int, int)
    requires seg > 0
  {
    var o := Cell(n, seg);
    (c.0 * seg + o.0, c.1 * seg + o.1, c.2 * seg + o.2)
  }

  /** A voxel of cube c lies in that cube's slab on every axis. */
  predicate InCube(p: (int, int, int), c: (int, int, int), seg: int) {
    && c.0 * seg <= p.0 < (c.0 + 1) * seg
    && c.1 * seg <= p.1 < (c.1 + 1) * seg
    && c.2 * seg <= p.2 < (c.2 + 1) * seg
  }

  lemma VoxelInCube(c: (int, int, int), seg: int, n: int)
    requires seg > 0 && 0 <= n < seg * (seg * seg)
    ensures InCube(VoxelOf(c, seg, n), c, seg)
  {
    CellToIndex(n, seg, seg);
  }

  /** The value at offset n of the flattened subcube c. */
  function VoxelValue(im: Image, seg: int, c: (int, int, int), n: int): (v: real)
    requires Fits(im, seg, c) && 0 <= n < seg * (seg * seg)
    ensures var p := VoxelOf(c, seg, n);
            InCube(p, c, seg) && InBounds(im, p.0, p.1, p.2) && v == At(im, p.0, p.1, p.2)
  {
    VoxelInCube(c, seg, n);
    var p := VoxelOf(c, seg, n);
    assert (c.0 + 1) * seg <= im.zSize && (c.1 + 1) * seg <= im.xSize && (c.2 + 1) * seg <= im.ySize;
    At(im, p.0, p.1, p.2)
  }

  /** Lines 58-60: `im[i*s:(i+1)*s, j*s:(j+1)*s, k*s:(k+1)*s].flatten()`: the
      `seg`^3 voxels of cube c, each read from inside that cube. */
  function Part(im: Image, seg: int, c: (int, int, int)): (part: seq<real>)
    requires Fits(im, seg, c)
    ensures |part| == seg * (seg * seg)
    ensures forall n :: 0 <= n < |part| ==> part[n] == VoxelValue(im, seg, c, n)
  {
    var size := seg * (seg * seg);
    var part := seq(size, n requires 0 <= n < size => VoxelValue(im, seg, c, n));
    assert forall n :: 0 <= n < size ==> part[n] == VoxelValue(im, seg, c, n);
    part
  }

  /** Distinct subcubes read disjoint voxels, and one subcube reads each of its
      voxels once. */
  lemma VoxelsDisjoint(c: (int, int, int), n: int, c': (int, int, int), n': int, seg: int)
    requires seg > 0 && 0 <= n < seg * (seg * seg) && 0 <= n' < seg * (seg * seg)
    requires VoxelOf(c, seg, n) == VoxelOf(c', seg, n')
    ensures c == c' && n == n'
  {
    var o := Cell(n, seg);
    var o' := Cell(n', seg);
    CellToIndex(n, seg, seg);
    CellToIndex(n', seg, seg);
    var p := VoxelOf(c, seg, n);
    DivModUnique(p.0, seg, c.0, o.0);
    DivModUnique(p.0, seg, c'.0, o'.0);
    DivModUnique(p.1, seg, c.1, o.1);
    DivModUnique(p.1, seg, c'.1, o'.1);
    DivModUnique(p.2, seg, c.2, o.2);
    DivModUnique(p.2, seg, c'.2, o'.2);
  }

  /** The grid reads exactly the voxels below `bands*seg` in Z and `d*seg` in X
      and Y: every such voxel is offset n of cube c for some c in the grid, and
      no cube of the grid reads beyond. */
  lemma GridCoverage(a: int, b: int, e: int, seg: int, d: int, bands: int)
    requires seg > 0 && d > 0
    requires 0 <= a < bands * seg && 0 <= b < d * seg && 0 <= e < d * seg
    ensures var c := (a / seg, b / seg, e / seg);
            var n := SubcubeIndex(a % seg, b % seg, e % seg, seg);
            && 0 <= c.0 < bands && 0 <= c.1 < d && 0 <= c.2 < d
            && 0 <= n < seg * (seg * seg)
            && VoxelOf(c, seg, n) == (a, b, e)
  {
    BandOf(a, seg, bands);
    BandOf(b, seg, d);
    BandOf(e, seg, d);
    IndexToCell(a % seg, b % seg, e % seg, seg, seg);
  }

  lemma BandOf(a: int, seg: int, bands: int)
    requires seg > 0 && 0 <= a < bands * seg
    ensures 0 <= a / seg < bands
    ensures a == a / seg * seg + a % seg
  {
    var q := a / seg;
    assert a == q * seg + a % seg;
    if q >= bands {
      MulMonotone(q, bands, seg);
    }
  }

  lemma CubeWithinGrid(c: (int, int, int), seg: int, d: int, bands: int, n: int)
    requires seg > 0 && 0 <= c.0 < bands && 0 <= c.1 < d && 0 <= c.2 < d
    requires 0 <= n < seg * (seg * seg)
    ensures var p := VoxelOf(c, seg, n);
            0 <= p.0 < bands * seg && 0 <= p.1 < d * seg && 0 <= p.2 < d * seg
  {
    VoxelInCube(c, seg, n);
    var p := VoxelOf(c, seg, n);
    AxisWithin(p.0, c.0, seg, bands);
    AxisWithin(p.1, c.1, seg, d);
    AxisWithin(p.2, c.2, seg, d);
  }

  /** A coordinate inside slab c of `bound` slabs lies below `bound * seg`. */
  lemma AxisWithin(p: int, c: int, seg: int, bound: int)
    requires seg > 0 && 0 <= c < bound && c * seg <= p < (c + 1) * seg
    ensures 0 <= p < bound * seg
  {
    MulMonotone(bound, c + 1, seg);
    MulMonotone(c, 0, seg);
  }
}
