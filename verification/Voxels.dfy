/** The edge node's deterministic processing
    (ros2/src/mec_cast_edge/mec_cast_edge/edge_node.py): the occupied voxels of
    a cloud, over reals, before and after the point-cloud codec quantises it. */
module Voxels {
  import opened Sorting

  const VOXEL_SIZE: real := 0.5

  datatype Point = Point(x: real, y: real, z: real)

  datatype Voxel = Voxel(i: int, j: int, k: int)

  function Cell(x: real, size: real): int
    requires 0.0 < size
  {
    (x / size).Floor
  }

  function VoxelOf(p: Point, size: real): Voxel
    requires 0.0 < size
  {
    Voxel(Cell(p.x, size), Cell(p.y, size), Cell(p.z, size))
  }

  predicate VoxelLe(a: Voxel, b: Voxel) {
    a.i < b.i || (a.i == b.i && (a.j < b.j || (a.j == b.j && a.k <= b.k)))
  }

  lemma VoxelOrder()
    ensures TotalPreorder(VoxelLe) && Antisymmetric(VoxelLe)
  {
  }

  /** A voxel is the cube of the given size that holds the point: its lower
      corner is not above the point, and its upper corner is. */
  lemma VoxelMeans(p: Point, size: real, v: Voxel)
    requires 0.0 < size
    ensures VoxelOf(p, size) == v <==>
      && v.i as real * size <= p.x < (v.i + 1) as real * size
      && v.j as real * size <= p.y < (v.j + 1) as real * size
      && v.k as real * size <= p.z < (v.k + 1) as real * size
  {
    CellBounds(p.x, size, v.i);
    CellBounds(p.y, size, v.j);
    CellBounds(p.z, size, v.k);
  }

  /** Rows are ordered by their first number, then the second, then the third. */
  lemma VoxelOrderMeans(a: Voxel, b: Voxel)
    ensures VoxelLe(a, b) <==> a.i <= b.i && (a.i == b.i ==> a.j <= b.j && (a.j == b.j ==> a.k <= b.k))
  {
  }

  /** Each of a run of equals once. */
  function Dedup(s: seq<Voxel>): seq<Voxel> {
    if |s| < 2 then s
    else
      var init := Dedup(s[..|s| - 1]);
      if s[|s| - 1] == s[|s| - 2] then init else init + [s[|s| - 1]]
  }

  /** `np.unique(..., axis=0)`: sorted rows, each once. */
  function Unique(s: seq<Voxel>): seq<Voxel> {
    Dedup(Sort(VoxelLe, s))
  }

  function VoxelsOfPoints(cloud: seq<Point>, size: real): seq<Voxel>
    requires 0.0 < size
  {
    seq(|cloud|, i requires 0 <= i < |cloud| => VoxelOf(cloud[i], size))
  }

  /** The voxel part of `process_cloud`. */
  function OccupiedVoxels(cloud: seq<Point>, size: real): seq<Voxel>
    requires 0.0 < size
  {
    Unique(VoxelsOfPoints(cloud, size))
  }

  // ----- Sorted lists without repeats are sets -----

  ghost predicate StrictlySorted(s: seq<Voxel>) {
    forall i, j :: 0 <= i < j < |s| ==> VoxelLe(s[i], s[j]) && s[i] != s[j]
  }

  ghost predicate SameMembers(a: seq<Voxel>, b: seq<Voxel>) {
    forall v :: v in a <==> v in b
  }

  lemma {:induction false} DedupKeeps(s: seq<Voxel>)
    requires Sorted(VoxelLe, s)
    ensures StrictlySorted(Dedup(s)) && SameMembers(Dedup(s), s)
    ensures s != [] ==> Dedup(s) != [] && Dedup(s)[|Dedup(s)| - 1] == s[|s| - 1]
  {
    if |s| >= 2 {
      var init, last := s[..|s| - 1], s[|s| - 1];
      assert s == init + [last];
      DedupKeeps(init);
      var d := Dedup(init);
      if last != s[|s| - 2] {
        forall i | 0 <= i < |d| ensures VoxelLe(d[i], last) && d[i] != last {
          assert VoxelLe(d[i], d[|d| - 1]) && VoxelLe(s[|s| - 2], s[|s| - 1]);
        }
      }
    }
  }

  lemma UniqueKeeps(s: seq<Voxel>)
    ensures StrictlySorted(Unique(s)) && SameMembers(Unique(s), s)
  {
    VoxelOrder();
    SortSorts(VoxelLe, s);
    DedupKeeps(Sort(VoxelLe, s));
    forall v ensures v in Sort(VoxelLe, s) <==> v in s {
      assert v in Sort(VoxelLe, s) <==> v in multiset(Sort(VoxelLe, s));
      assert v in s <==> v in multiset(s);
    }
  }

  lemma LastOfStrict(a: seq<Voxel>, b: seq<Voxel>)
    requires StrictlySorted(a) && StrictlySorted(b) && SameMembers(a, b) && a != []
    ensures b != [] && a[|a| - 1] == b[|b| - 1]
  {
    assert a[|a| - 1] in b;
    assert b[|b| - 1] in a;
    var i :| 0 <= i < |b| && b[i] == a[|a| - 1];
    var j :| 0 <= j < |a| && a[j] == b[|b| - 1];
    LastIsAbove(b, i);
    LastIsAbove(a, j);
  }

  lemma LastIsAbove(s: seq<Voxel>, i: int)
    requires StrictlySorted(s) && 0 <= i < |s|
    ensures VoxelLe(s[i], s[|s| - 1])
  {
  }

  lemma {:induction false} StrictIsUnique(a: seq<Voxel>, b: seq<Voxel>)
    requires StrictlySorted(a) && StrictlySorted(b) && SameMembers(a, b)
    ensures a == b
  {
    if a == [] {
      assert forall i :: 0 <= i < |b| ==> b[i] in a;
    } else {
      LastOfStrict(a, b);
      var x, y := a[..|a| - 1], b[..|b| - 1];
      assert a == x + [a[|a| - 1]] && b == y + [a[|a| - 1]];
      forall v ensures v in x <==> v in y {
        assert v in x ==> v in a && v != a[|a| - 1];
        assert v in y ==> v in b && v != a[|a| - 1];
      }
      StrictIsUnique(x, y);
    }
  }

  /** The occupied voxels are the one strictly sorted list of the cells that
      hold a point. */
  lemma OccupiedIsCanonical(cloud: seq<Point>, size: real, u: seq<Voxel>)
    requires 0.0 < size
    requires StrictlySorted(u)
    requires forall v :: v in u <==> exists i :: 0 <= i < |cloud| && VoxelOf(cloud[i], size) == v
    ensures OccupiedVoxels(cloud, size) == u
  {
    var s := VoxelsOfPoints(cloud, size);
    UniqueKeeps(s);
    forall v ensures v in Unique(s) <==> v in u {
      if v in s {
        var i :| 0 <= i < |s| && s[i] == v;
        assert VoxelOf(cloud[i], size) == v;
      }
      if v in u {
        var i :| 0 <= i < |cloud| && VoxelOf(cloud[i], size) == v;
        assert s[i] == v;
      }
    }
    StrictIsUnique(Unique(s), u);
  }

  // ----- Quantisation -----

  /** The codec's truncation to a step, relative to an origin. */
  function Quantise(x: real, step: real, origin: real): real
    requires 0.0 < step
  {
    origin + Floored(Displacement(x, origin), step)
  }

  function Displacement(x: real, origin: real): real { x - origin }

  function Floored(y: real, step: real): real
    requires 0.0 < step
  {
    Cell(y, step) as real * step
  }

  /** Quantising cuts down to the last of the steps counted from the origin. */
  lemma QuantiseMeans(x: real, step: real, origin: real)
    requires 0.0 < step
    ensures exists n: int :: QuantisedAt(x, step, origin, n)
  {
    var n := Cell(Displacement(x, origin), step);
    CellBounds(Displacement(x, origin), step, n);
    NextStep(n, step);
    assert QuantisedAt(x, step, origin, n);
  }

  lemma NextStep(n: int, step: real)
    ensures (n + 1) as real * step == n as real * step + step
  {
  }

  ghost predicate QuantisedAt(x: real, step: real, origin: real, n: int)
    requires 0.0 < step
  {
    var q := Quantise(x, step, origin);
    q == origin + n as real * step && q <= x < q + step
  }

  /** A length of a whole number of steps, in either direction. */
  predicate Divides(step: real, length: real)
    requires 0.0 < step
  {
    Floored(length, step) == length
  }

  lemma WholeDivides(step: real, n: int, length: real)
    requires 0.0 < step && length == n as real * step
    ensures Divides(step, length) && Cell(length, step) == n
  {
    ScaleStrict(n as real, (n + 1) as real, step);
    CellBounds(length, step, n);
  }

  lemma Quotient(x: real, size: real) returns (q: real)
    requires 0.0 < size
    ensures q * size == x && Cell(x, size) == q.Floor
  {
    q := x / size;
  }

  lemma Scaled(a: real, q: real, size: real, x: real)
    requires 0.0 < size && q * size == x
    ensures a <= q <==> a * size <= x
  {
  }

  lemma CellBounds(x: real, size: real, n: int)
    requires 0.0 < size
    ensures Cell(x, size) == n <==> n as real * size <= x < (n + 1) as real * size
  {
    var q := Quotient(x, size);
    var a, b := n as real, (n + 1) as real;
    Scaled(a, q, size, x);
    Scaled(b, q, size, x);
    assert b == a + 1.0;
    assert q.Floor == n <==> a <= q < b;
  }

  lemma Scale(a: real, b: real, c: real)
    requires a <= b && 0.0 < c
    ensures a * c <= b * c
  {
  }

  lemma ScaleStrict(a: real, b: real, c: real)
    requires a < b && 0.0 < c
    ensures a * c < b * c
  {
  }

  /** Flooring to a finer grid first does not move a point to another cell. */
  lemma NestedCells(y: real, step: real, k: int, size: real)
    requires 0.0 < step && 0.0 < size && 1 <= k && size == k as real * step
    ensures Cell(Floored(y, step), size) == Cell(y, size)
  {
    var n, floored := Cell(y, step), Floored(y, step);
    var m := n / k;
    Bracket(n, k, m);
    CellBounds(y, step, n);
    StepsInCells(m, k, n, step, size);
    CellsInSteps(m + 1, k, n + 1, step, size);
    FlooredBetween(m, n, y, step, size, floored);
  }

  lemma FlooredBetween(m: int, n: int, y: real, step: real, size: real, floored: real)
    requires 0.0 < size && floored == n as real * step && m as real * size <= floored
    requires floored <= y < (n + 1) as real * step && (n + 1) as real * step <= (m + 1) as real * size
    ensures Cell(floored, size) == m == Cell(y, size)
  {
    CellBounds(y, size, m);
    CellBounds(floored, size, m);
  }

  lemma Bracket(n: int, k: int, m: int)
    requires 1 <= k && m == n / k
    ensures m * k <= n && n + 1 <= (m + 1) * k
  {
  }

  /** `m` cells of `k` steps each end no later than `n` steps. */
  lemma StepsInCells(m: int, k: int, n: int, step: real, size: real)
    requires 0.0 < step && size == k as real * step && m * k <= n
    ensures m as real * size <= n as real * step
  {
    Whole(m, k, step, size);
    IntScale(m * k, n, step);
  }

  /** And no sooner. */
  lemma CellsInSteps(m: int, k: int, n: int, step: real, size: real)
    requires 0.0 < step && size == k as real * step && n <= m * k
    ensures n as real * step <= m as real * size
  {
    Whole(m, k, step, size);
    IntScale(n, m * k, step);
  }

  lemma IntScale(a: int, b: int, c: real)
    requires a <= b && 0.0 < c
    ensures a as real * c <= b as real * c
  {
    Scale(a as real, b as real, c);
  }

  lemma Whole(m: int, k: int, step: real, size: real)
    requires size == k as real * step
    ensures m as real * size == (m * k) as real * step
  {
    RealProduct(m, k);
    Regroup(m as real, k as real, step);
  }

  lemma RealProduct(m: int, k: int)
    ensures (m * k) as real == m as real * k as real
  {
  }

  lemma Regroup(a: real, b: real, c: real)
    ensures a * (b * c) == (a * b) * c
  {
  }

  /** Cells are counted from any grid point: `origin` is the `o`-th, `y` the
      distance from it. */
  lemma CellShift(x: real, size: real, o: int, origin: real, y: real)
    requires 0.0 < size && origin == o as real * size && x == origin + y
    ensures Cell(x, size) == o + Cell(y, size)
  {
    var n := Cell(y, size);
    CellBounds(y, size, n);
    CellBounds(x, size, o + n);
    assert (o + n) as real * size == origin + n as real * size;
    assert (o + n + 1) as real * size == origin + (n + 1) as real * size;
  }

  lemma StepsPerCell(step: real, size: real) returns (k: int)
    requires 0.0 < step && 0.0 < size && Divides(step, size)
    ensures 1 <= k && size == k as real * step
  {
    k := Cell(size, step);
    if k <= 0 {
      Scale(k as real, 0.0, step);
    }
  }

  /** From an origin on the step's own grid, quantising is flooring to it. */
  lemma QuantiseIsFlooring(x: real, step: real, origin: real)
    requires 0.0 < step && Divides(step, origin)
    ensures Quantise(x, step, origin) == Floored(x, step)
  {
    var o, y := Cell(origin, step), Displacement(x, origin);
    CellShift(x, step, o, origin, y);
    var n := Cell(y, step);
    assert (o + n) as real * step == o as real * step + n as real * step;
  }

  /** A step that divides the size, from an origin on its grid, moves no
      coordinate to another voxel, on either side of the origin. */
  lemma QuantiseKeepsCell(x: real, step: real, size: real, origin: real)
    requires 0.0 < step && 0.0 < size && Divides(step, size) && Divides(step, origin)
    ensures Cell(Quantise(x, step, origin), size) == Cell(x, size)
  {
    var k := StepsPerCell(step, size);
    QuantiseIsFlooring(x, step, origin);
    NestedCells(x, step, k, size);
  }

  /** A voxel boundary keeps its voxel only where it is a whole number of steps
      from the origin. */
  lemma BoundaryOnGrid(m: int, x: real, step: real, size: real, origin: real)
    requires 0.0 < step && 0.0 < size && x == m as real * size
    requires Cell(Quantise(x, step, origin), size) == Cell(x, size)
    ensures x - origin == Cell(Displacement(x, origin), step) as real * step
  {
    ScaleStrict(m as real, (m + 1) as real, size);
    CellBounds(x, size, m);
    CellBounds(Quantise(x, step, origin), size, m);
    CellBounds(Displacement(x, origin), step, Cell(Displacement(x, origin), step));
  }

  /** So voxels survive quantisation for every coordinate exactly when the step
      divides both the voxel size and the origin. */
  lemma VoxelsSurviveExactly(step: real, size: real, origin: real)
    requires 0.0 < step && 0.0 < size
    ensures Survives(step, size, origin) <==> Divides(step, size) && Divides(step, origin)
  {
    if Divides(step, size) && Divides(step, origin) {
      forall x: real ensures Cell(Quantise(x, step, origin), size) == Cell(x, size) {
        QuantiseKeepsCell(x, step, size, origin);
      }
    }
    if Survives(step, size, origin) {
      var a, b := Cell(Displacement(0.0, origin), step), Cell(Displacement(size, origin), step);
      SurvivalDivides(step, size, origin, a, b);
    }
  }

  ghost predicate Survives(step: real, size: real, origin: real)
    requires 0.0 < step && 0.0 < size
  {
    forall x: real :: Cell(Quantise(x, step, origin), size) == Cell(x, size)
  }

  lemma SurvivalDivides(step: real, size: real, origin: real, a: int, b: int)
    requires 0.0 < step && 0.0 < size && Survives(step, size, origin)
    requires a == Cell(Displacement(0.0, origin), step) && b == Cell(Displacement(size, origin), step)
    ensures Divides(step, size) && Divides(step, origin)
  {
    BoundaryOnGrid(0, 0.0, step, size, origin);
    BoundaryOnGrid(1, size, step, size, origin);
    assert (-a) as real * step == -(a as real * step);
    WholeDivides(step, -a, origin);
    assert (b - a) as real * step == b as real * step - a as real * step;
    WholeDivides(step, b - a, size);
  }

  /** The encoder's origin is the requested one, floored to the step, so for it
      the step's dividing the voxel size is the whole condition. */
  lemma EncoderOriginOnGrid(step: real, size: real, requested: real)
    requires 0.0 < step && 0.0 < size
    ensures Survives(step, size, Floored(requested, step)) <==> Divides(step, size)
  {
    WholeDivides(step, Cell(requested, step), Floored(requested, step));
    VoxelsSurviveExactly(step, size, Floored(requested, step));
  }

  // ----- The edge node's check -----

  const TOLERANCE: real := 0.000001

  function Distance(a: real, b: real): real { if a <= b then b - a else a - b }

  /** Steps to a voxel; none for a precision that is no length. */
  function StepsToVoxel(precision: real): real {
    if precision > 0.0 then VOXEL_SIZE / precision else 0.0
  }

  /** How far the steps are from the nearest whole number. */
  function FromWhole(steps: real): real { Distance(steps, (steps + 0.5).Floor as real) }

  /** `abs(steps - round(steps)) > 1e-6` */
  predicate Warned(precision: real) { FromWhole(StepsToVoxel(precision)) > TOLERANCE }

  function FromNumber(x: real, n: int): real {
    if n as real <= x then x - n as real else n as real - x
  }

  ghost predicate FarFromWhole(x: real) {
    forall n :: FromNumber(x, n) > 0.000001
  }

  /** Warned of exactly is a step of which a half metre holds no whole number,
      to a millionth; a precision that is no length is not warned of. */
  lemma WarnedMeans(precision: real)
    ensures precision <= 0.0 ==> !Warned(precision)
    ensures precision > 0.0 ==>
      (Warned(precision) <==> FarFromWhole(0.5 / precision))
  {
    if precision <= 0.0 {
      assert (0.0 + 0.5).Floor == 0;
    } else {
      var steps := 0.5 / precision;
      NearestIsNearest(steps);
      if FarFromWhole(steps) {
        assert FromNumber(steps, (steps + 0.5).Floor) > 0.000001;
      }
    }
  }

  lemma NearestIsNearest(steps: real)
    ensures forall n :: FromWhole(steps) <= FromNumber(steps, n)
  {
    forall n ensures FromWhole(steps) <= FromNumber(steps, n) {
      NoNearer(steps, (steps + 0.5).Floor, n);
    }
  }

  lemma NoNearer(x: real, m: int, n: int)
    requires m as real <= x + 0.5 < m as real + 1.0
    ensures Distance(x, m as real) <= FromNumber(x, n)
  {
    if n < m {
      assert n as real + 1.0 <= m as real;
    } else if m < n {
      assert m as real + 1.0 <= n as real;
    }
  }

  lemma StepsFill(step: real)
    requires 0.0 < step
    ensures StepsToVoxel(step) * step == VOXEL_SIZE
  {
  }

  lemma WholeSteps(step: real)
    requires 0.0 < step
    ensures Divides(step, VOXEL_SIZE) <==> FromWhole(StepsToVoxel(step)) == 0.0
  {
    StepsFill(step);
    StepsAreWhole(step, StepsToVoxel(step), Cell(VOXEL_SIZE, step));
  }

  lemma StepsAreWhole(step: real, q: real, n: int)
    requires 0.0 < step && q * step == VOXEL_SIZE && n == Cell(VOXEL_SIZE, step)
    ensures Divides(step, VOXEL_SIZE) <==> FromWhole(q) == 0.0
  {
    if FromWhole(q) == 0.0 {
      WholeDivides(step, (q + 0.5).Floor, VOXEL_SIZE);
    }
    if Divides(step, VOXEL_SIZE) {
      SameQuotient(q, n as real, step);
      NearestOfWhole(q, n);
    }
  }

  lemma NearestOfWhole(q: real, n: int)
    requires q == n as real
    ensures FromWhole(q) == 0.0
  {
    FloorIs(q + 0.5, n);
  }

  lemma FloorIs(x: real, n: int)
    requires n as real <= x < (n as real) + 1.0
    ensures x.Floor == n
  {
  }

  lemma SameQuotient(a: real, b: real, step: real)
    requires 0.0 < step && a * step == b * step
    ensures a == b
  {
    assert (a - b) * step == 0.0;
  }

  /** A warning is never for nothing: the voxels of some coordinate differ. No
      warning means they survive, or that the steps miss a whole number by less
      than the tolerance. */
  lemma WarningMeans(step: real, requested: real)
    requires 0.0 < step
    ensures var survives := Survives(step, VOXEL_SIZE, Floored(requested, step));
      && (Warned(step) ==> !survives)
      && (!Warned(step) ==> (survives <==> !(0.0 < FromWhole(StepsToVoxel(step)) <= TOLERANCE)))
  {
    EncoderOriginOnGrid(step, VOXEL_SIZE, requested);
    WholeSteps(step);
  }

  /** The tolerance does let a step through that moves voxels: one that falls
      short of the voxel size by half a millionth. */
  lemma ToleranceHides()
    ensures var step := 1.0 / 2.000001;
      !Warned(step) && !Divides(step, VOXEL_SIZE)
  {
  }

  function QuantisePoint(p: Point, step: real, origin: Point): Point
    requires 0.0 < step
  {
    Point(Quantise(p.x, step, origin.x), Quantise(p.y, step, origin.y), Quantise(p.z, step, origin.z))
  }

  /** A decoded cloud: the quantised points, in any order, repeats merged or
      not. */
  ghost predicate IsDecoded(cloud: seq<Point>, decoded: seq<Point>, step: real, origin: Point)
    requires 0.0 < step
  {
    && (forall i :: 0 <= i < |cloud| ==> QuantisePoint(cloud[i], step, origin) in decoded)
    && (forall p :: p in decoded ==> exists i :: 0 <= i < |cloud| && QuantisePoint(cloud[i], step, origin) == p)
  }

  predicate OnGrid(origin: Point, step: real)
    requires 0.0 < step
  {
    Divides(step, origin.x) && Divides(step, origin.y) && Divides(step, origin.z)
  }

  lemma QuantiseKeepsVoxel(p: Point, step: real, size: real, origin: Point)
    requires 0.0 < step && 0.0 < size && Divides(step, size) && OnGrid(origin, step)
    ensures VoxelOf(QuantisePoint(p, step, origin), size) == VoxelOf(p, size)
  {
    QuantiseKeepsCell(p.x, step, size, origin.x);
    QuantiseKeepsCell(p.y, step, size, origin.y);
    QuantiseKeepsCell(p.z, step, size, origin.z);
  }

  /** The edge computes the same voxel list from the coded cloud as from the
      uncoded one. */
  lemma CodingKeepsVoxels(cloud: seq<Point>, decoded: seq<Point>, step: real, size: real, origin: Point)
    requires 0.0 < step && 0.0 < size && Divides(step, size) && OnGrid(origin, step)
    requires IsDecoded(cloud, decoded, step, origin)
    ensures OccupiedVoxels(decoded, size) == OccupiedVoxels(cloud, size)
  {
    var u := OccupiedVoxels(cloud, size);
    UniqueKeeps(VoxelsOfPoints(cloud, size));
    forall v ensures v in u <==> exists i :: 0 <= i < |decoded| && VoxelOf(decoded[i], size) == v {
      if v in u {
        assert v in VoxelsOfPoints(cloud, size);
        var i :| 0 <= i < |cloud| && VoxelOf(cloud[i], size) == v;
        QuantiseKeepsVoxel(cloud[i], step, size, origin);
        var j :| 0 <= j < |decoded| && decoded[j] == QuantisePoint(cloud[i], step, origin);
        assert VoxelOf(decoded[j], size) == v;
      }
      if j :| 0 <= j < |decoded| && VoxelOf(decoded[j], size) == v {
        assert decoded[j] in decoded;
        var i :| 0 <= i < |cloud| && QuantisePoint(cloud[i], step, origin) == decoded[j];
        QuantiseKeepsVoxel(cloud[i], step, size, origin);
        assert VoxelsOfPoints(cloud, size)[i] == v;
      }
    }
    OccupiedIsCanonical(decoded, size, u);
  }

  // ----- The downlink -----

  function Centre(v: Voxel, size: real): Point {
    Point((v.i as real + 0.5) * size, (v.j as real + 0.5) * size, (v.k as real + 0.5) * size)
  }

  /** A centre is as far from the lower corner of its voxel as from the upper. */
  lemma CentreMeans(v: Voxel, size: real)
    ensures var c := Centre(v, size);
      && c.x - v.i as real * size == v.i as real * size + size - c.x
      && c.y - v.j as real * size == v.j as real * size + size - c.y
      && c.z - v.k as real * size == v.k as real * size + size - c.z
  {
  }

  /** `voxel_centres` */
  function VoxelCentres(voxels: seq<Voxel>, size: real): seq<Point> {
    seq(|voxels|, i requires 0 <= i < |voxels| => Centre(voxels[i], size))
  }

  lemma CentreInCell(n: int, size: real, c: real)
    requires 0.0 < size && c == (n as real + 0.5) * size
    ensures Cell(c, size) == n
  {
    CellBounds(c, size, n);
    Scale(n as real, n as real + 0.5, size);
    ScaleStrict(n as real + 0.5, (n + 1) as real, size);
  }

  lemma CentreInVoxel(v: Voxel, size: real)
    requires 0.0 < size
    ensures VoxelOf(Centre(v, size), size) == v
  {
    var c := Centre(v, size);
    CentreInCell(v.i, size, c.x);
    CentreInCell(v.j, size, c.y);
    CentreInCell(v.k, size, c.z);
  }

  /** Voxelising the centres of a voxel list gives the list back, so the
      returned cloud carries the result and nothing else. */
  lemma CentresReadBack(voxels: seq<Voxel>, size: real)
    requires 0.0 < size && StrictlySorted(voxels)
    ensures OccupiedVoxels(VoxelCentres(voxels, size), size) == voxels
  {
    var cloud := VoxelCentres(voxels, size);
    forall i | 0 <= i < |cloud| ensures VoxelOf(cloud[i], size) == voxels[i] {
      CentreInVoxel(voxels[i], size);
    }
    OccupiedIsCanonical(cloud, size, voxels);
  }

  /** In particular for what `process_cloud` returns, whatever the cloud. */
  lemma ResultReadsBack(cloud: seq<Point>)
    ensures VOXEL_SIZE == 0.5
    ensures var u := OccupiedVoxels(cloud, VOXEL_SIZE);
      OccupiedVoxels(VoxelCentres(u, VOXEL_SIZE), VOXEL_SIZE) == u
  {
    UniqueKeeps(VoxelsOfPoints(cloud, VOXEL_SIZE));
    CentresReadBack(OccupiedVoxels(cloud, VOXEL_SIZE), VOXEL_SIZE);
  }
}
