/**
 * The cloth object (src/cloth.cpp, class Cloth): its point masses, springs and
 * spatial map are fields that its methods update in place, pass by pass, as
 * the source does. Each method is proved to compute the corresponding
 * function of grid.dfy, dynamics.dfy or spatial_hash.dfy.
 */
module Simulator {
  import opened Vectors
  import opened ClothTypes
  import opened Grid
  import GridProperties
  import opened Dynamics
  import opened SpatialHash

  /** Whether the pinned list names column `j`, row `i`, by a linear search. */
  method FindPin(pinned: seq<(int, int)>, j: int, i: int) returns (pin: bool)
    ensures pin <==> IsPinned(pinned, j, i)
  {
    pin := false;
    var p := 0;
    while p < |pinned|
      invariant 0 <= p <= |pinned|
      invariant pin <==> (j, i) in pinned[..p]
      invariant pin ==> p == |pinned|
    {
      if pinned[p].0 == j && pinned[p].1 == i {
        pin := true;
        assert (j, i) == pinned[..p + 1][p];
        p := |pinned|;
      } else {
        assert pinned[..p + 1] == pinned[..p] + [pinned[p]];
        p := p + 1;
      }
    }
    assert pinned[..|pinned|] == pinned;
  }

  /**
   * The self-collision scan of mass `i` over its bucket: the sum of the
   * corrections from the other masses closer than twice the thickness, and
   * how many there were.
   */
  method ScanBucket(pms: seq<PointMass>, bucket: seq<nat>, i: nat, thickness: real, geo: Geometry)
    returns (correction: Vector3, count: nat)
    requires i < |pms| && EntriesIn(bucket, |pms|)
    ensures Contacts(correction, count) == Scan(pms, bucket, i, thickness, geo, |bucket|)
  {
    correction, count := Zero, 0;
    for n := 0 to |bucket|
      invariant Contacts(correction, count) == Scan(pms, bucket, i, thickness, geo, n)
    {
      var candidate := bucket[n];
      if candidate != i {
        var displacement := pms[candidate].position.Sub(pms[i].position);
        if geo.norm(displacement) < 2.0 * thickness {
          correction := correction.Add(displacement.Sub(geo.unit(displacement).Scale(2.0).Scale(thickness)));
          count := count + 1;
        }
      }
    }
  }

  /** A spring between masses `a` and `b`, its rest length their distance at creation. */
  function SpringBetween(pms: seq<PointMass>, a: int, b: int, kind: SpringType, geo: Geometry): Spring
    requires 0 <= a < |pms| && 0 <= b < |pms|
  {
    Spring(a, b, kind, geo.norm(pms[a].position.Sub(pms[b].position)))
  }

  /** Every spring has as rest length the distance between its ends. */
  ghost predicate RestLengthsFit(pms: seq<PointMass>, springs: seq<Spring>, geo: Geometry)
  {
    forall q :: 0 <= q < |springs| ==>
      && 0 <= springs[q].a < |pms| && 0 <= springs[q].b < |pms|
      && springs[q].restLength == geo.norm(pms[springs[q].a].position.Sub(pms[springs[q].b].position))
  }

  /** Every edge joins two of the `n` masses. */
  ghost predicate EdgesIn(es: seq<Edge>, n: nat)
  {
    forall e :: e in es ==> 0 <= e.a < n && 0 <= e.b < n
  }

  /**
   * The spring for edge `e`, with the current distance between its ends as
   * rest length. An edge whose ends are not both masses gets rest length 0;
   * the builder never creates one (`EdgesIn`).
   */
  function SpringFor(pms: seq<PointMass>, e: Edge, geo: Geometry): Spring
  {
    if 0 <= e.a < |pms| && 0 <= e.b < |pms| then SpringBetween(pms, e.a, e.b, e.kind, geo)
    else Spring(e.a, e.b, e.kind, 0.0)
  }

  /** The springs for the given edges, in their order. */
  function Materialize(pms: seq<PointMass>, es: seq<Edge>, geo: Geometry): seq<Spring>
  {
    seq(|es|, i requires 0 <= i < |es| => SpringFor(pms, es[i], geo))
  }

  /** The masses after the two force passes and Verlet integration. */
  function Moved(pms: seq<PointMass>, springs: seq<Spring>, cp: ClothParameters, accs: seq<Vector3>,
                 geo: Geometry, mass: real, dt: real): (r: seq<PointMass>)
    requires SpringsInRange(springs, |pms|) && mass != 0.0
    ensures |r| == |pms|
  {
    IntegrateAll(ApplySprings(ResetForces(pms, accs, mass), springs, cp, geo), cp.damping, mass, dt)
  }

  /** The masses after self-collision against the spatial map of their own positions. */
  function Separated(moved: seq<PointMass>, boxes: Boxes, thickness: real, steps: real, geo: Geometry): (r: seq<PointMass>)
    requires NonZero(boxes) && steps != 0.0
    ensures |r| == |moved|
  {
    SpatialMapInRange(Keys(moved, boxes));
    SelfCollidePass(moved, SpatialMap(Keys(moved, boxes)), boxes, thickness, steps, geo, |moved|)
  }

  /**
   * The masses after one simulation step: forces, Verlet integration,
   * self-collision against the spatial map of the integrated positions,
   * obstacles, then the constraint pass.
   */
  function Step(pms: seq<PointMass>, springs: seq<Spring>, cp: ClothParameters, accs: seq<Vector3>,
                obstacles: seq<Obstacle>, geo: Geometry, mass: real, dt: real, boxes: Boxes,
                thickness: real, steps: real): (r: seq<PointMass>)
    requires SpringsInRange(springs, |pms|) && mass != 0.0 && NonZero(boxes) && steps != 0.0
    ensures |r| == |pms|
  {
    var separated := Separated(Moved(pms, springs, cp, accs, geo, mass, dt), boxes, thickness, steps, geo);
    ConstrainAll(CollideAll(separated, obstacles), springs, geo)
  }

  class Cloth {
    const width: real
    const height: real
    const numWidthPoints: nat
    const numHeightPoints: nat
    const thickness: real
    const orientation: Orientation
    const pinned: seq<(int, int)>

    var pointMasses: seq<PointMass>
    var springs: seq<Spring>
    var spatialMap: map<int, seq<nat>>

    /** Every spring joins two of the masses. */
    ghost predicate Valid()
      reads this
    {
      Dimensions() && SpringsInRange(springs, |pointMasses|)
    }

    /** The cloth has positive extent and at least one mass along each side. */
    predicate Dimensions()
    {
      width > 0.0 && height > 0.0 && numWidthPoints > 0 && numHeightPoints > 0
    }

    function GridLayout(): (l: Layout)
      ensures l.numWidthPoints == numWidthPoints && l.numHeightPoints == numHeightPoints
    {
      Layout(width, height, numWidthPoints, numHeightPoints, orientation, pinned)
    }

    /** The hash boxes: three mass spacings along x and y, the larger of the two along z. */
    function HashBoxes(): (b: Boxes)
      requires Dimensions()
      ensures NonZero(b)
    {
      BoxesOf(width, height, numWidthPoints, numHeightPoints)
    }

    /**
     * A cloth with the given dimensions, built by the grid builder; `jitter`
     * stands for the random depths of the vertical orientation.
     */
    constructor(width: real, height: real, numWidthPoints: nat, numHeightPoints: nat, thickness: real,
                orientation: Orientation, pinned: seq<(int, int)>, jitter: nat -> real, geo: Geometry)
      requires width > 0.0 && height > 0.0 && numWidthPoints > 0 && numHeightPoints > 0
      ensures this.width == width && this.height == height && this.thickness == thickness
      ensures this.numWidthPoints == numWidthPoints && this.numHeightPoints == numHeightPoints
      ensures this.orientation == orientation && this.pinned == pinned
      ensures Valid()
      ensures pointMasses == GridMasses(GridLayout(), jitter, numHeightPoints)
      ensures EdgesIn(GridSprings(numWidthPoints, numHeightPoints), |pointMasses|)
      ensures springs == Materialize(pointMasses, GridSprings(numWidthPoints, numHeightPoints), geo)
      ensures spatialMap == map[]
    {
      this.width, this.height := width, height;
      this.numWidthPoints, this.numHeightPoints := numWidthPoints, numHeightPoints;
      this.thickness, this.orientation, this.pinned := thickness, orientation, pinned;
      pointMasses, springs, spatialMap := [], [], map[];
      new;
      BuildGrid(jitter, geo);
      EmptyAppend(GridMasses(GridLayout(), jitter, numHeightPoints));
      EmptyAppend(Materialize(pointMasses, GridSprings(numWidthPoints, numHeightPoints), geo));
    }

    // -------------------------------------------------------------------------
    // Grid construction
    // -------------------------------------------------------------------------

    /**
     * Appends the grid's masses row by row, then each mass's springs in the
     * order the builder creates them, each with its current length as rest
     * length.
     */
    method BuildGrid(jitter: nat -> real, geo: Geometry)
      modifies this
      requires Dimensions()
      requires SpringsInRange(springs, |pointMasses|)
      ensures pointMasses == old(pointMasses) + GridMasses(GridLayout(), jitter, numHeightPoints)
      ensures spatialMap == old(spatialMap)
      ensures EdgesIn(GridSprings(numWidthPoints, numHeightPoints), |pointMasses|)
      ensures springs == old(springs) + Materialize(pointMasses, GridSprings(numWidthPoints, numHeightPoints), geo)
      ensures Valid()
    {
      BuildMasses(jitter);
      GridProperties.GridMassesLength(GridLayout(), jitter, numHeightPoints);
      BuildSprings(geo);
    }

    /** The mass-building loops: row by row, column by column. */
    method BuildMasses(jitter: nat -> real)
      modifies this
      requires numWidthPoints > 0 && numHeightPoints > 0
      ensures pointMasses == old(pointMasses) + GridMasses(GridLayout(), jitter, numHeightPoints)
      ensures springs == old(springs) && spatialMap == old(spatialMap)
    {
      var l := GridLayout();
      for i := 0 to numHeightPoints
        invariant pointMasses == old(pointMasses) + GridMasses(l, jitter, i)
        invariant springs == old(springs) && spatialMap == old(spatialMap)
      {
        BuildRowMasses(jitter, i);
        AppendAssoc(old(pointMasses), GridMasses(l, jitter, i), RowMasses(l, jitter, i, numWidthPoints));
      }
    }

    /** The masses of row `i`, column by column. */
    method BuildRowMasses(jitter: nat -> real, i: nat)
      modifies this
      requires numWidthPoints > 0 && numHeightPoints > 0 && i < numHeightPoints
      ensures pointMasses == old(pointMasses) + RowMasses(GridLayout(), jitter, i, numWidthPoints)
      ensures springs == old(springs) && spatialMap == old(spatialMap)
    {
      var l := GridLayout();
      assert old(pointMasses) + RowMasses(l, jitter, i, 0) == old(pointMasses);
      for j := 0 to numWidthPoints
        invariant pointMasses == old(pointMasses) + RowMasses(l, jitter, i, j)
        invariant springs == old(springs) && spatialMap == old(spatialMap)
      {
        var pin := FindPin(pinned, j, i);
        var w := width / numWidthPoints as real;
        var h := height / numHeightPoints as real;
        var pos;
        if orientation == Horizontal {
          pos := Vector3(j as real * w, 1.0, i as real * h);
        } else {
          pos := Vector3(j as real * w, i as real * h, jitter(i * numWidthPoints + j));
        }
        assert NewPointMass(pos, pin) == MassAt(l, jitter, i, j);
        AppendAssoc(old(pointMasses), RowMasses(l, jitter, i, j), [NewPointMass(pos, pin)]);
        pointMasses := pointMasses + [NewPointMass(pos, pin)];
      }
    }

    /** When `c` holds, appends the spring between masses `a` and `b`. */
    method AddSpringIf(c: bool, a: int, b: int, kind: SpringType, geo: Geometry, ghost pms: seq<PointMass>)
      modifies this
      requires pointMasses == pms
      requires c ==> 0 <= a < |pms| && 0 <= b < |pms|
      ensures pointMasses == pms && spatialMap == old(spatialMap)
      ensures springs == old(springs) + Materialize(pms, Opt(c, Edge(a, b, kind)), geo)
    {
      if c {
        springs := springs + [SpringBetween(pointMasses, a, b, kind, geo)];
      }
      assert Materialize(pms, Opt(c, Edge(a, b, kind)), geo) == if c then [SpringBetween(pms, a, b, kind, geo)] else [];
    }

    /** The spring-building loops: for each mass, its candidate springs whose guards hold. */
    method BuildSprings(geo: Geometry)
      modifies this
      requires Dimensions()
      requires |pointMasses| >= numWidthPoints * numHeightPoints
      requires SpringsInRange(springs, |pointMasses|)
      ensures pointMasses == old(pointMasses) && spatialMap == old(spatialMap)
      ensures EdgesIn(GridSprings(numWidthPoints, numHeightPoints), |pointMasses|)
      ensures springs == old(springs) + Materialize(pointMasses, GridSprings(numWidthPoints, numHeightPoints), geo)
      ensures Valid()
    {
      var W := numWidthPoints;
      ghost var pms := pointMasses;
      for h := 0 to numHeightPoints
        invariant pointMasses == pms && spatialMap == old(spatialMap)
        invariant springs == old(springs) + Materialize(pms, GridSprings(W, h), geo)
      {
        BuildRow(h, geo, pms);
        Grow(pms, geo, old(springs), GridSprings(W, h), RowSprings(W, h, W));
      }
      GridIn(W, numHeightPoints, |pms|);
      MaterializeFits(pms, GridSprings(W, numHeightPoints), geo);
      InRangeAppend(old(springs), Materialize(pms, GridSprings(W, numHeightPoints), geo), |pms|);
    }

    /** The springs of row `h`, mass after mass. */
    method BuildRow(h: nat, geo: Geometry, ghost pms: seq<PointMass>)
      modifies this
      requires pointMasses == pms
      requires h < numHeightPoints && |pms| >= numWidthPoints * numHeightPoints
      ensures pointMasses == pms && spatialMap == old(spatialMap)
      ensures springs == old(springs) + Materialize(pms, RowSprings(numWidthPoints, h, numWidthPoints), geo)
    {
      var W := numWidthPoints;
      assert old(springs) + Materialize(pms, RowSprings(W, h, 0), geo) == old(springs);
      for w := 0 to W
        invariant pointMasses == pms && spatialMap == old(spatialMap)
        invariant springs == old(springs) + Materialize(pms, RowSprings(W, h, w), geo)
      {
        var k := h * W + w;
        CellIndex(W, numHeightPoints, h, w, k, |pms|);
        AddCellSprings(h, w, k, geo, pms);
        RowGrowsBy(W, h, w, k);
        Grow(pms, geo, old(springs), RowSprings(W, h, w), SpringsOf(W, h, w, k));
      }
    }

    /**
     * The springs of the mass in row `h`, column `w`, in creation order:
     * structural up and left, shearing up-right and up-left, bending two left
     * and two up.
     */
    method AddCellSprings(h: nat, w: nat, k: nat, geo: Geometry, ghost pms: seq<PointMass>)
      modifies this
      requires pointMasses == pms
      requires w < numWidthPoints && k < |pms| && w <= k
      requires h > 0 ==> k >= numWidthPoints + w
      requires h > 1 ==> k >= 2 * numWidthPoints + w
      ensures pointMasses == pms && spatialMap == old(spatialMap)
      ensures springs == old(springs) + Materialize(pms, SpringsOf(numWidthPoints, h, w, k), geo)
    {
      var W := numWidthPoints;
      // Structural: up, then left.
      AddPairIf(h > 0, Edge(k, k - W, Structural), w > 0, Edge(k, k - 1, Structural), geo, pms);
      // Shearing: up-right, then up-left.
      AddPairIf(h > 0 && w < W - 1, Edge(k, k - W + 1, Shearing), h > 0 && w > 0, Edge(k, k - W - 1, Shearing), geo, pms);
      // Bending: two left, then two up.
      AddPairIf(w > 1, Edge(k, k - 2, Bending), h > 1, Edge(k, k - 2 * W, Bending), geo, pms);
      CellFamilies(pms, geo, old(springs), W, h, w, k,
        Opt(h > 0, Edge(k, k - W, Structural)) + Opt(w > 0, Edge(k, k - 1, Structural)),
        Opt(h > 0 && w < W - 1, Edge(k, k - W + 1, Shearing)) + Opt(h > 0 && w > 0, Edge(k, k - W - 1, Shearing)),
        Opt(w > 1, Edge(k, k - 2, Bending)) + Opt(h > 1, Edge(k, k - 2 * W, Bending)));
    }

    /** The two springs of one family for a mass, each when its guard holds. */
    method AddPairIf(c1: bool, e1: Edge, c2: bool, e2: Edge, geo: Geometry, ghost pms: seq<PointMass>)
      modifies this
      requires pointMasses == pms
      requires c1 ==> 0 <= e1.a < |pms| && 0 <= e1.b < |pms|
      requires c2 ==> 0 <= e2.a < |pms| && 0 <= e2.b < |pms|
      ensures pointMasses == pms && spatialMap == old(spatialMap)
      ensures springs == old(springs) + Materialize(pms, Opt(c1, e1) + Opt(c2, e2), geo)
    {
      AddSpringIf(c1, e1.a, e1.b, e1.kind, geo, pms);
      AddSpringIf(c2, e2.a, e2.b, e2.kind, geo, pms);
      Grow(pms, geo, old(springs), Opt(c1, e1), Opt(c2, e2));
    }

    // -------------------------------------------------------------------------
    // Simulation step
    // -------------------------------------------------------------------------

    /**
     * One simulation step of length 1/fps/steps, with the mass of each point
     * derived from the cloth's area and density. The spatial map is left as
     * built from the integrated positions; the next step rebuilds it.
     */
    method Simulate(fps: real, steps: real, cp: ClothParameters, accs: seq<Vector3>,
                    obstacles: seq<Obstacle>, geo: Geometry)
      modifies this
      requires Valid() && fps != 0.0 && steps != 0.0 && cp.density != 0.0
      ensures Valid() && springs == old(springs)
      ensures spatialMap == SpatialMap(Keys(Moved(old(pointMasses), springs, cp, accs, geo,
        width * height * cp.density / numWidthPoints as real / numHeightPoints as real, 1.0 / fps / steps), HashBoxes()))
      ensures pointMasses == Step(old(pointMasses), springs, cp, accs, obstacles, geo,
        width * height * cp.density / numWidthPoints as real / numHeightPoints as real,
        1.0 / fps / steps, HashBoxes(), thickness, steps)
    {
      var mass := width * height * cp.density / numWidthPoints as real / numHeightPoints as real;
      var dt := 1.0 / fps / steps;
      ComputeExternalForces(accs, mass);
      AccumulateSpringForces(cp, geo);
      IntegrateVerlet(cp.damping, mass, dt);
      BuildSpatialMap();
      SpatialMapInRange(Keys(pointMasses, HashBoxes()));
      SpatialMapContents(Keys(pointMasses, HashBoxes()));
      SelfCollideAll(steps, geo);
      CollideObstacles(obstacles);
      SatisfyConstraints(geo);
    }

    /** The first force pass: each accumulator zeroed, then `a * mass` added for each acceleration. */
    method ComputeExternalForces(accs: seq<Vector3>, mass: real)
      modifies this
      ensures pointMasses == ResetForces(old(pointMasses), accs, mass)
      ensures springs == old(springs) && spatialMap == old(spatialMap)
    {
      ghost var target := ResetForces(pointMasses, accs, mass);
      for i := 0 to |pointMasses|
        invariant |pointMasses| == |old(pointMasses)|
        invariant forall q :: 0 <= q < i ==> pointMasses[q] == target[q]
        invariant forall q :: i <= q < |pointMasses| ==> pointMasses[q] == old(pointMasses)[q]
        invariant springs == old(springs) && spatialMap == old(spatialMap)
      {
        pointMasses := pointMasses[i := pointMasses[i].(forces := Zero)];
        ghost var outer := pointMasses;
        for a := 0 to |accs|
          invariant springs == old(springs) && spatialMap == old(spatialMap)
          invariant |pointMasses| == |outer| && forall q :: 0 <= q < |outer| && q != i ==> pointMasses[q] == outer[q]
          invariant pointMasses[i] == old(pointMasses)[i].(forces := ExternalForce(accs[..a], mass))
        {
          pointMasses := pointMasses[i := pointMasses[i].(forces := pointMasses[i].forces.Add(accs[a].Scale(mass)))];
          assert accs[..a + 1][..a] == accs[..a];
        }
        assert accs[..|accs|] == accs;
      }
    }

    /** The spring-force loop. */
    method AccumulateSpringForces(cp: ClothParameters, geo: Geometry)
      modifies this
      requires SpringsInRange(springs, |pointMasses|)
      ensures springs == old(springs) && spatialMap == old(spatialMap)
      ensures pointMasses == ApplySprings(old(pointMasses), springs, cp, geo)
    {
      for n := 0 to |springs|
        invariant springs == old(springs) && spatialMap == old(spatialMap)
        invariant SpringsInRange(springs[..n], |old(pointMasses)|)
        invariant pointMasses == ApplySprings(old(pointMasses), springs[..n], cp, geo)
      {
        ForceStep(old(pointMasses), springs, n, cp, geo);
        ApplySpringForce(springs[n], cp, geo);
      }
      assert springs[..|springs|] == springs;
    }

    /** One iteration of the spring-force loop. */
    method ApplySpringForce(s: Spring, cp: ClothParameters, geo: Geometry)
      modifies this
      requires EndsIn(pointMasses, s)
      ensures springs == old(springs) && spatialMap == old(spatialMap)
      ensures pointMasses == ApplySpring(old(pointMasses), s, cp, geo)
    {
      if !Enabled(cp, s.kind) {
        return;
      }
      var displacement := pointMasses[s.a].position.Sub(pointMasses[s.b].position);
      var fs := cp.ks * (geo.norm(displacement) - s.restLength);
      assert displacement == Displacement(old(pointMasses), s);
      assert fs == SpringScalar(old(pointMasses), s, cp.ks, geo);
      pointMasses := pointMasses[s.a := pointMasses[s.a].(forces := pointMasses[s.a].forces.Add(displacement.Neg().Scale(fs)))];
      assert pointMasses == Push(old(pointMasses), s.a, displacement.Neg().Scale(fs));
      pointMasses := pointMasses[s.b := pointMasses[s.b].(forces := pointMasses[s.b].forces.Add(displacement.Scale(fs)))];
    }

    /** The Verlet loop; pinned masses are skipped. */
    method IntegrateVerlet(damping: real, mass: real, dt: real)
      modifies this
      requires mass != 0.0
      ensures pointMasses == IntegrateAll(old(pointMasses), damping, mass, dt)
      ensures springs == old(springs) && spatialMap == old(spatialMap)
    {
      ghost var target := IntegrateAll(pointMasses, damping, mass, dt);
      for i := 0 to |pointMasses|
        invariant |pointMasses| == |old(pointMasses)|
        invariant forall q :: 0 <= q < i ==> pointMasses[q] == target[q]
        invariant forall q :: i <= q < |pointMasses| ==> pointMasses[q] == old(pointMasses)[q]
        invariant springs == old(springs) && spatialMap == old(spatialMap)
      {
        var pm := pointMasses[i];
        if !pm.pinned {
          var newPosition := pm.position
            .Add(pm.position.Sub(pm.lastPosition).Scale(1.0 - damping / 100.0))
            .Add(pm.forces.Div(mass).Scale(dt).Scale(dt));
          pointMasses := pointMasses[i := pm.(lastPosition := pm.position, position := newPosition)];
        }
      }
    }

    /** Rebuilds the spatial map: each mass appended to the bucket of its key, creating buckets as needed. */
    method BuildSpatialMap()
      modifies this
      requires Dimensions()
      ensures spatialMap == SpatialMap(Keys(pointMasses, HashBoxes()))
      ensures pointMasses == old(pointMasses) && springs == old(springs)
    {
      var boxes := HashBoxes();
      ghost var keys := Keys(pointMasses, boxes);
      spatialMap := map[];
      for i := 0 to |pointMasses|
        invariant spatialMap == MapOf(keys, i)
        invariant pointMasses == old(pointMasses) && springs == old(springs)
      {
        var hash := HashPosition(boxes, pointMasses[i].position);
        AddToBucket(hash, i);
        MapOfStep(keys, i);
      }
    }

    /** One iteration of the map-building loop: mass `i` joins the bucket of `hash`, created if missing. */
    method AddToBucket(hash: int, i: nat)
      modifies this
      ensures spatialMap == Insert(old(spatialMap), hash, i)
      ensures pointMasses == old(pointMasses) && springs == old(springs)
    {
      if hash !in spatialMap {
        spatialMap := spatialMap[hash := []];
      }
      spatialMap := spatialMap[hash := spatialMap[hash] + [i]];
    }

    /** Self-collision of mass `k` against the bucket of its current key. */
    method SelfCollide(k: nat, steps: real, geo: Geometry)
      modifies this
      requires Dimensions() && steps != 0.0
      requires k < |pointMasses| && BucketsIn(spatialMap, |pointMasses|)
      requires HashPosition(HashBoxes(), pointMasses[k].position) in spatialMap
      ensures springs == old(springs) && spatialMap == old(spatialMap)
      ensures pointMasses == old(pointMasses)[k := SelfCollideAt(old(pointMasses),
        spatialMap[HashPosition(HashBoxes(), old(pointMasses)[k].position)], k, thickness, steps, geo)]
    {
      var bucket := spatialMap[HashPosition(HashBoxes(), pointMasses[k].position)];
      assert EntriesIn(bucket, |pointMasses|) by {
        forall j | 0 <= j < |bucket| ensures bucket[j] < |pointMasses| {
          assert bucket[j] in bucket;
        }
      }
      var correction, count := ScanBucket(pointMasses, bucket, k, thickness, geo);
      if count == 0 {
        assert pointMasses == pointMasses[k := pointMasses[k]];
        return;
      }
      var total := correction.Div(count as real).Div(steps);
      pointMasses := pointMasses[k := pointMasses[k].(position := pointMasses[k].position.Add(total))];
    }

    /** Self-collision of every mass in turn, against the freshly built spatial map. */
    method SelfCollideAll(steps: real, geo: Geometry)
      modifies this
      requires Dimensions() && steps != 0.0
      requires BucketsIn(spatialMap, |pointMasses|) && Listed(spatialMap, Keys(pointMasses, HashBoxes()))
      ensures springs == old(springs) && spatialMap == old(spatialMap)
      ensures pointMasses == SelfCollidePass(old(pointMasses), spatialMap, HashBoxes(), thickness, steps, geo, |old(pointMasses)|)
    {
      ghost var start := pointMasses;
      for k := 0 to |pointMasses|
        invariant springs == old(springs) && spatialMap == old(spatialMap)
        invariant pointMasses == SelfCollidePass(start, spatialMap, HashBoxes(), thickness, steps, geo, k)
      {
        PassStep(start, spatialMap, HashBoxes(), thickness, steps, geo, k);
        SelfCollide(k, steps, geo);
      }
    }

    /** Each mass offered to each obstacle in turn. */
    method CollideObstacles(obstacles: seq<Obstacle>)
      modifies this
      ensures pointMasses == CollideAll(old(pointMasses), obstacles)
      ensures springs == old(springs) && spatialMap == old(spatialMap)
    {
      ghost var target := CollideAll(pointMasses, obstacles);
      for i := 0 to |pointMasses|
        invariant |pointMasses| == |old(pointMasses)|
        invariant forall q :: 0 <= q < i ==> pointMasses[q] == target[q]
        invariant forall q :: i <= q < |pointMasses| ==> pointMasses[q] == old(pointMasses)[q]
        invariant springs == old(springs) && spatialMap == old(spatialMap)
      {
        for o := 0 to |obstacles|
          invariant |pointMasses| == |old(pointMasses)|
          invariant forall q :: 0 <= q < |pointMasses| && q != i ==> pointMasses[q] == old(pointMasses)[q] || q < i
          invariant forall q :: 0 <= q < i ==> pointMasses[q] == target[q]
          invariant forall q :: i < q < |pointMasses| ==> pointMasses[q] == old(pointMasses)[q]
          invariant pointMasses[i] == CollideWith(old(pointMasses)[i], obstacles[..o])
          invariant springs == old(springs) && spatialMap == old(spatialMap)
        {
          var pm := pointMasses[i];
          pointMasses := pointMasses[i := pm.(position := obstacles[o].collide(pm.position, pm.lastPosition))];
          assert obstacles[..o + 1][..o] == obstacles[..o];
        }
        assert obstacles[..|obstacles|] == obstacles;
      }
    }

    /** The constraint loop: each over-stretched spring pulled back to 1.1 rest lengths. */
    method SatisfyConstraints(geo: Geometry)
      modifies this
      requires SpringsInRange(springs, |pointMasses|)
      ensures springs == old(springs) && spatialMap == old(spatialMap)
      ensures pointMasses == ConstrainAll(old(pointMasses), springs, geo)
    {
      for n := 0 to |springs|
        invariant springs == old(springs) && spatialMap == old(spatialMap)
        invariant SpringsInRange(springs[..n], |old(pointMasses)|)
        invariant pointMasses == ConstrainAll(old(pointMasses), springs[..n], geo)
      {
        ConstrainStep(old(pointMasses), springs, n, geo);
        ConstrainSpringAt(springs[n], geo);
      }
      assert springs[..|springs|] == springs;
    }

    /** One iteration of the constraint loop. */
    method ConstrainSpringAt(s: Spring, geo: Geometry)
      modifies this
      requires EndsIn(pointMasses, s)
      ensures springs == old(springs) && spatialMap == old(spatialMap)
      ensures pointMasses == ConstrainSpring(old(pointMasses), s, geo)
    {
      var pa, pb := pointMasses[s.a].position, pointMasses[s.b].position;
      var displacement := pa.Sub(pb);
      if geo.norm(displacement) > s.restLength * 1.1 {
        if pointMasses[s.a].pinned && pointMasses[s.b].pinned {
        } else if pointMasses[s.a].pinned {
          pointMasses := pointMasses[s.b := pointMasses[s.b].(position := pa.Sub(geo.unit(displacement).Scale(s.restLength * 1.1)))];
        } else if pointMasses[s.b].pinned {
          pointMasses := pointMasses[s.a := pointMasses[s.a].(position := pb.Add(geo.unit(displacement).Scale(s.restLength * 1.1)))];
        } else {
          var center := pa.Add(pb).Div(2.0);
          pointMasses := pointMasses[s.a := pointMasses[s.a].(position := center.Add(geo.unit(displacement).Scale(s.restLength * 0.55)))];
          pointMasses := pointMasses[s.b := pointMasses[s.b].(position := center.Sub(geo.unit(displacement).Scale(s.restLength * 0.55)))];
        }
      }
    }

    // -------------------------------------------------------------------------
    // Reset
    // -------------------------------------------------------------------------

    /** Every mass put back at its start position, at rest. */
    method Reset()
      modifies this
      ensures pointMasses == ResetPositions(old(pointMasses))
      ensures springs == old(springs) && spatialMap == old(spatialMap)
    {
      ghost var target := ResetPositions(pointMasses);
      for i := 0 to |pointMasses|
        invariant |pointMasses| == |old(pointMasses)|
        invariant forall q :: 0 <= q < i ==> pointMasses[q] == target[q]
        invariant forall q :: i <= q < |pointMasses| ==> pointMasses[q] == old(pointMasses)[q]
        invariant springs == old(springs) && spatialMap == old(spatialMap)
      {
        var pm := pointMasses[i];
        pointMasses := pointMasses[i := pm.(position := pm.startPosition, lastPosition := pm.startPosition)];
      }
    }
  }

  // ---------------------------------------------------------------------------
  // What the builder and the step guarantee
  // ---------------------------------------------------------------------------

  /**
   * The grid builder's masses: `W * H` of them, the one with index `i` in
   * row `i / W` and column `i % W`, each at rest at its start position with
   * no force, and pinned exactly when the pinned list names it.
   */
  lemma BuiltMasses(l: Layout, jitter: nat -> real)
    requires l.numWidthPoints > 0 && l.numHeightPoints > 0
    ensures var W, H := l.numWidthPoints, l.numHeightPoints;
      var pms := GridMasses(l, jitter, H);
      && |pms| == W * H
      && forall i :: 0 <= i < |pms| ==>
           && pms[i].position == pms[i].lastPosition == pms[i].startPosition
           && pms[i].forces == Zero
           && (pms[i].pinned <==> (i % W, i / W) in l.pinned)
  {
    var W, H := l.numWidthPoints, l.numHeightPoints;
    var pms := GridMasses(l, jitter, H);
    GridProperties.GridMassesLength(l, jitter, H);
    forall i | 0 <= i < |pms|
      ensures pms[i].position == pms[i].lastPosition == pms[i].startPosition && pms[i].forces == Zero
      ensures pms[i].pinned <==> (i % W, i / W) in l.pinned
    {
      MassIndex(W, H, i);
      GridProperties.GridMassAt(l, jitter, H, i / W, i % W);
      GridProperties.MassAtRest(l, jitter, i / W, i % W);
    }
  }

  /**
   * The grid builder's springs over masses `pms` of a grid `W` by `H`: each
   * joins two of the masses; together they have the grid's topology in
   * creation order, so each joins two neighbours of its family, the later
   * mass first; each has the distance between its ends as rest length.
   */
  lemma BuiltSprings(pms: seq<PointMass>, W: nat, H: nat, geo: Geometry)
    requires |pms| == W * H
    ensures var springs := Materialize(pms, GridSprings(W, H), geo);
      && SpringsInRange(springs, |pms|)
      && Edges(springs) == GridSprings(W, H)
      && RestLengthsFit(pms, springs, geo)
      && forall q :: 0 <= q < |springs| ==>
           springs[q].b < springs[q].a && Adjacent(W, springs[q].a, springs[q].b, springs[q].kind)
  {
    var es := GridSprings(W, H);
    GridIn(W, H, |pms|);
    MaterializeFits(pms, es, geo);
    var springs := Materialize(pms, es, geo);
    forall q | 0 <= q < |springs|
      ensures springs[q].b < springs[q].a && Adjacent(W, springs[q].a, springs[q].b, springs[q].kind)
    {
      assert EdgeOf(springs[q]) == Edges(springs)[q] == es[q];
      GridProperties.GridSoundAt(W, H, es[q]);
    }
  }

  /** Index `i` of a grid `W` wide and `H` high is row `i / W`, column `i % W`. */
  lemma MassIndex(W: nat, H: nat, i: int)
    requires W > 0 && 0 <= i < W * H
    ensures 0 <= i / W < H && 0 <= i % W < W && i == (i / W) * W + i % W
  {
    GridProperties.QuotientBelow(W, H, i);
    GridProperties.DivModSplit(i, W);
  }

  /**
   * One step keeps each mass's start position and pin; its accumulator ends
   * holding the external force plus the net force of the enabled springs at
   * the positions the step started from; an unpinned mass's last position is
   * where it was before the step, a pinned one's is unchanged.
   */
  lemma StepEffect(pms: seq<PointMass>, springs: seq<Spring>, cp: ClothParameters, accs: seq<Vector3>,
                   obstacles: seq<Obstacle>, geo: Geometry, mass: real, dt: real, boxes: Boxes,
                   thickness: real, steps: real, i: int)
    requires SpringsInRange(springs, |pms|) && mass != 0.0 && NonZero(boxes) && steps != 0.0
    requires 0 <= i < |pms|
    ensures var r := Step(pms, springs, cp, accs, obstacles, geo, mass, dt, boxes, thickness, steps);
      && r[i].startPosition == pms[i].startPosition && r[i].pinned == pms[i].pinned
      && r[i].forces == ExternalForce(accs, mass).Add(NetSpringForce(pms, springs, cp, geo, i))
      && r[i].lastPosition == (if pms[i].pinned then pms[i].lastPosition else pms[i].position)
  {
    var forced := ApplySprings(ResetForces(pms, accs, mass), springs, cp, geo);
    var moved := Moved(pms, springs, cp, accs, geo, mass, dt);
    SpatialMapInRange(Keys(moved, boxes));
    var separated := Separated(moved, boxes, thickness, steps, geo);
    var collided := CollideAll(separated, obstacles);
    var r := ConstrainAll(collided, springs, geo);
    assert r == Step(pms, springs, cp, accs, obstacles, geo, mass, dt, boxes, thickness, steps);
    TotalForceOnMass(pms, accs, mass, springs, cp, geo, i);
    IntegrateEffect(forced[i], cp.damping, mass, dt);
    assert forced[i] == pms[i].(forces := forced[i].forces);
    assert moved[i] == Integrate(forced[i], cp.damping, mass, dt);
    PassFrame(moved, SpatialMap(Keys(moved, boxes)), boxes, thickness, steps, geo, |moved|);
    assert separated[i] == moved[i].(position := separated[i].position);
    assert collided[i] == separated[i].(position := collided[i].position);
    assert r[i] == collided[i].(position := r[i].position);
  }

  /**
   * A pinned mass is skipped by integration, and with no obstacles the
   * constraint pass leaves it too: over a whole step it moves only by
   * self-collision, which does not look at the pin.
   */
  lemma PinnedStays(pms: seq<PointMass>, springs: seq<Spring>, cp: ClothParameters, accs: seq<Vector3>,
                    geo: Geometry, mass: real, dt: real, boxes: Boxes, thickness: real, steps: real, i: int)
    requires SpringsInRange(springs, |pms|) && mass != 0.0 && NonZero(boxes) && steps != 0.0
    requires 0 <= i < |pms| && pms[i].pinned
    ensures Moved(pms, springs, cp, accs, geo, mass, dt)[i].position == pms[i].position
    ensures Step(pms, springs, cp, accs, [], geo, mass, dt, boxes, thickness, steps)[i].position
         == Separated(Moved(pms, springs, cp, accs, geo, mass, dt), boxes, thickness, steps, geo)[i].position
  {
    var forced := ApplySprings(ResetForces(pms, accs, mass), springs, cp, geo);
    var moved := Moved(pms, springs, cp, accs, geo, mass, dt);
    assert forced[i] == pms[i].(forces := forced[i].forces);
    assert moved[i] == Integrate(forced[i], cp.damping, mass, dt);
    IntegrateEffect(forced[i], cp.damping, mass, dt);
    SpatialMapInRange(Keys(moved, boxes));
    PassFrame(moved, SpatialMap(Keys(moved, boxes)), boxes, thickness, steps, geo, |moved|);
    var separated := Separated(moved, boxes, thickness, steps, geo);
    assert separated[i].pinned;
    NoObstaclesNoChange(separated);
    ConstraintsKeepPins(separated, springs, geo);
  }

  /** A step changes only the masses' motion: positions, last positions and forces. */
  lemma StepOnlyMoves(pms: seq<PointMass>, springs: seq<Spring>, cp: ClothParameters, accs: seq<Vector3>,
                      obstacles: seq<Obstacle>, geo: Geometry, mass: real, dt: real, boxes: Boxes,
                      thickness: real, steps: real)
    requires SpringsInRange(springs, |pms|) && mass != 0.0 && NonZero(boxes) && steps != 0.0
    ensures OnlyMotionChanges(pms, Step(pms, springs, cp, accs, obstacles, geo, mass, dt, boxes, thickness, steps))
  {
    var r := Step(pms, springs, cp, accs, obstacles, geo, mass, dt, boxes, thickness, steps);
    forall i | 0 <= i < |pms|
      ensures r[i] == pms[i].(position := r[i].position, lastPosition := r[i].lastPosition, forces := r[i].forces)
    {
      StepEffect(pms, springs, cp, accs, obstacles, geo, mass, dt, boxes, thickness, steps, i);
    }
  }

  /**
   * Reset undoes a step: the masses reset after the step are those reset
   * before it, up to the force accumulators.
   */
  lemma ResetUndoesStep(pms: seq<PointMass>, springs: seq<Spring>, cp: ClothParameters, accs: seq<Vector3>,
                        obstacles: seq<Obstacle>, geo: Geometry, mass: real, dt: real, boxes: Boxes,
                        thickness: real, steps: real)
    requires SpringsInRange(springs, |pms|) && mass != 0.0 && NonZero(boxes) && steps != 0.0
    ensures OnlyForcesChange(ResetPositions(pms),
      ResetPositions(Step(pms, springs, cp, accs, obstacles, geo, mass, dt, boxes, thickness, steps)))
  {
    StepOnlyMoves(pms, springs, cp, accs, obstacles, geo, mass, dt, boxes, thickness, steps);
    ResetForgetsMotion(pms, Step(pms, springs, cp, accs, obstacles, geo, mass, dt, boxes, thickness, steps));
  }

  // ---------------------------------------------------------------------------
  // Lemmas for the builder
  // ---------------------------------------------------------------------------

  /**
   * One more mass of the self-collision pass over a map that lists every mass
   * under its key: its key has a bucket, which the pass uses.
   */
  lemma PassStep(pms: seq<PointMass>, m: map<int, seq<nat>>, b: Boxes, thickness: real, steps: real,
                 geo: Geometry, k: nat)
    requires k < |pms| && NonZero(b) && steps != 0.0
    requires BucketsIn(m, |pms|) && Listed(m, Keys(pms, b))
    ensures var q := SelfCollidePass(pms, m, b, thickness, steps, geo, k);
      && |q| == |pms| && HashPosition(b, q[k].position) in m
      && SelfCollidePass(pms, m, b, thickness, steps, geo, k + 1)
         == q[k := SelfCollideAt(q, m[HashPosition(b, q[k].position)], k, thickness, steps, geo)]
  {
    OwnBucketHoldsSelf(pms, m, b, thickness, steps, geo, k);
  }

  /** One more spring of the spring-force loop. */
  lemma ForceStep(pms: seq<PointMass>, springs: seq<Spring>, n: nat, cp: ClothParameters, geo: Geometry)
    requires SpringsInRange(springs, |pms|) && n < |springs|
    ensures EndsIn(pms, springs[n]) && SpringsInRange(springs[..n + 1], |pms|)
    ensures EndsIn(ApplySprings(pms, springs[..n], cp, geo), springs[n])
    ensures ApplySprings(pms, springs[..n + 1], cp, geo)
         == ApplySpring(ApplySprings(pms, springs[..n], cp, geo), springs[n], cp, geo)
  {
    PrefixStep(springs, n, |pms|);
  }

  /** One more spring of the constraint loop. */
  lemma ConstrainStep(pms: seq<PointMass>, springs: seq<Spring>, n: nat, geo: Geometry)
    requires SpringsInRange(springs, |pms|) && n < |springs|
    ensures EndsIn(pms, springs[n]) && SpringsInRange(springs[..n + 1], |pms|)
    ensures EndsIn(ConstrainAll(pms, springs[..n], geo), springs[n])
    ensures ConstrainAll(pms, springs[..n + 1], geo) == ConstrainSpring(ConstrainAll(pms, springs[..n], geo), springs[n], geo)
  {
    PrefixStep(springs, n, |pms|);
  }

  lemma PrefixStep(springs: seq<Spring>, n: nat, m: nat)
    requires SpringsInRange(springs, m) && n < |springs|
    ensures 0 <= springs[n].a < m && 0 <= springs[n].b < m
    ensures SpringsInRange(springs[..n], m) && SpringsInRange(springs[..n + 1], m)
    ensures springs[..n + 1][..n] == springs[..n] && springs[..n + 1][n] == springs[n]
  {
    assert springs[n] in springs;
  }

  lemma InRangeAppend(x: seq<Spring>, y: seq<Spring>, n: nat)
    requires SpringsInRange(x, n) && SpringsInRange(y, n)
    ensures SpringsInRange(x + y, n)
  {
  }

  /** The springs of two edge sequences in a row are their springs in a row. */
  lemma MaterializeAppend(pms: seq<PointMass>, x: seq<Edge>, y: seq<Edge>, geo: Geometry)
    ensures Materialize(pms, x + y, geo) == Materialize(pms, x, geo) + Materialize(pms, y, geo)
  {
  }

  /**
   * The springs built for a sequence of edges have exactly those edges, in
   * order, and each has as rest length the distance between its two masses.
   */
  lemma MaterializeFits(pms: seq<PointMass>, es: seq<Edge>, geo: Geometry)
    requires EdgesIn(es, |pms|)
    ensures Edges(Materialize(pms, es, geo)) == es
    ensures RestLengthsFit(pms, Materialize(pms, es, geo), geo)
    ensures SpringsInRange(Materialize(pms, es, geo), |pms|)
  {
    var r := Materialize(pms, es, geo);
    forall q | 0 <= q < |r|
      ensures r[q] == SpringBetween(pms, es[q].a, es[q].b, es[q].kind, geo)
    {
      assert es[q] in es;
    }
  }

  /** The grid's edges join masses of a cloth holding at least its `m` rows of `W` masses. */
  lemma GridIn(W: nat, m: nat, n: nat)
    requires n >= m * W
    ensures EdgesIn(GridSprings(W, m), n)
  {
    GridProperties.GridSound(W, m);
  }

  /** One mass's springs, appended after the rows so far, extend the grid built so far. */
  lemma Grow(pms: seq<PointMass>, geo: Geometry, p: seq<Spring>, x: seq<Edge>, y: seq<Edge>)
    ensures p + Materialize(pms, x, geo) + Materialize(pms, y, geo) == p + Materialize(pms, x + y, geo)
  {
    MaterializeAppend(pms, x, y, geo);
    AppendAssoc(p, Materialize(pms, x, geo), Materialize(pms, y, geo));
  }

  /** Mass `h * W + w` exists, and lies one and two rows below masses that exist when `h` allows. */
  lemma CellIndex(W: nat, H: nat, h: nat, w: nat, k: int, n: nat)
    requires h < H && w < W && n >= H * W && k == h * W + w
    ensures w <= k < n
    ensures h > 0 ==> k >= W + w
    ensures h > 1 ==> k >= 2 * W + w
  {
    GridProperties.MulMono(h + 1, H, W);
    GridProperties.MulSucc(h, W);
    if h > 1 { GridProperties.MulMono(2, h, W); } else if h > 0 { GridProperties.MulMono(1, h, W); }
  }

  /** The springs of a row grow by those of its next mass. */
  lemma RowGrowsBy(W: nat, h: nat, w: nat, k: int)
    requires k == h * W + w
    ensures RowSprings(W, h, w + 1) == RowSprings(W, h, w) + SpringsOf(W, h, w, k)
  {
  }

  /**
   * The three families of springs of one mass, appended in turn, append the
   * springs of its candidate table.
   */
  lemma CellFamilies(pms: seq<PointMass>, geo: Geometry, p: seq<Spring>, W: nat, h: nat, w: nat, k: int,
                     x0: seq<Edge>, x1: seq<Edge>, x2: seq<Edge>)
    requires x0 == Opt(h > 0, Edge(k, k - W, Structural)) + Opt(w > 0, Edge(k, k - 1, Structural))
    requires x1 == Opt(h > 0 && w < W - 1, Edge(k, k - W + 1, Shearing)) + Opt(h > 0 && w > 0, Edge(k, k - W - 1, Shearing))
    requires x2 == Opt(w > 1, Edge(k, k - 2, Bending)) + Opt(h > 1, Edge(k, k - 2 * W, Bending))
    ensures p + Materialize(pms, x0, geo) + Materialize(pms, x1, geo) + Materialize(pms, x2, geo)
         == p + Materialize(pms, SpringsOf(W, h, w, k), geo)
  {
    CellOrder(W, h, w, k);
    PairsAssoc(Opt(h > 0, Edge(k, k - W, Structural)), Opt(w > 0, Edge(k, k - 1, Structural)),
               Opt(h > 0 && w < W - 1, Edge(k, k - W + 1, Shearing)), Opt(h > 0 && w > 0, Edge(k, k - W - 1, Shearing)),
               Opt(w > 1, Edge(k, k - 2, Bending)), Opt(h > 1, Edge(k, k - 2 * W, Bending)));
    Grow(pms, geo, p, x0, x1);
    Grow(pms, geo, p, x0 + x1, x2);
  }

  /** The candidate table, walked in order, gives the six guarded springs the builder writes out. */
  lemma CellOrder(W: nat, h: nat, w: nat, k: int)
    ensures SpringsOf(W, h, w, k)
      == [] + Opt(h > 0, Edge(k, k - W, Structural))
            + Opt(w > 0, Edge(k, k - 1, Structural))
            + Opt(h > 0 && w < W - 1, Edge(k, k - W + 1, Shearing))
            + Opt(h > 0 && w > 0, Edge(k, k - W - 1, Shearing))
            + Opt(w > 1, Edge(k, k - 2, Bending))
            + Opt(h > 1, Edge(k, k - 2 * W, Bending))
  {
    var cs := Candidates(W, h, w);
    var o0, o1, o2 := Opt(h > 0, Edge(k, k - W, Structural)), Opt(w > 0, Edge(k, k - 1, Structural)),
                      Opt(h > 0 && w < W - 1, Edge(k, k - W + 1, Shearing));
    var o3, o4, o5 := Opt(h > 0 && w > 0, Edge(k, k - W - 1, Shearing)), Opt(w > 1, Edge(k, k - 2, Bending)),
                      Opt(h > 1, Edge(k, k - 2 * W, Bending));
    CandidateStep(k, cs, 5, h > 1, Edge(k, k - 2 * W, Bending), []);
    CandidateStep(k, cs, 4, w > 1, Edge(k, k - 2, Bending), o5);
    CandidateStep(k, cs, 3, h > 0 && w > 0, Edge(k, k - W - 1, Shearing), o4 + o5);
    CandidateStep(k, cs, 2, h > 0 && w < W - 1, Edge(k, k - W + 1, Shearing), o3 + (o4 + o5));
    CandidateStep(k, cs, 1, w > 0, Edge(k, k - 1, Structural), o2 + (o3 + (o4 + o5)));
    CandidateStep(k, cs, 0, h > 0, Edge(k, k - W, Structural), o1 + (o2 + (o3 + (o4 + o5))));
    assert o5 + [] == o5;
    SixAssoc(o0, o1, o2, o3, o4, o5);
  }

  /** One candidate of the table, whose guard and spring are `c` and `e`, followed by the rest. */
  lemma CandidateStep(k: int, cs: seq<Candidate>, i: nat, c: bool, e: Edge, rest: seq<Edge>)
    requires i < |cs| && cs[i].guard == c && e == Edge(k, k - cs[i].offset, cs[i].kind)
    requires Created(k, cs, i + 1) == rest
    ensures Created(k, cs, i) == Opt(c, e) + rest
  {
  }

  lemma PairsAssoc<T>(a: seq<T>, b: seq<T>, c: seq<T>, d: seq<T>, e: seq<T>, f: seq<T>)
    ensures [] + a + b + c + d + e + f == (a + b) + (c + d) + (e + f)
  {
    assert [] + a == a;
    AppendAssoc(a + b, c, d);
    AppendAssoc(a + b + c + d, e, f);
  }

  lemma SixAssoc<T>(a: seq<T>, b: seq<T>, c: seq<T>, d: seq<T>, e: seq<T>, f: seq<T>)
    ensures [] + a + b + c + d + e + f == a + (b + (c + (d + (e + f))))
  {
    assert [] + a == a;
    AppendAssoc(a, b, c);
    AppendAssoc(a, b + c, d);
    AppendAssoc(b, c, d);
    AppendAssoc(a, b + c + d, e);
    AppendAssoc(b + c, d, e);
    AppendAssoc(b, c, d + e);
    AppendAssoc(a, b + c + d + e, f);
    AppendAssoc(b + c + d, e, f);
    AppendAssoc(b + c, d, e + f);
    AppendAssoc(b, c, d + (e + f));
    AppendAssoc(d, e, f);
  }

  lemma EmptyAppend<T>(x: seq<T>)
    ensures [] + x == x
  {
  }

  lemma AppendAssoc<T>(x: seq<T>, y: seq<T>, z: seq<T>)
    ensures (x + y) + z == x + (y + z)
  {
  }
}
