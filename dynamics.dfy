/**
 * The force, integration, obstacle and constraint stages of one simulation
 * step (src/cloth.cpp, Cloth::simulate) as functions on the sequence of point
 * masses. The loops of cloth.dfy are proved to compute these functions; the
 * lemmas here state what each stage guarantees.
 */
module Dynamics {
  import opened Vectors
  import opened ClothTypes

  /** `r` is `pms` with at most the force accumulators changed. */
  ghost predicate OnlyForcesChange(pms: seq<PointMass>, r: seq<PointMass>)
  {
    |r| == |pms| && forall i :: 0 <= i < |pms| ==> r[i] == pms[i].(forces := r[i].forces)
  }

  /** `r` is `pms` with at most the current positions changed. */
  ghost predicate OnlyPositionsChange(pms: seq<PointMass>, r: seq<PointMass>)
  {
    |r| == |pms| && forall i :: 0 <= i < |pms| ==> r[i] == pms[i].(position := r[i].position)
  }

  /** Both ends of the spring index into `pms`. */
  predicate EndsIn(pms: seq<PointMass>, s: Spring)
  {
    0 <= s.a < |pms| && 0 <= s.b < |pms|
  }

  /** The force accumulators, in mass order. */
  function Forces(pms: seq<PointMass>): seq<Vector3>
  {
    seq(|pms|, i requires 0 <= i < |pms| => pms[i].forces)
  }

  // ---------------------------------------------------------------------------
  // Forces
  // ---------------------------------------------------------------------------

  /**
   * The external force on one mass: a zeroed accumulator to which
   * `acceleration * mass` is added for each supplied acceleration in turn.
   */
  function ExternalForce(accs: seq<Vector3>, mass: real): Vector3
  {
    if accs == [] then Zero
    else ExternalForce(accs[..|accs| - 1], mass).Add(accs[|accs| - 1].Scale(mass))
  }

  /** The external force is the mass times the sum of the accelerations. */
  lemma {:induction false} ExternalForceIsMassTimesSum(accs: seq<Vector3>, mass: real)
    ensures ExternalForce(accs, mass) == Sum(accs).Scale(mass)
  {
    if accs != [] {
      ExternalForceIsMassTimesSum(accs[..|accs| - 1], mass);
    }
  }

  /** The first force pass: every accumulator holds exactly the external force. */
  function ResetForces(pms: seq<PointMass>, accs: seq<Vector3>, mass: real): (r: seq<PointMass>)
    ensures OnlyForcesChange(pms, r)
    ensures forall i :: 0 <= i < |r| ==> r[i].forces == ExternalForce(accs, mass)
  {
    seq(|pms|, i requires 0 <= i < |pms| => pms[i].(forces := ExternalForce(accs, mass)))
  }

  /** `v` added to the accumulator of mass `k`. */
  function Push(pms: seq<PointMass>, k: int, v: Vector3): (r: seq<PointMass>)
    requires 0 <= k < |pms|
    ensures OnlyForcesChange(pms, r)
  {
    pms[k := pms[k].(forces := pms[k].forces.Add(v))]
  }

  /** The vector from end b to end a. */
  function Displacement(pms: seq<PointMass>, s: Spring): Vector3
    requires EndsIn(pms, s)
  {
    pms[s.a].position.Sub(pms[s.b].position)
  }

  /** Hooke's scalar `ks * (|d| - rest)`, negative when the spring is compressed. */
  function SpringScalar(pms: seq<PointMass>, s: Spring, ks: real, geo: Geometry): real
    requires EndsIn(pms, s)
  {
    ks * (geo.norm(Displacement(pms, s)) - s.restLength)
  }

  /**
   * One iteration of the spring-force loop: a spring of a disabled family is
   * skipped; otherwise `-Fs*d` is added to end a, then `Fs*d` to end b.
   */
  function ApplySpring(pms: seq<PointMass>, s: Spring, cp: ClothParameters, geo: Geometry): (r: seq<PointMass>)
    requires EndsIn(pms, s)
    ensures OnlyForcesChange(pms, r)
  {
    if !Enabled(cp, s.kind) then pms
    else
      var d := Displacement(pms, s);
      var fs := SpringScalar(pms, s, cp.ks, geo);
      Push(Push(pms, s.a, d.Neg().Scale(fs)), s.b, d.Scale(fs))
  }

  /** The spring-force loop over `springs`, in order. */
  function ApplySprings(pms: seq<PointMass>, springs: seq<Spring>, cp: ClothParameters, geo: Geometry): (r: seq<PointMass>)
    requires SpringsInRange(springs, |pms|)
    ensures OnlyForcesChange(pms, r)
  {
    if springs == [] then pms
    else
      var last := springs[|springs| - 1];
      assert last in springs;
      ApplySpring(ApplySprings(pms, springs[..|springs| - 1], cp, geo), last, cp, geo)
  }

  /** What spring `s` contributes to the force on mass `i`. */
  function SpringForceOn(pms: seq<PointMass>, s: Spring, cp: ClothParameters, geo: Geometry, i: int): Vector3
    requires EndsIn(pms, s)
  {
    if !Enabled(cp, s.kind) then Zero
    else
      var d := Displacement(pms, s);
      var fs := SpringScalar(pms, s, cp.ks, geo);
      (if i == s.a then d.Neg().Scale(fs) else Zero).Add(if i == s.b then d.Scale(fs) else Zero)
  }

  /** The sum of the contributions of `springs` to the force on mass `i`. */
  function NetSpringForce(pms: seq<PointMass>, springs: seq<Spring>, cp: ClothParameters, geo: Geometry, i: int): Vector3
    requires SpringsInRange(springs, |pms|)
  {
    if springs == [] then Zero
    else
      var last := springs[|springs| - 1];
      assert last in springs;
      NetSpringForce(pms, springs[..|springs| - 1], cp, geo, i).Add(SpringForceOn(pms, last, cp, geo, i))
  }

  /** The springs of the enabled families, in order. */
  function EnabledSprings(springs: seq<Spring>, cp: ClothParameters): (r: seq<Spring>)
    ensures forall s :: s in r <==> s in springs && Enabled(cp, s.kind)
  {
    if springs == [] then []
    else
      var last := springs[|springs| - 1];
      EnabledSprings(springs[..|springs| - 1], cp) + (if Enabled(cp, last.kind) then [last] else [])
  }

  /** Only positions are read by a spring, so equal positions give equal contributions. */
  lemma SpringForceOnPositions(pms: seq<PointMass>, qs: seq<PointMass>, s: Spring, cp: ClothParameters, geo: Geometry, i: int)
    requires EndsIn(pms, s) && OnlyForcesChange(pms, qs)
    ensures SpringForceOn(qs, s, cp, geo, i) == SpringForceOn(pms, s, cp, geo, i)
  {
    assert qs[s.a].position == pms[s.a].position && qs[s.b].position == pms[s.b].position;
    assert Displacement(qs, s) == Displacement(pms, s);
    assert SpringScalar(qs, s, cp.ks, geo) == SpringScalar(pms, s, cp.ks, geo);
  }

  /** What two successive pushes, `u` at mass `a` then `v` at mass `b`, add to mass `i`. */
  lemma PushTwiceAt(pms: seq<PointMass>, a: int, b: int, u: Vector3, v: Vector3, i: int)
    requires 0 <= a < |pms| && 0 <= b < |pms| && 0 <= i < |pms|
    ensures Push(Push(pms, a, u), b, v)[i].forces
      == pms[i].forces.Add((if i == a then u else Zero).Add(if i == b then v else Zero))
  {
    var f := pms[i].forces;
    var onA, onB := (if i == a then u else Zero), (if i == b then v else Zero);
    AddZero(f);
    AddZero(u);
    AddZero(v);
    assert Push(pms, a, u)[i].forces == f.Add(onA);
    AddZero(f.Add(onA));
    AddAssoc(f, onA, onB);
  }

  /** One spring adds its contribution to each mass's accumulator. */
  lemma ApplySpringAt(pms: seq<PointMass>, s: Spring, cp: ClothParameters, geo: Geometry, i: int)
    requires EndsIn(pms, s) && 0 <= i < |pms|
    ensures ApplySpring(pms, s, cp, geo)[i].forces == pms[i].forces.Add(SpringForceOn(pms, s, cp, geo, i))
  {
    if Enabled(cp, s.kind) {
      var d := Displacement(pms, s);
      var fs := SpringScalar(pms, s, cp.ks, geo);
      PushTwiceAt(pms, s.a, s.b, d.Neg().Scale(fs), d.Scale(fs), i);
    } else {
      AddZero(pms[i].forces);
    }
  }

  /**
   * After the spring loop each mass's accumulator holds what it held before
   * plus the net contribution of the enabled springs at its ends.
   */
  lemma {:induction false} SpringLoopForces(pms: seq<PointMass>, springs: seq<Spring>, cp: ClothParameters, geo: Geometry, i: int)
    requires SpringsInRange(springs, |pms|) && 0 <= i < |pms|
    ensures ApplySprings(pms, springs, cp, geo)[i].forces == pms[i].forces.Add(NetSpringForce(pms, springs, cp, geo, i))
  {
    if springs != [] {
      var prefix, last := springs[..|springs| - 1], springs[|springs| - 1];
      assert last in springs;
      var qs := ApplySprings(pms, prefix, cp, geo);
      SpringLoopForces(pms, prefix, cp, geo, i);
      ApplySpringAt(qs, last, cp, geo, i);
      SpringForceOnPositions(pms, qs, last, cp, geo, i);
    }
  }

  /**
   * The two force passes together: each mass's force is the external force
   * plus the net force of the enabled springs at its ends, evaluated at the
   * positions the step started from.
   */
  lemma TotalForceOnMass(pms: seq<PointMass>, accs: seq<Vector3>, mass: real, springs: seq<Spring>,
                         cp: ClothParameters, geo: Geometry, i: int)
    requires SpringsInRange(springs, |pms|) && 0 <= i < |pms|
    ensures ApplySprings(ResetForces(pms, accs, mass), springs, cp, geo)[i].forces
      == ExternalForce(accs, mass).Add(NetSpringForce(pms, springs, cp, geo, i))
  {
    var qs := ResetForces(pms, accs, mass);
    SpringLoopForces(qs, springs, cp, geo, i);
    NetSpringForcePositions(pms, qs, springs, cp, geo, i);
  }

  lemma {:induction false} NetSpringForcePositions(pms: seq<PointMass>, qs: seq<PointMass>, springs: seq<Spring>,
                                                  cp: ClothParameters, geo: Geometry, i: int)
    requires SpringsInRange(springs, |pms|) && OnlyForcesChange(pms, qs)
    ensures NetSpringForce(qs, springs, cp, geo, i) == NetSpringForce(pms, springs, cp, geo, i)
  {
    if springs != [] {
      var last := springs[|springs| - 1];
      assert last in springs;
      NetSpringForcePositions(pms, qs, springs[..|springs| - 1], cp, geo, i);
      SpringForceOnPositions(pms, qs, last, cp, geo, i);
    }
  }

  /**
   * Equal and opposite: one spring leaves the sum of all accumulators
   * unchanged, whether or not its family is enabled.
   */
  lemma SpringConservesForce(pms: seq<PointMass>, s: Spring, cp: ClothParameters, geo: Geometry)
    requires EndsIn(pms, s)
    ensures Sum(Forces(ApplySpring(pms, s, cp, geo))) == Sum(Forces(pms))
  {
    if Enabled(cp, s.kind) {
      var d := Displacement(pms, s);
      var fs := SpringScalar(pms, s, cp.ks, geo);
      PushSum(pms, s.a, d.Neg().Scale(fs));
      PushSum(Push(pms, s.a, d.Neg().Scale(fs)), s.b, d.Scale(fs));
      OppositeCancel(Sum(Forces(pms)), d, fs);
    }
  }

  /** A push adds its vector to the sum of all accumulators. */
  lemma PushSum(pms: seq<PointMass>, k: int, v: Vector3)
    requires 0 <= k < |pms|
    ensures Sum(Forces(Push(pms, k, v))) == Sum(Forces(pms)).Add(v)
  {
    assert Forces(Push(pms, k, v)) == Forces(pms)[k := pms[k].forces.Add(v)];
    SumUpdate(Forces(pms), k, pms[k].forces.Add(v));
  }

  lemma OppositeCancel(t: Vector3, d: Vector3, fs: real)
    ensures t.Add(d.Neg().Scale(fs)).Add(d.Scale(fs)) == t
  {
  }

  /** The spring forces of the whole loop sum to zero. */
  lemma {:induction false} SpringsConserveForce(pms: seq<PointMass>, springs: seq<Spring>, cp: ClothParameters, geo: Geometry)
    requires SpringsInRange(springs, |pms|)
    ensures Sum(Forces(ApplySprings(pms, springs, cp, geo))) == Sum(Forces(pms))
  {
    if springs != [] {
      var last := springs[|springs| - 1];
      assert last in springs;
      SpringsConserveForce(pms, springs[..|springs| - 1], cp, geo);
      SpringConservesForce(ApplySprings(pms, springs[..|springs| - 1], cp, geo), last, cp, geo);
    }
  }

  /** Springs of a disabled family contribute no force: dropping them changes nothing. */
  lemma {:induction false} DisabledSpringsIgnored(pms: seq<PointMass>, springs: seq<Spring>, cp: ClothParameters, geo: Geometry)
    requires SpringsInRange(springs, |pms|)
    ensures ApplySprings(pms, EnabledSprings(springs, cp), cp, geo) == ApplySprings(pms, springs, cp, geo)
  {
    if springs != [] {
      var prefix, last := springs[..|springs| - 1], springs[|springs| - 1];
      assert last in springs;
      DisabledSpringsIgnored(pms, prefix, cp, geo);
      var ep := EnabledSprings(prefix, cp);
      if Enabled(cp, last.kind) {
        assert (ep + [last])[..|ep + [last]| - 1] == ep;
      } else {
        assert ep + [] == ep;
      }
    }
  }

  // ---------------------------------------------------------------------------
  // Verlet integration
  // ---------------------------------------------------------------------------

  /**
   * One mass's Verlet step: a pinned mass is skipped; otherwise the new
   * position adds the damped previous motion and the force-driven term, and
   * the old position becomes the last position.
   */
  function Integrate(pm: PointMass, damping: real, mass: real, dt: real): PointMass
    requires mass != 0.0
  {
    if pm.pinned then pm
    else
      var newPosition := pm.position
        .Add(pm.position.Sub(pm.lastPosition).Scale(1.0 - damping / 100.0))
        .Add(pm.forces.Div(mass).Scale(dt).Scale(dt));
      pm.(lastPosition := pm.position, position := newPosition)
  }

  /** The integration pass over all masses. */
  function IntegrateAll(pms: seq<PointMass>, damping: real, mass: real, dt: real): (r: seq<PointMass>)
    requires mass != 0.0
    ensures |r| == |pms|
  {
    seq(|pms|, i requires 0 <= i < |pms| => Integrate(pms[i], damping, mass, dt))
  }

  /**
   * Integration leaves a pinned mass as it is; an unpinned one gets its
   * pre-step position as last position; forces, start position and flag are
   * kept.
   */
  lemma IntegrateEffect(pm: PointMass, damping: real, mass: real, dt: real)
    requires mass != 0.0
    ensures pm.pinned ==> Integrate(pm, damping, mass, dt) == pm
    ensures !pm.pinned ==> Integrate(pm, damping, mass, dt).lastPosition == pm.position
    ensures Integrate(pm, damping, mass, dt).forces == pm.forces
    ensures Integrate(pm, damping, mass, dt).startPosition == pm.startPosition
    ensures Integrate(pm, damping, mass, dt).pinned == pm.pinned
  {
  }

  /** A mass at rest with no force on it stays where it is, whatever the damping. */
  lemma RestIsStable(pm: PointMass, damping: real, mass: real, dt: real)
    requires mass != 0.0 && pm.forces == Zero && pm.position == pm.lastPosition
    ensures Integrate(pm, damping, mass, dt) == pm
  {
  }

  /** Without damping or force an unpinned mass keeps its velocity: it moves by its previous step. */
  lemma InertialMotion(pm: PointMass, mass: real, dt: real)
    requires mass != 0.0 && pm.forces == Zero && !pm.pinned
    ensures Integrate(pm, 0.0, mass, dt).position.Sub(pm.position) == pm.position.Sub(pm.lastPosition)
  {
  }

  // ---------------------------------------------------------------------------
  // External obstacles
  // ---------------------------------------------------------------------------

  /**
   * An obstacle's collide operation: it reads the mass's position and last
   * position and yields its new position.
   */
  datatype Obstacle = Obstacle(collide: (Vector3, Vector3) -> Vector3)

  /** One mass offered to each obstacle in turn. */
  function CollideWith(pm: PointMass, obstacles: seq<Obstacle>): (r: PointMass)
    ensures r == pm.(position := r.position)
  {
    if obstacles == [] then pm
    else
      var p := CollideWith(pm, obstacles[..|obstacles| - 1]);
      p.(position := obstacles[|obstacles| - 1].collide(p.position, p.lastPosition))
  }

  /** The obstacle pass over all masses. */
  function CollideAll(pms: seq<PointMass>, obstacles: seq<Obstacle>): (r: seq<PointMass>)
    ensures OnlyPositionsChange(pms, r)
  {
    seq(|pms|, i requires 0 <= i < |pms| => CollideWith(pms[i], obstacles))
  }

  /** With no obstacles the pass changes nothing. */
  lemma NoObstaclesNoChange(pms: seq<PointMass>)
    ensures CollideAll(pms, []) == pms
  {
  }

  // ---------------------------------------------------------------------------
  // Constraint pass
  // ---------------------------------------------------------------------------

  /** The spring is longer than 1.1 times its rest length. */
  predicate Overstretched(pms: seq<PointMass>, s: Spring, geo: Geometry)
    requires EndsIn(pms, s)
  {
    geo.norm(Displacement(pms, s)) > s.restLength * 1.1
  }

  /**
   * One iteration of the constraint loop. An over-stretched spring is pulled
   * back to 1.1 times its rest length along its displacement: not at all when
   * both ends are pinned, by moving only b when a is pinned, only a when b is
   * pinned, and otherwise both ends, symmetrically about their midpoint.
   */
  function ConstrainSpring(pms: seq<PointMass>, s: Spring, geo: Geometry): (r: seq<PointMass>)
    requires EndsIn(pms, s)
    ensures OnlyPositionsChange(pms, r)
  {
    var pa, pb := pms[s.a].position, pms[s.b].position;
    var d := Displacement(pms, s);
    if !Overstretched(pms, s, geo) then pms
    else if pms[s.a].pinned && pms[s.b].pinned then pms
    else if pms[s.a].pinned then
      pms[s.b := pms[s.b].(position := pa.Sub(geo.unit(d).Scale(s.restLength * 1.1)))]
    else if pms[s.b].pinned then
      pms[s.a := pms[s.a].(position := pb.Add(geo.unit(d).Scale(s.restLength * 1.1)))]
    else
      var center := pa.Add(pb).Div(2.0);
      var afterA := pms[s.a := pms[s.a].(position := center.Add(geo.unit(d).Scale(s.restLength * 0.55)))];
      afterA[s.b := afterA[s.b].(position := center.Sub(geo.unit(d).Scale(s.restLength * 0.55)))]
  }

  /**
   * The four-way split: a spring within bound or pinned at both ends moves
   * nothing; with only a pinned only b moves; with only b pinned only a
   * moves; with neither pinned the midpoint of the two ends is kept. No mass
   * other than the spring's ends moves, and a pinned mass never does.
   */
  lemma ConstrainSpringCases(pms: seq<PointMass>, s: Spring, geo: Geometry)
    requires EndsIn(pms, s)
    ensures var r := ConstrainSpring(pms, s, geo);
      && (!Overstretched(pms, s, geo) ==> r == pms)
      && (pms[s.a].pinned && pms[s.b].pinned ==> r == pms)
      && (pms[s.a].pinned ==> r == pms[s.b := r[s.b]])
      && (pms[s.b].pinned ==> r == pms[s.a := r[s.a]])
      && (Overstretched(pms, s, geo) && !pms[s.a].pinned && !pms[s.b].pinned && s.a != s.b ==>
            r[s.a].position.Add(r[s.b].position) == pms[s.a].position.Add(pms[s.b].position))
      && (forall i :: 0 <= i < |pms| && i != s.a && i != s.b ==> r[i] == pms[i])
      && (forall i :: 0 <= i < |pms| && pms[i].pinned ==> r[i] == pms[i])
  {
  }

  /**
   * When a spring with distinct ends, not both pinned, is over-stretched, the
   * correction leaves its ends exactly 1.1 rest lengths apart, in the direction
   * they were.
   */
  lemma ConstraintRestoresLength(pms: seq<PointMass>, s: Spring, geo: Geometry)
    requires Lawful(geo) && EndsIn(pms, s) && s.a != s.b && s.restLength >= 0.0
    requires Overstretched(pms, s, geo) && !(pms[s.a].pinned && pms[s.b].pinned)
    ensures Displacement(ConstrainSpring(pms, s, geo), s) == geo.unit(Displacement(pms, s)).Scale(s.restLength * 1.1)
    ensures geo.norm(Displacement(ConstrainSpring(pms, s, geo), s)) == s.restLength * 1.1
  {
    var d := Displacement(pms, s);
    assert geo.norm(d) > 0.0;
  }

  /** The constraint loop over `springs`, in order. */
  function ConstrainAll(pms: seq<PointMass>, springs: seq<Spring>, geo: Geometry): (r: seq<PointMass>)
    requires SpringsInRange(springs, |pms|)
    ensures OnlyPositionsChange(pms, r)
  {
    if springs == [] then pms
    else
      var last := springs[|springs| - 1];
      assert last in springs;
      ConstrainSpring(ConstrainAll(pms, springs[..|springs| - 1], geo), last, geo)
  }

  /** The whole constraint pass never moves a pinned mass. */
  lemma {:induction false} ConstraintsKeepPins(pms: seq<PointMass>, springs: seq<Spring>, geo: Geometry)
    requires SpringsInRange(springs, |pms|)
    ensures forall i :: 0 <= i < |pms| && pms[i].pinned ==> ConstrainAll(pms, springs, geo)[i] == pms[i]
  {
    if springs != [] {
      var last := springs[|springs| - 1];
      assert last in springs;
      var qs := ConstrainAll(pms, springs[..|springs| - 1], geo);
      ConstraintsKeepPins(pms, springs[..|springs| - 1], geo);
      ConstrainSpringCases(qs, last, geo);
    }
  }

  // ---------------------------------------------------------------------------
  // Reset
  // ---------------------------------------------------------------------------

  /** Every mass put back at rest at its start position; nothing else changes. */
  function ResetPositions(pms: seq<PointMass>): (r: seq<PointMass>)
    ensures |r| == |pms|
    ensures forall i :: 0 <= i < |r| ==>
      && r[i].position == pms[i].startPosition
      && r[i].lastPosition == pms[i].startPosition
      && r[i] == pms[i].(position := r[i].position, lastPosition := r[i].lastPosition)
  {
    seq(|pms|, i requires 0 <= i < |pms| =>
      pms[i].(position := pms[i].startPosition, lastPosition := pms[i].startPosition))
  }

  /** `r` is `pms` with at most positions, last positions and forces changed. */
  ghost predicate OnlyMotionChanges(pms: seq<PointMass>, r: seq<PointMass>)
  {
    |r| == |pms| && forall i :: 0 <= i < |pms| ==>
      r[i] == pms[i].(position := r[i].position, lastPosition := r[i].lastPosition, forces := r[i].forces)
  }

  /**
   * Reset forgets all motion: two mass sequences that differ only in motion
   * reset to the same positions, and resetting twice is resetting once.
   */
  lemma ResetForgetsMotion(pms: seq<PointMass>, qs: seq<PointMass>)
    requires OnlyMotionChanges(pms, qs)
    ensures OnlyForcesChange(ResetPositions(pms), ResetPositions(qs))
    ensures ResetPositions(ResetPositions(pms)) == ResetPositions(pms)
  {
  }
}
