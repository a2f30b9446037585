/**
 * The cloth's records: point masses, springs and the per-step parameters.
 * Springs refer to their end points by index into the cloth's sequence of
 * point masses, where the source holds pointers into its vector of them.
 */
module ClothTypes {
  import opened Vectors

  datatype SpringType = Structural | Shearing | Bending

  datatype Orientation = Horizontal | Vertical

  /**
   * A point mass. `startPosition` and `pinned` are fixed when it is built;
   * the simulation changes `position`, `lastPosition` and `forces`.
   */
  datatype PointMass = PointMass(
    startPosition: Vector3,
    position: Vector3,
    lastPosition: Vector3,
    forces: Vector3,
    pinned: bool)

  /** A point mass at rest at `pos`, as built by the grid builder. */
  function NewPointMass(pos: Vector3, pin: bool): PointMass
  {
    PointMass(pos, pos, pos, Zero, pin)
  }

  /** A spring between the point masses with indices `a` and `b`. */
  datatype Spring = Spring(a: int, b: int, kind: SpringType, restLength: real)

  /** The simulation parameters read by one step. */
  datatype ClothParameters = ClothParameters(
    enableStructural: bool,
    enableShearing: bool,
    enableBending: bool,
    density: real,
    damping: real,
    ks: real)

  /** Whether springs of this family take part in the force computation. */
  predicate Enabled(cp: ClothParameters, kind: SpringType)
  {
    match kind
    case Structural => cp.enableStructural
    case Shearing => cp.enableShearing
    case Bending => cp.enableBending
  }

  /** Both ends of every spring index into a sequence of `n` point masses. */
  ghost predicate SpringsInRange(springs: seq<Spring>, n: nat)
  {
    forall s :: s in springs ==> 0 <= s.a < n && 0 <= s.b < n
  }
}
