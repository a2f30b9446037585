/**
 * The grid builder's output, as functions: where each point mass is put and
 * which springs are created, in the order the builder creates them
 * (src/cloth.cpp, Cloth::buildGrid). The imperative builder in cloth.dfy is
 * proved to produce exactly these; grid_properties.dfy proves what they satisfy.
 */
module Grid {
  import opened Vectors
  import opened ClothTypes

  /** The construction parameters the builder reads. */
  datatype Layout = Layout(
    width: real,
    height: real,
    numWidthPoints: nat,
    numHeightPoints: nat,
    orientation: Orientation,
    pinned: seq<(int, int)>)

  /** The list of pinned (column, row) pairs names this mass. */
  predicate IsPinned(pinned: seq<(int, int)>, col: int, row: int)
  {
    (col, row) in pinned
  }

  /**
   * The mass in row `i`, column `j`. In the vertical orientation its depth is
   * the random jitter drawn for it, here `jitter` of its index.
   */
  function MassAt(l: Layout, jitter: nat -> real, i: nat, j: nat): PointMass
    requires i < l.numHeightPoints && j < l.numWidthPoints
  {
    var w := l.width / l.numWidthPoints as real;
    var h := l.height / l.numHeightPoints as real;
    var pos :=
      match l.orientation
      case Horizontal => Vector3(j as real * w, 1.0, i as real * h)
      case Vertical => Vector3(j as real * w, i as real * h, jitter(i * l.numWidthPoints + j));
    NewPointMass(pos, IsPinned(l.pinned, j, i))
  }

  /** The first `n` masses of row `i`. */
  function RowMasses(l: Layout, jitter: nat -> real, i: nat, n: nat): seq<PointMass>
    requires i < l.numHeightPoints && n <= l.numWidthPoints
  {
    if n == 0 then [] else RowMasses(l, jitter, i, n - 1) + [MassAt(l, jitter, i, n - 1)]
  }

  /** The masses of the first `m` rows, row after row. */
  function GridMasses(l: Layout, jitter: nat -> real, m: nat): seq<PointMass>
    requires m <= l.numHeightPoints
  {
    if m == 0 then [] else GridMasses(l, jitter, m - 1) + RowMasses(l, jitter, m - 1, l.numWidthPoints)
  }

  /** A spring's topology: its two end indices and its family. */
  datatype Edge = Edge(a: int, b: int, kind: SpringType)

  function EdgeOf(s: Spring): Edge
  {
    Edge(s.a, s.b, s.kind)
  }

  function Edges(springs: seq<Spring>): seq<Edge>
  {
    seq(|springs|, i requires 0 <= i < |springs| => EdgeOf(springs[i]))
  }

  /** The one-element sequence holding `e` when `c` holds, else the empty one. */
  function Opt(c: bool, e: Edge): seq<Edge>
  {
    if c then [e] else []
  }

  /**
   * A spring the builder may create for a mass: when `guard` holds, one of
   * family `kind` to the mass `offset` places earlier in row-major order.
   */
  datatype Candidate = Candidate(guard: bool, offset: int, kind: SpringType)

  /**
   * The candidate springs of the mass in row `h`, column `w` of a grid `W`
   * masses wide, in creation order: offsets W and 1 (structural), W - 1 and
   * W + 1 (shearing), 2 and 2W (bending), each behind its guard.
   */
  function Candidates(W: nat, h: nat, w: nat): seq<Candidate>
  {
    [ Candidate(h > 0, W, Structural),
      Candidate(w > 0, 1, Structural),
      Candidate(h > 0 && w < W - 1, W - 1, Shearing),
      Candidate(h > 0 && w > 0, W + 1, Shearing),
      Candidate(w > 1, 2, Bending),
      Candidate(h > 1, 2 * W, Bending) ]
  }

  /** The springs from mass `k` for the candidates from position `i` on whose guards hold. */
  function Created(k: int, cs: seq<Candidate>, i: nat): seq<Edge>
    decreases |cs| - i
  {
    if i >= |cs| then []
    else Opt(cs[i].guard, Edge(k, k - cs[i].offset, cs[i].kind)) + Created(k, cs, i + 1)
  }

  /** The springs created for the mass with index `k`, in row `h` and column `w`. */
  function SpringsOf(W: nat, h: nat, w: nat, k: int): seq<Edge>
  {
    Created(k, Candidates(W, h, w), 0)
  }

  /** The springs created for the first `n` masses of row `h`. */
  function RowSprings(W: nat, h: nat, n: nat): seq<Edge>
  {
    if n == 0 then [] else RowSprings(W, h, n - 1) + SpringsOf(W, h, n - 1, h * W + (n - 1))
  }

  /** The springs created for the first `m` rows of a grid `W` masses wide. */
  function GridSprings(W: nat, m: nat): seq<Edge>
  {
    if m == 0 then [] else GridSprings(W, m - 1) + RowSprings(W, m - 1, W)
  }

  /**
   * Masses `a` and `b` of a grid `W` wide are neighbours of the given family,
   * `a` being the later one: one step up or left (structural), one step up and
   * one to either side (shearing), two steps up or two left (bending).
   */
  predicate Adjacent(W: nat, a: int, b: int, kind: SpringType)
    requires W > 0
  {
    var dr := a / W - b / W;
    var dc := a % W - b % W;
    match kind
    case Structural => (dr == 1 && dc == 0) || (dr == 0 && dc == 1)
    case Shearing => dr == 1 && (dc == 1 || dc == -1)
    case Bending => (dr == 2 && dc == 0) || (dr == 0 && dc == 2)
  }

  /** The number of edges of one family. */
  function CountKind(es: seq<Edge>, kind: SpringType): nat
  {
    CountPrefix(es, kind, |es|)
  }

  /** The number of edges of one family among the first `n`. */
  function CountPrefix(es: seq<Edge>, kind: SpringType, n: nat): nat
    requires n <= |es|
  {
    if n == 0 then 0 else CountPrefix(es, kind, n - 1) + (if es[n - 1].kind == kind then 1 else 0)
  }

  function Max0(n: int): nat
  {
    if n < 0 then 0 else n
  }
}
