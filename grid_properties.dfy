/**
 * What the output of Cloth::buildGrid satisfies (src/cloth.cpp:33-97). Masses:
 * there are W x H of them, the one in row i and column j sits at index i*W + j
 * and is pinned exactly when (j, i) is listed. Springs: every spring joins a
 * mass to an earlier, in-range neighbour of its family (the guards keep the
 * offsets from leaving the grid or wrapping to another row), every neighbour
 * pair is joined, no pair is joined twice, and each family has the expected
 * number of springs.
 */
module GridProperties {
  import opened ClothTypes
  import Vectors
  import opened Grid

  lemma MulSucc(a: int, x: int)
    ensures (a + 1) * x == a * x + x
  {
  }

  lemma MulMono(a: int, b: int, x: int)
    requires a <= b && x >= 0
    ensures a * x <= b * x
  {
    assert b * x - a * x == (b - a) * x;
  }

  lemma MulPred(a: int, x: int)
    ensures (a - 1) * x == a * x - x && (a - 2) * x == a * x - 2 * x
  {
  }

  lemma DivModSplit(a: int, W: int)
    requires W > 0
    ensures (a / W) * W + a % W == a
  {
  }

  /** Euclidean division by W > 0 has a unique quotient and remainder. */
  lemma DivModUnique(k: int, W: int, q: int, m: int)
    requires W > 0 && 0 <= m < W && k == q * W + m
    ensures k / W == q && k % W == m
  {
    var q', m' := k / W, k % W;
    assert k == q' * W + m';
    if q' > q {
      MulMono(q + 1, q', W);
      MulSucc(q, W);
    }
    if q' < q {
      MulMono(q' + 1, q, W);
      MulSucc(q', W);
    }
  }

  /** The mass at (r, c) and the earlier mass at (r', c') are neighbours of the family. */
  lemma NeighbourAt(W: nat, r: nat, c: nat, r': nat, c': nat, kind: SpringType, a: int, b: int)
    requires c < W && c' < W && a == r * W + c && b == r' * W + c'
    requires match kind
      case Structural => (r - r' == 1 && c == c') || (r == r' && c - c' == 1)
      case Shearing => r - r' == 1 && (c - c' == 1 || c - c' == -1)
      case Bending => (r - r' == 2 && c == c') || (r == r' && c - c' == 2)
    ensures 0 <= b < a && Adjacent(W, a, b, kind)
  {
    DivModUnique(r * W + c, W, r, c);
    DivModUnique(r' * W + c', W, r', c');
    if r' < r {
      MulMono(r' + 1, r, W);
      MulSucc(r', W);
    }
  }

  lemma {:induction false} RowMassesAt(l: Layout, jitter: nat -> real, i: nat, n: nat)
    requires i < l.numHeightPoints && n <= l.numWidthPoints
    ensures |RowMasses(l, jitter, i, n)| == n
    ensures forall j :: 0 <= j < n ==> RowMasses(l, jitter, i, n)[j] == MassAt(l, jitter, i, j)
  {
    if n > 0 {
      RowMassesAt(l, jitter, i, n - 1);
    }
  }

  /** Indexing a row-major sequence whose last row has just been appended. */
  lemma LastRowIndex<T>(prefix: seq<T>, row: seq<T>, W: nat, m: nat, i: nat, j: nat)
    requires 0 < m && |prefix| == (m - 1) * W && |row| == W && i < m && j < W
    ensures i < m - 1 ==> i * W + j < |prefix| && (prefix + row)[i * W + j] == prefix[i * W + j]
    ensures i == m - 1 ==> i * W + j == |prefix| + j && (prefix + row)[i * W + j] == row[j]
  {
    if i < m - 1 {
      MulMono(i + 1, m - 1, W);
      MulSucc(i, W);
    }
  }

  lemma {:induction false} GridMassesLength(l: Layout, jitter: nat -> real, m: nat)
    requires m <= l.numHeightPoints
    ensures |GridMasses(l, jitter, m)| == m * l.numWidthPoints
  {
    if m > 0 {
      GridMassesLength(l, jitter, m - 1);
      RowMassesAt(l, jitter, m - 1, l.numWidthPoints);
      MulPred(m, l.numWidthPoints);
    }
  }

  /**
   * The builder lays out the masses row by row: once the first m > i rows are
   * built, the mass of row i, column j sits at index i*W + j.
   */
  lemma {:induction false} GridMassAt(l: Layout, jitter: nat -> real, m: nat, i: nat, j: nat)
    requires m <= l.numHeightPoints && i < m && j < l.numWidthPoints
    ensures && i * l.numWidthPoints + j < |GridMasses(l, jitter, m)|
            && GridMasses(l, jitter, m)[i * l.numWidthPoints + j] == MassAt(l, jitter, i, j)
  {
    var W := l.numWidthPoints;
    var prefix, row := GridMasses(l, jitter, m - 1), RowMasses(l, jitter, m - 1, W);
    assert GridMasses(l, jitter, m) == prefix + row;
    GridMassesLength(l, jitter, m - 1);
    RowMassesAt(l, jitter, m - 1, W);
    LastRowIndex(prefix, row, W, m, i, j);
    if i < m - 1 {
      GridMassAt(l, jitter, m - 1, i, j);
    }
  }

  /**
   * A freshly built mass is at rest at its start position, and it is pinned
   * exactly when the pinned list holds (j, i), its column then its row.
   */
  lemma MassAtRest(l: Layout, jitter: nat -> real, i: nat, j: nat)
    requires i < l.numHeightPoints && j < l.numWidthPoints
    ensures MassAt(l, jitter, i, j).pinned <==> (j, i) in l.pinned
    ensures MassAt(l, jitter, i, j).position == MassAt(l, jitter, i, j).startPosition
    ensures MassAt(l, jitter, i, j).lastPosition == MassAt(l, jitter, i, j).startPosition
    ensures MassAt(l, jitter, i, j).forces == Vectors.Zero
  {
  }

  /** Every created spring comes from a candidate, at its position or later, whose guard holds. */
  lemma {:induction false} CreatedFrom(k: int, cs: seq<Candidate>, i: nat, e: Edge) returns (j: nat)
    requires e in Created(k, cs, i)
    ensures i <= j < |cs| && cs[j].guard && e == Edge(k, k - cs[j].offset, cs[j].kind)
    decreases |cs| - i
  {
    if e in Opt(cs[i].guard, Edge(k, k - cs[i].offset, cs[i].kind)) {
      j := i;
    } else {
      j := CreatedFrom(k, cs, i + 1, e);
    }
  }

  /** The springs a cell creates, one by one with their guards. */
  lemma CellMember(W: nat, h: nat, w: nat, k: int, e: Edge)
    requires e in SpringsOf(W, h, w, k)
    ensures
      || (h > 0 && e == Edge(k, k - W, Structural))
      || (w > 0 && e == Edge(k, k - 1, Structural))
      || (h > 0 && w < W - 1 && e == Edge(k, k - W + 1, Shearing))
      || (h > 0 && w > 0 && e == Edge(k, k - W - 1, Shearing))
      || (w > 1 && e == Edge(k, k - 2, Bending))
      || (h > 1 && e == Edge(k, k - 2 * W, Bending))
  {
    var j := CreatedFrom(k, Candidates(W, h, w), 0, e);
  }

  /** A spring of the cell in row h, column w (mass k) joins k to an earlier neighbour. */
  lemma CellSoundAt(W: nat, h: nat, w: nat, k: int, e: Edge)
    requires w < W && k == h * W + w && e in SpringsOf(W, h, w, k)
    ensures e.a == k && 0 <= e.b < e.a && Adjacent(W, e.a, e.b, e.kind)
  {
    CellMember(W, h, w, k, e);
    MulPred(h, W);
    if h > 0 && e == Edge(k, k - W, Structural) {
      NeighbourAt(W, h, w, h - 1, w, Structural, k, k - W);
    } else if w > 0 && e == Edge(k, k - 1, Structural) {
      NeighbourAt(W, h, w, h, w - 1, Structural, k, k - 1);
    } else if h > 0 && w < W - 1 && e == Edge(k, k - W + 1, Shearing) {
      NeighbourAt(W, h, w, h - 1, w + 1, Shearing, k, k - W + 1);
    } else if h > 0 && w > 0 && e == Edge(k, k - W - 1, Shearing) {
      NeighbourAt(W, h, w, h - 1, w - 1, Shearing, k, k - W - 1);
    } else if w > 1 && e == Edge(k, k - 2, Bending) {
      NeighbourAt(W, h, w, h, w - 2, Bending, k, k - 2);
    } else {
      NeighbourAt(W, h, w, h - 2, w, Bending, k, k - 2 * W);
    }
  }

  /** The springs of a cell start at its own mass and end at an earlier one. */
  lemma CellRangeAt(W: nat, h: nat, w: nat, k: int, e: Edge)
    requires w < W && e in SpringsOf(W, h, w, k)
    ensures e.a == k && e.b < e.a
  {
    CellMember(W, h, w, k, e);
  }

  lemma {:induction false} RowRangeAt(W: nat, h: nat, n: nat, e: Edge)
    requires n <= W && e in RowSprings(W, h, n)
    ensures h * W <= e.a < h * W + n && e.b < e.a
  {
    if e in RowSprings(W, h, n - 1) {
      RowRangeAt(W, h, n - 1, e);
    } else {
      CellRangeAt(W, h, n - 1, h * W + (n - 1), e);
    }
  }

  /** Every edge joins a mass below `bound` to an earlier one. */
  ghost predicate Before(es: seq<Edge>, bound: int)
  {
    forall e :: e in es ==> e.b < e.a < bound
  }

  /** Every edge joins a mass at or above `bound` to an earlier one. */
  ghost predicate From(es: seq<Edge>, bound: int)
  {
    forall e :: e in es ==> e.b < e.a && bound <= e.a
  }

  lemma CellRange(W: nat, h: nat, w: nat, k: int)
    requires w < W
    ensures From(SpringsOf(W, h, w, k), k)
  {
    forall e | e in SpringsOf(W, h, w, k)
      ensures e.a == k && e.b < e.a
    {
      CellRangeAt(W, h, w, k, e);
    }
  }

  lemma RowRange(W: nat, h: nat, n: nat)
    requires n <= W
    ensures From(RowSprings(W, h, n), h * W) && Before(RowSprings(W, h, n), h * W + n)
  {
    forall e | e in RowSprings(W, h, n)
      ensures h * W <= e.a < h * W + n && e.b < e.a
    {
      RowRangeAt(W, h, n, e);
    }
  }

  lemma {:induction false} RowSoundAt(W: nat, h: nat, n: nat, e: Edge)
    requires n <= W && e in RowSprings(W, h, n)
    ensures h * W <= e.a < h * W + n && 0 <= e.b < e.a && Adjacent(W, e.a, e.b, e.kind)
  {
    if e in RowSprings(W, h, n - 1) {
      RowSoundAt(W, h, n - 1, e);
    } else {
      CellSoundAt(W, h, n - 1, h * W + (n - 1), e);
    }
  }

  lemma {:induction false} GridSoundAt(W: nat, m: nat, e: Edge)
    requires e in GridSprings(W, m)
    ensures W > 0 && 0 <= e.b < e.a < m * W && Adjacent(W, e.a, e.b, e.kind)
  {
    MulPred(m, W);
    if e in GridSprings(W, m - 1) {
      GridSoundAt(W, m - 1, e);
    } else {
      RowSoundAt(W, m - 1, W, e);
    }
  }

  lemma GridSound(W: nat, m: nat)
    ensures forall e :: e in GridSprings(W, m) ==>
      W > 0 && 0 <= e.b < e.a < m * W && Adjacent(W, e.a, e.b, e.kind)
  {
    forall e | e in GridSprings(W, m)
      ensures W > 0 && 0 <= e.b < e.a < m * W && Adjacent(W, e.a, e.b, e.kind)
    {
      GridSoundAt(W, m, e);
    }
  }

  /**
   * Every spring of a W x H grid joins a mass to a strictly smaller, in-range
   * index that is its neighbour of the spring's family; in particular no spring
   * joins a mass to itself.
   */
  lemma SpringsJoinNeighbours(W: nat, H: nat)
    ensures forall e :: e in GridSprings(W, H) ==>
      W > 0 && 0 <= e.b < e.a < W * H && Adjacent(W, e.a, e.b, e.kind)
  {
    GridSound(W, H);
  }

  /** The springs of a row's first n' masses are among those of its first n >= n' masses. */
  lemma {:induction false} RowGrows(W: nat, h: nat, n': nat, n: nat, e: Edge)
    requires n' <= n && e in RowSprings(W, h, n')
    ensures e in RowSprings(W, h, n)
  {
    if n' < n {
      RowGrows(W, h, n', n - 1, e);
    }
  }

  /** A spring of the mass in column w of row h is among the springs of the row's first n > w masses. */
  lemma CellInRow(W: nat, h: nat, w: nat, n: nat, e: Edge)
    requires w < n && e in SpringsOf(W, h, w, h * W + w)
    ensures e in RowSprings(W, h, n)
  {
    assert e in RowSprings(W, h, w + 1);
    RowGrows(W, h, w + 1, n, e);
  }

  /** The springs of the first m' rows are among those of the first m >= m' rows. */
  lemma {:induction false} GridGrows(W: nat, m': nat, m: nat, e: Edge)
    requires m' <= m && e in GridSprings(W, m')
    ensures e in GridSprings(W, m)
  {
    if m' < m {
      GridGrows(W, m', m - 1, e);
    }
  }

  /** A spring of row h is among the springs of the first m > h rows. */
  lemma RowInGrid(W: nat, h: nat, m: nat, e: Edge)
    requires h < m && e in RowSprings(W, h, W)
    ensures e in GridSprings(W, m)
  {
    assert e in GridSprings(W, h + 1);
    GridGrows(W, h + 1, m, e);
  }

  /** The index distance of `dr` rows, for dr <= 2, written without multiplication. */
  function RowsUp(W: int, dr: int): int
  {
    if dr == 1 then W else if dr == 2 then W + W else 0
  }

  /** Two masses' row and column differences determine their index difference. */
  lemma IndexOffset(W: nat, a: int, b: int, dr: int)
    requires W > 0 && 0 <= dr <= 2
    requires a / W - b / W == dr
    ensures b == a - RowsUp(W, dr) - (a % W - b % W)
  {
    DivModSplit(a, W);
    DivModSplit(b, W);
    RowsApart(W, a / W, b / W, dr);
  }

  /** Rows dr apart start RowsUp(W, dr) indices apart. */
  lemma RowsApart(W: int, r: int, rb: int, dr: int)
    requires 0 <= dr <= 2 && r - rb == dr
    ensures rb * W == r * W - RowsUp(W, dr)
  {
    MulPred(r, W);
    if dr == 1 {
      assert rb == r - 1;
    } else if dr == 2 {
      assert rb == r - 2;
    }
  }

  /** The row and column differences of two masses fix their index difference. */
  lemma OffsetCase(W: nat, a: int, b: int, dr: int, dc: int)
    requires W > 0 && 0 <= b && 0 <= dr <= 2
    requires a / W - b / W == dr && a % W - b % W == dc
    ensures b == a - RowsUp(W, dr) - dc && a / W >= dr && 0 <= a % W - dc < W
  {
    IndexOffset(W, a, b, dr);
    assert 0 <= b / W && 0 <= b % W < W;
  }

  /** A candidate whose guard holds is among the springs created from its position or an earlier one. */
  lemma {:induction false} CreatedHas(k: int, cs: seq<Candidate>, i: nat, j: nat, e: Edge)
    requires i <= j < |cs| && cs[j].guard && e == Edge(k, k - cs[j].offset, cs[j].kind)
    ensures e in Created(k, cs, i)
    decreases j - i
  {
    if i < j {
      CreatedHas(k, cs, i + 1, j, e);
    }
  }

  /** The neighbour one or two columns to the left is joined by a spring of the mass. */
  lemma SameRowInCell(W: nat, h: nat, w: nat, a: int, b: int, dc: int, kind: SpringType)
    requires b == a - dc && 0 <= w - dc
    requires (dc == 1 && kind == Structural) || (dc == 2 && kind == Bending)
    ensures Edge(a, b, kind) in SpringsOf(W, h, w, a)
  {
    var cs := Candidates(W, h, w);
    if dc == 1 {
      assert cs[1] == Candidate(true, 1, Structural);
      CreatedHas(a, cs, 0, 1, Edge(a, b, kind));
    } else {
      assert cs[4] == Candidate(true, 2, Bending);
      CreatedHas(a, cs, 0, 4, Edge(a, b, kind));
    }
  }

  /** The neighbour straight above is joined by a structural spring of the mass. */
  lemma UpInCell(W: nat, h: nat, w: nat, a: int, b: int)
    requires b == a - W && h >= 1
    ensures Edge(a, b, Structural) in SpringsOf(W, h, w, a)
  {
    CreatedHas(a, Candidates(W, h, w), 0, 0, Edge(a, b, Structural));
  }

  /** A diagonal neighbour in the row above is joined by a shearing spring of the mass. */
  lemma DiagonalInCell(W: nat, h: nat, w: nat, a: int, b: int, dc: int)
    requires b == a - W - dc && h >= 1 && 0 <= w - dc < W && (dc == -1 || dc == 1)
    ensures Edge(a, b, Shearing) in SpringsOf(W, h, w, a)
  {
    var cs := Candidates(W, h, w);
    if dc == -1 {
      assert cs[2] == Candidate(true, W - 1, Shearing);
      CreatedHas(a, cs, 0, 2, Edge(a, b, Shearing));
    } else {
      assert cs[3] == Candidate(true, W + 1, Shearing);
      CreatedHas(a, cs, 0, 3, Edge(a, b, Shearing));
    }
  }

  /** The neighbour two rows up is joined by a bending spring of the mass. */
  lemma TwoRowsAboveInCell(W: nat, h: nat, w: nat, a: int, b: int)
    requires b == a - 2 * W && h >= 2
    ensures Edge(a, b, Bending) in SpringsOf(W, h, w, a)
  {
    CreatedHas(a, Candidates(W, h, w), 0, 5, Edge(a, b, Bending));
  }

  /** An earlier neighbour of a mass is joined to it by one of the mass's own springs. */
  lemma AdjacentInCell(W: nat, a: int, b: int, kind: SpringType)
    requires W > 0 && 0 <= b && 0 <= a
    requires Adjacent(W, a, b, kind)
    ensures Edge(a, b, kind) in SpringsOf(W, a / W, a % W, a)
  {
    var dr, dc := a / W - b / W, a % W - b % W;
    OffsetCase(W, a, b, dr, dc);
    if dr == 0 {
      SameRowInCell(W, a / W, a % W, a, b, dc, kind);
    } else if dr == 1 && kind == Structural {
      UpInCell(W, a / W, a % W, a, b);
    } else if dr == 1 {
      DiagonalInCell(W, a / W, a % W, a, b, dc);
    } else {
      TwoRowsAboveInCell(W, a / W, a % W, a, b);
    }
  }

  /** An index below W*H lies in one of the first H rows. */
  lemma QuotientBelow(W: nat, H: nat, a: int)
    requires W > 0 && 0 <= a < W * H
    ensures a / W < H
  {
    var q := a / W;
    DivModSplit(a, W);
    if q >= H {
      MulMono(H, q, W);
    }
  }

  /** An index whose row number is non-negative is non-negative. */
  lemma QuotientNonNegative(W: nat, a: int)
    requires W > 0 && a / W >= 0
    ensures 0 <= a
  {
    DivModSplit(a, W);
    MulMono(0, a / W, W);
  }

  /** The later mass of a neighbouring pair has a valid index, in a row of the grid. */
  lemma LaterInGrid(W: nat, H: nat, a: int, b: int, kind: SpringType)
    requires W > 0 && 0 <= b && a < W * H
    requires Adjacent(W, a, b, kind)
    ensures 0 <= a && a / W < H && 0 <= a % W < W
  {
    assert 0 <= b / W <= a / W;
    QuotientNonNegative(W, a);
    QuotientBelow(W, H, a);
  }

  /**
   * Conversely, every pair of neighbouring masses in a W x H grid is joined by
   * a spring of their family, created by the later of the two.
   */
  lemma NeighboursJoined(W: nat, H: nat, a: int, b: int, kind: SpringType)
    requires W > 0 && 0 <= b && a < W * H
    requires Adjacent(W, a, b, kind)
    ensures Edge(a, b, kind) in GridSprings(W, H)
  {
    LaterInGrid(W, H, a, b, kind);
    var r, c := a / W, a % W;
    DivModSplit(a, W);
    AdjacentInCell(W, a, b, kind);
    CellInRow(W, r, c, W, Edge(a, b, kind));
    RowInGrid(W, r, H, Edge(a, b, kind));
  }

  /** No two edges join the same pair of masses, in either orientation. */
  ghost predicate NoPairTwice(es: seq<Edge>)
  {
    forall i, j {:trigger Apart(es[i], es[j])} :: 0 <= i < j < |es| ==> Apart(es[i], es[j])
  }

  /** Two edges join different pairs of masses, in either orientation. */
  predicate Apart(e: Edge, f: Edge)
  {
    !(e.a == f.a && e.b == f.b) && !(e.a == f.b && e.b == f.a)
  }

  /** Edges all of whose later ends lie before `bound` can precede edges whose later ends do not. */
  lemma ConcatNoPairTwice(x: seq<Edge>, y: seq<Edge>, bound: int)
    requires NoPairTwice(x) && NoPairTwice(y)
    requires Before(x, bound) && From(y, bound)
    ensures NoPairTwice(x + y)
  {
    var s := x + y;
    forall i, j | 0 <= i < j < |s|
      ensures Apart(s[i], s[j])
    {
      if j < |x| {
        assert s[i] == x[i] && s[j] == x[j] && Apart(x[i], x[j]);
      } else if i >= |x| {
        assert s[i] == y[i - |x|] && s[j] == y[j - |x|] && Apart(y[i - |x|], y[j - |x|]);
      } else {
        assert s[i] in x && s[j] in y;
      }
    }
  }

  /** No edge of `x` joins the same pair as `e`. */
  ghost predicate Fresh(x: seq<Edge>, e: Edge)
  {
    forall f :: f in x ==> !(f.a == e.a && f.b == e.b) && !(f.a == e.b && f.b == e.a)
  }

  lemma FreshOpt(c: bool, f: Edge, e: Edge)
    requires c ==> !(f.a == e.a && f.b == e.b) && !(f.a == e.b && f.b == e.a)
    ensures Fresh(Opt(c, f), e)
  {
  }

  lemma FreshConcat(x: seq<Edge>, y: seq<Edge>, e: Edge)
    requires Fresh(x, e) && Fresh(y, e)
    ensures Fresh(x + y, e)
  {
  }

  /** Putting an edge that repeats no pair in front keeps a sequence free of repeated pairs. */
  lemma NoPairTwiceCons(c: bool, e: Edge, y: seq<Edge>)
    requires NoPairTwice(y) && (c ==> Fresh(y, e))
    ensures NoPairTwice(Opt(c, e) + y)
  {
    var s := Opt(c, e) + y;
    var d := |Opt(c, e)|;
    forall i, j | 0 <= i < j < |s|
      ensures Apart(s[i], s[j])
    {
      if i >= d {
        assert s[i] == y[i - d] && s[j] == y[j - d] && Apart(y[i - d], y[j - d]);
      } else {
        assert s[i] == e && s[j] in y;
      }
    }
  }

  /** The candidates from position `i` on whose guards hold have distinct positive offsets. */
  ghost predicate DistinctOffsets(cs: seq<Candidate>, i: nat)
  {
    && (forall j :: i <= j < |cs| && cs[j].guard ==> cs[j].offset > 0)
    && (forall j, l :: i <= j < l < |cs| && cs[j].guard && cs[l].guard ==> cs[j].offset != cs[l].offset)
  }

  /** A spring to a different earlier mass repeats no pair of the created ones. */
  lemma {:induction false} CreatedFresh(k: int, cs: seq<Candidate>, i: nat, off: int, kind: SpringType)
    requires off > 0
    requires forall j :: i <= j < |cs| && cs[j].guard ==> cs[j].offset > 0 && cs[j].offset != off
    ensures Fresh(Created(k, cs, i), Edge(k, k - off, kind))
    decreases |cs| - i
  {
    if i < |cs| {
      var c := cs[i];
      CreatedFresh(k, cs, i + 1, off, kind);
      FreshOpt(c.guard, Edge(k, k - c.offset, c.kind), Edge(k, k - off, kind));
      FreshConcat(Opt(c.guard, Edge(k, k - c.offset, c.kind)), Created(k, cs, i + 1), Edge(k, k - off, kind));
    }
  }

  /** Candidates with distinct positive offsets create no pair twice. */
  lemma {:induction false} CreatedNoPairTwice(k: int, cs: seq<Candidate>, i: nat)
    requires DistinctOffsets(cs, i)
    ensures NoPairTwice(Created(k, cs, i))
    decreases |cs| - i
  {
    if i < |cs| {
      var c := cs[i];
      CreatedNoPairTwice(k, cs, i + 1);
      if c.guard {
        CreatedFresh(k, cs, i + 1, c.offset, c.kind);
      }
      NoPairTwiceCons(c.guard, Edge(k, k - c.offset, c.kind), Created(k, cs, i + 1));
    }
  }

  /** The six guarded offsets of a cell are distinct, so a cell repeats no pair. */
  lemma CellNoPairTwiceAt(W: nat, h: nat, w: nat, k: int)
    requires w < W
    ensures NoPairTwice(SpringsOf(W, h, w, k))
  {
    CreatedNoPairTwice(k, Candidates(W, h, w), 0);
  }

  lemma {:induction false} RowNoPairTwice(W: nat, h: nat, n: nat)
    requires n <= W
    ensures NoPairTwice(RowSprings(W, h, n))
  {
    if n > 0 {
      var x, bound := RowSprings(W, h, n - 1), h * W + (n - 1);
      var y := SpringsOf(W, h, n - 1, bound);
      assert RowSprings(W, h, n) == x + y;
      RowNoPairTwice(W, h, n - 1);
      CellNoPairTwiceAt(W, h, n - 1, bound);
      RowRange(W, h, n - 1);
      CellRange(W, h, n - 1, bound);
      ConcatNoPairTwice(x, y, bound);
    }
  }

  lemma {:induction false} GridRangeAt(W: nat, m: nat, e: Edge)
    requires e in GridSprings(W, m)
    ensures e.b < e.a < m * W
  {
    if e in GridSprings(W, m - 1) {
      GridRangeAt(W, m - 1, e);
      MulPred(m, W);
    } else {
      RowRangeAt(W, m - 1, W, e);
      MulPred(m, W);
    }
  }

  lemma GridRange(W: nat, m: nat)
    ensures Before(GridSprings(W, m), m * W)
  {
    forall e | e in GridSprings(W, m)
      ensures e.b < e.a < m * W
    {
      GridRangeAt(W, m, e);
    }
  }

  /** No two springs of a W x H grid join the same pair of masses. */
  lemma {:induction false} GridNoPairTwice(W: nat, m: nat)
    ensures NoPairTwice(GridSprings(W, m))
  {
    if m > 0 {
      var x, y, bound := GridSprings(W, m - 1), RowSprings(W, m - 1, W), (m - 1) * W;
      GridNoPairTwice(W, m - 1);
      RowNoPairTwice(W, m - 1, W);
      GridRange(W, m - 1);
      RowRange(W, m - 1, W);
      ConcatNoPairTwice(x, y, bound);
    }
  }

  /** Counting within the first part of a concatenation sees only that part. */
  lemma {:induction false} CountPrefixLeft(x: seq<Edge>, y: seq<Edge>, kind: SpringType, n: nat)
    requires n <= |x|
    ensures CountPrefix(x + y, kind, n) == CountPrefix(x, kind, n)
  {
    if n > 0 {
      CountPrefixLeft(x, y, kind, n - 1);
      assert (x + y)[n - 1] == x[n - 1];
    }
  }

  /** Counting past the first part of a concatenation adds the count within the second. */
  lemma {:induction false} CountPrefixRight(x: seq<Edge>, y: seq<Edge>, kind: SpringType, j: nat)
    requires j <= |y|
    ensures CountPrefix(x + y, kind, |x| + j) == CountKind(x, kind) + CountPrefix(y, kind, j)
  {
    if j == 0 {
      CountPrefixLeft(x, y, kind, |x|);
    } else {
      CountPrefixRight(x, y, kind, j - 1);
      assert (x + y)[|x| + j - 1] == y[j - 1];
    }
  }

  lemma CountKindAppend(x: seq<Edge>, y: seq<Edge>, kind: SpringType)
    ensures CountKind(x + y, kind) == CountKind(x, kind) + CountKind(y, kind)
  {
    CountPrefixRight(x, y, kind, |y|);
  }

  lemma {:induction false} PrefixPartition(es: seq<Edge>, n: nat)
    requires n <= |es|
    ensures n == CountPrefix(es, Structural, n) + CountPrefix(es, Shearing, n) + CountPrefix(es, Bending, n)
  {
    if n > 0 {
      PrefixPartition(es, n - 1);
    }
  }

  lemma CountKindPartition(es: seq<Edge>)
    ensures |es| == CountKind(es, Structural) + CountKind(es, Shearing) + CountKind(es, Bending)
  {
    PrefixPartition(es, |es|);
  }

  function B(c: bool): nat
  {
    if c then 1 else 0
  }

  lemma CountOptional(c: bool, e: Edge, kind: SpringType)
    ensures CountKind(Opt(c, e), kind) == B(c && e.kind == kind)
  {
    if c {
      assert CountPrefix([e], kind, 0) == 0;
    }
  }

  /** How many of the candidates from position `i` on are created and of family `kind`. */
  function Tally(cs: seq<Candidate>, i: nat, kind: SpringType): nat
    decreases |cs| - i
  {
    if i >= |cs| then 0 else B(cs[i].guard && cs[i].kind == kind) + Tally(cs, i + 1, kind)
  }

  lemma {:induction false} CreatedTally(k: int, cs: seq<Candidate>, i: nat, kind: SpringType)
    ensures CountKind(Created(k, cs, i), kind) == Tally(cs, i, kind)
    decreases |cs| - i
  {
    if i < |cs| {
      var c := cs[i];
      CreatedTally(k, cs, i + 1, kind);
      CountKindAppend(Opt(c.guard, Edge(k, k - c.offset, c.kind)), Created(k, cs, i + 1), kind);
      CountOptional(c.guard, Edge(k, k - c.offset, c.kind), kind);
    }
  }

  /** The springs of each family the mass in row h, column w creates: one per guard that holds. */
  function CellTally(W: nat, h: nat, w: nat, kind: SpringType): nat
  {
    match kind
    case Structural => B(h > 0) + B(w > 0)
    case Shearing => B(h > 0 && w < W - 1) + B(h > 0 && w > 0)
    case Bending => B(w > 1) + B(h > 1)
  }

  lemma CellCounts(W: nat, h: nat, w: nat, k: int, kind: SpringType)
    ensures CountKind(SpringsOf(W, h, w, k), kind) == CellTally(W, h, w, kind)
  {
    CreatedTally(k, Candidates(W, h, w), 0, kind);
    CandidatesTally(W, h, w, kind);
  }

  lemma CandidatesTally(W: nat, h: nat, w: nat, kind: SpringType)
    ensures Tally(Candidates(W, h, w), 0, kind) == CellTally(W, h, w, kind)
  {
    var cs := Candidates(W, h, w);
    assert Tally(cs, 6, kind) == 0;
    assert Tally(cs, 5, kind) == B(h > 1 && Bending == kind);
    assert Tally(cs, 4, kind) == B(w > 1 && Bending == kind) + Tally(cs, 5, kind);
    assert Tally(cs, 3, kind) == B(h > 0 && w > 0 && Shearing == kind) + Tally(cs, 4, kind);
    assert Tally(cs, 2, kind) == B(h > 0 && w < W - 1 && Shearing == kind) + Tally(cs, 3, kind);
    assert Tally(cs, 1, kind) == B(w > 0 && Structural == kind) + Tally(cs, 2, kind);
    assert Tally(cs, 0, kind) == B(h > 0 && Structural == kind) + Tally(cs, 1, kind);
  }

  lemma RowStep(W: nat, h: nat, n: nat, kind: SpringType)
    requires 0 < n
    ensures CountKind(RowSprings(W, h, n), kind)
      == CountKind(RowSprings(W, h, n - 1), kind) + CountKind(SpringsOf(W, h, n - 1, h * W + (n - 1)), kind)
  {
    CountKindAppend(RowSprings(W, h, n - 1), SpringsOf(W, h, n - 1, h * W + (n - 1)), kind);
  }

  /**
   * The springs of each family created by the first n masses of row h: one
   * structural spring up per mass below the first row and one to the left per
   * mass after the first; two diagonals per mass below the first row, less the
   * missing one at each end; one bending spring left per mass after the second
   * and one up per mass below the second row.
   */
  function RowTally(W: nat, h: nat, n: nat, kind: SpringType): nat
  {
    match kind
    case Structural => (if h > 0 then n else 0) + Max0(n - 1)
    case Shearing => if h > 0 then Max0(n - 1) + (if n < W then n else Max0(W - 1)) else 0
    case Bending => Max0(n - 2) + (if h > 1 then n else 0)
  }

  lemma RowTallyStep(W: nat, h: nat, n: nat, kind: SpringType)
    requires 0 < n <= W
    ensures RowTally(W, h, n, kind) == RowTally(W, h, n - 1, kind) + CellTally(W, h, n - 1, kind)
  {
  }

  lemma {:induction false} RowCounts(W: nat, h: nat, n: nat, kind: SpringType)
    requires n <= W
    ensures CountKind(RowSprings(W, h, n), kind) == RowTally(W, h, n, kind)
  {
    if n > 0 {
      RowCounts(W, h, n - 1, kind);
      CellCounts(W, h, n - 1, h * W + (n - 1), kind);
      RowStep(W, h, n, kind);
      RowTallyStep(W, h, n, kind);
    } else {
      RowCountsEmpty(W, h, kind);
    }
  }

  lemma RowCountsEmpty(W: nat, h: nat, kind: SpringType)
    ensures CountKind(RowSprings(W, h, 0), kind) == RowTally(W, h, 0, kind)
  {
  }

  lemma GridStep(W: nat, m: nat, kind: SpringType)
    requires 0 < m
    ensures CountKind(GridSprings(W, m), kind)
      == CountKind(GridSprings(W, m - 1), kind) + CountKind(RowSprings(W, m - 1, W), kind)
  {
    CountKindAppend(GridSprings(W, m - 1), RowSprings(W, m - 1, W), kind);
  }

  /** Multiplying by the successor adds one more multiple (stated on named factors). */
  lemma MulStep(x: int, p: int, q: int)
    requires q == p + 1
    ensures x * q == x * p + x && q * x == p * x + x
  {
  }

  lemma {:induction false} StructuralCount(W: nat, m: nat)
    ensures CountKind(GridSprings(W, m), Structural) == W * Max0(m - 1) + m * Max0(W - 1)
  {
    if m > 0 {
      StructuralCount(W, m - 1);
      RowCounts(W, m - 1, W, Structural);
      GridStep(W, m, Structural);
      MulStep(Max0(W - 1), m - 1, m);
      if m > 1 {
        MulStep(W, Max0(m - 2), Max0(m - 1));
      }
    }
  }

  lemma {:induction false} ShearingCount(W: nat, m: nat)
    ensures CountKind(GridSprings(W, m), Shearing) == 2 * Max0(W - 1) * Max0(m - 1)
  {
    if m > 0 {
      ShearingCount(W, m - 1);
      RowCounts(W, m - 1, W, Shearing);
      GridStep(W, m, Shearing);
      if m > 1 {
        MulStep(2 * Max0(W - 1), Max0(m - 2), Max0(m - 1));
      }
    }
  }

  lemma {:induction false} BendingCount(W: nat, m: nat)
    ensures CountKind(GridSprings(W, m), Bending) == Max0(W - 2) * m + Max0(m - 2) * W
  {
    if m > 0 {
      BendingCount(W, m - 1);
      RowCounts(W, m - 1, W, Bending);
      GridStep(W, m, Bending);
      MulStep(Max0(W - 2), m - 1, m);
      if m > 2 {
        MulStep(W, Max0(m - 3), Max0(m - 2));
      }
    }
  }

  /**
   * A W x H grid has W(H-1) + H(W-1) structural, 2(W-1)(H-1) shearing and
   * (W-2)H + (H-2)W bending springs, each factor counted as zero when it is
   * negative, and no other springs.
   */
  lemma SpringCounts(W: nat, H: nat)
    ensures CountKind(GridSprings(W, H), Structural) == W * Max0(H - 1) + H * Max0(W - 1)
    ensures CountKind(GridSprings(W, H), Shearing) == 2 * Max0(W - 1) * Max0(H - 1)
    ensures CountKind(GridSprings(W, H), Bending) == Max0(W - 2) * H + Max0(H - 2) * W
    ensures |GridSprings(W, H)| == W * Max0(H - 1) + H * Max0(W - 1)
      + 2 * Max0(W - 1) * Max0(H - 1) + Max0(W - 2) * H + Max0(H - 2) * W
  {
    StructuralCount(W, H);
    ShearingCount(W, H);
    BendingCount(W, H);
    CountKindPartition(GridSprings(W, H));
  }
}
