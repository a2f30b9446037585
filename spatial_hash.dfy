/**
 * Self-collision support (src/cloth.cpp): the box hash of a position
 * (Cloth::hash_position), the spatial map from hash to the masses in that box
 * (Cloth::build_spatial_map) and the correction one mass receives from the
 * masses sharing its bucket (Cloth::self_collide), as functions. The methods of
 * cloth.dfy are proved to compute them.
 */
module SpatialHash {
  import opened Vectors
  import opened ClothTypes

  // ---------------------------------------------------------------------------
  // Box hash
  // ---------------------------------------------------------------------------

  /** The box edge lengths along x, y and z. */
  datatype Boxes = Boxes(w: real, h: real, t: real)

  predicate NonZero(b: Boxes)
  {
    b.w != 0.0 && b.h != 0.0 && b.t != 0.0
  }

  /**
   * The boxes of a cloth `width` by `height` with `W` by `H` masses: three mass
   * spacings along x and y, and the larger of the two along z.
   */
  function BoxesOf(width: real, height: real, W: nat, H: nat): (b: Boxes)
    requires W > 0 && H > 0
    ensures b.w * W as real == 3.0 * width && b.h * H as real == 3.0 * height
    ensures b.w <= b.t && b.h <= b.t && (b.t == b.w || b.t == b.h)
    ensures width > 0.0 && height > 0.0 ==> b.w > 0.0 && b.h > 0.0 && b.t > 0.0
  {
    var w := 3.0 * width / W as real;
    var h := 3.0 * height / H as real;
    Boxes(w, h, if w < h then h else w)
  }

  /** Integer box coordinates. */
  datatype Cell = Cell(x: int, y: int, z: int)

  /** The box holding `pos`: each coordinate divided by the box edge and floored. */
  function CellOf(b: Boxes, pos: Vector3): (c: Cell)
    requires NonZero(b)
    ensures InBox(b, c, pos)
  {
    Cell((pos.x / b.w).Floor, (pos.y / b.h).Floor, (pos.z / b.t).Floor)
  }

  /** The key of a box: its coordinates combined Horner-style in base 53, offset by 53. */
  function CellKey(c: Cell): int
  {
    ((53 + c.x) * 53 + c.y) * 53 + c.z
  }

  /** The hash of a position: the key of the box that holds it (CellOfIsBox). */
  function HashPosition(b: Boxes, pos: Vector3): int
    requires NonZero(b)
  {
    CellKey(CellOf(b, pos))
  }

  /** `pos` lies in box `c`: each coordinate, divided by the box edge, is in [c, c + 1). */
  predicate InBox(b: Boxes, c: Cell, pos: Vector3)
    requires NonZero(b)
  {
    && c.x as real <= pos.x / b.w < c.x as real + 1.0
    && c.y as real <= pos.y / b.h < c.y as real + 1.0
    && c.z as real <= pos.z / b.t < c.z as real + 1.0
  }

  lemma FloorUnique(r: real, n: int)
    ensures n as real <= r < n as real + 1.0 <==> r.Floor == n
  {
  }

  /**
   * The cell of a position is the one box that holds it, so every position in
   * a box gets that box's key.
   */
  lemma CellOfIsBox(b: Boxes, c: Cell, pos: Vector3)
    requires NonZero(b)
    ensures CellOf(b, pos) == c <==> InBox(b, c, pos)
    ensures InBox(b, c, pos) ==> HashPosition(b, pos) == CellKey(c)
  {
    FloorUnique(pos.x / b.w, c.x);
    FloorUnique(pos.y / b.h, c.y);
    FloorUnique(pos.z / b.t, c.z);
  }

  /** Boxes one apart along z, y and x have keys 1, 53 and 2809 apart, so they differ. */
  lemma NeighbourKeys(c: Cell)
    ensures CellKey(Cell(c.x, c.y, c.z + 1)) == CellKey(c) + 1
    ensures CellKey(Cell(c.x, c.y + 1, c.z)) == CellKey(c) + 53
    ensures CellKey(Cell(c.x + 1, c.y, c.z)) == CellKey(c) + 2809
  {
  }

  /** Within |y|, |z| <= 26 the key tells boxes apart. */
  lemma KeyInjectiveInBand(c: Cell, d: Cell)
    requires -26 <= c.y <= 26 && -26 <= c.z <= 26
    requires -26 <= d.y <= 26 && -26 <= d.z <= 26
    ensures CellKey(c) == CellKey(d) <==> c == d
  {
    if CellKey(c) == CellKey(d) {
      var q := 53 * (c.x - d.x) + (c.y - d.y);
      assert (c.z - d.z) == -53 * q;
      assert q == 0;
      assert c.x - d.x == 0;
    }
  }

  /** Outside that band distinct boxes share a key: box (0, 0, 53) and box (0, 1, 0). */
  lemma KeysCollide()
    ensures Cell(0, 0, 53) != Cell(0, 1, 0) && CellKey(Cell(0, 0, 53)) == CellKey(Cell(0, 1, 0))
  {
  }

  // ---------------------------------------------------------------------------
  // Spatial map
  // ---------------------------------------------------------------------------

  /** The key of each mass, in mass order. */
  function Keys(pms: seq<PointMass>, b: Boxes): (r: seq<int>)
    requires NonZero(b)
    ensures |r| == |pms| && forall i :: 0 <= i < |pms| ==> r[i] == HashPosition(b, pms[i].position)
  {
    seq(|pms|, i requires 0 <= i < |pms| => HashPosition(b, pms[i].position))
  }

  /** The indices below `n` whose key is `key`, in increasing order. */
  function Bucket(keys: seq<int>, key: int, n: nat): seq<nat>
    requires n <= |keys|
  {
    if n == 0 then [] else Bucket(keys, key, n - 1) + (if keys[n - 1] == key then [n - 1] else [])
  }

  /** The map after the first `n` masses are bucketed: each key seen maps to its bucket. */
  function MapOf(keys: seq<int>, n: nat): map<int, seq<nat>>
    requires n <= |keys|
  {
    map k | k in keys[..n] :: Bucket(keys, k, n)
  }

  /** The complete spatial map of a sequence of keys. */
  function SpatialMap(keys: seq<int>): map<int, seq<nat>>
  {
    MapOf(keys, |keys|)
  }

  /** The map after one more mass, with index `i` and key `k`, is appended to its bucket. */
  function Insert(m: map<int, seq<nat>>, k: int, i: nat): map<int, seq<nat>>
  {
    m[k := (if k in m then m[k] else []) + [i]]
  }

  predicate Increasing(s: seq<nat>)
  {
    forall p, q :: 0 <= p < q < |s| ==> s[p] < s[q]
  }

  /** A bucket holds exactly the indices below `n` with its key, each once and in order. */
  lemma {:induction false} BucketContents(keys: seq<int>, key: int, n: nat)
    requires n <= |keys|
    ensures forall j: int :: j in Bucket(keys, key, n) <==> 0 <= j < n && keys[j] == key
    ensures Increasing(Bucket(keys, key, n))
  {
    if n > 0 {
      BucketContents(keys, key, n - 1);
      var prefix := Bucket(keys, key, n - 1);
      forall p | 0 <= p < |prefix| ensures prefix[p] < n - 1 {
        assert prefix[p] in prefix;
      }
    }
  }

  /** A key no mass below `n` has gets an empty bucket. */
  lemma {:induction false} BucketEmpty(keys: seq<int>, key: int, n: nat)
    requires n <= |keys| && forall j :: 0 <= j < n ==> keys[j] != key
    ensures Bucket(keys, key, n) == []
  {
    if n > 0 {
      BucketEmpty(keys, key, n - 1);
    }
  }

  /** Bucketing one more mass is the insertion the map-building loop performs. */
  lemma MapOfStep(keys: seq<int>, n: nat)
    requires n < |keys|
    ensures MapOf(keys, n + 1) == Insert(MapOf(keys, n), keys[n], n)
  {
    var k := keys[n];
    var before, after := MapOf(keys, n), MapOf(keys, n + 1);
    assert keys[..n + 1] == keys[..n] + [k];
    if k !in keys[..n] {
      forall j | 0 <= j < n ensures keys[j] != k {
        assert keys[..n][j] == keys[j];
      }
      BucketEmpty(keys, k, n);
    }
    assert after[k] == (if k in before then before[k] else []) + [n];
    forall k' | k' in after && k' != k
      ensures k' in before && after[k'] == before[k']
    {
      assert Bucket(keys, k', n + 1) == Bucket(keys, k', n) + [];
    }
  }

  /**
   * The spatial map: its keys are exactly the keys that occur; every mass is in
   * the bucket of its own key; a bucket holds only masses with its key, each
   * once, in mass order.
   */
  lemma SpatialMapContents(keys: seq<int>)
    ensures forall k :: k in SpatialMap(keys) <==> k in keys
    ensures Listed(SpatialMap(keys), keys)
    ensures forall k, j: int :: k in SpatialMap(keys) && j in SpatialMap(keys)[k] ==> 0 <= j < |keys| && keys[j] == k
    ensures forall k :: k in SpatialMap(keys) ==> Increasing(SpatialMap(keys)[k])
  {
    assert keys[..|keys|] == keys;
    forall k | k in SpatialMap(keys)
      ensures forall j: int :: j in SpatialMap(keys)[k] <==> 0 <= j < |keys| && keys[j] == k
      ensures Increasing(SpatialMap(keys)[k])
    {
      BucketContents(keys, k, |keys|);
    }
    forall i | 0 <= i < |keys|
      ensures i in SpatialMap(keys)[keys[i]]
    {
      BucketContents(keys, keys[i], |keys|);
    }
  }

  /** Every mass is listed in the bucket of its own key. */
  ghost predicate Listed(m: map<int, seq<nat>>, keys: seq<int>)
  {
    forall i :: 0 <= i < |keys| ==> keys[i] in m && i in m[keys[i]]
  }

  /** Every bucket entry indexes a mass. */
  ghost predicate BucketsIn(m: map<int, seq<nat>>, n: nat)
  {
    forall k :: k in m ==> EntriesIn(m[k], n)
  }

  // ---------------------------------------------------------------------------
  // Self-collision of one mass
  // ---------------------------------------------------------------------------

  /** Every entry of the bucket indexes a mass. */
  predicate EntriesIn(bucket: seq<nat>, n: nat)
  {
    forall j :: 0 <= j < |bucket| ==> bucket[j] < n
  }

  /** The vector from mass `i` to mass `c`. */
  function Offset(pms: seq<PointMass>, i: nat, c: nat): Vector3
    requires i < |pms| && c < |pms|
  {
    pms[c].position.Sub(pms[i].position)
  }

  /** Mass `c` is another mass closer to mass `i` than twice the thickness. */
  predicate Touches(pms: seq<PointMass>, i: nat, c: nat, thickness: real, geo: Geometry)
    requires i < |pms| && c < |pms|
  {
    c != i && geo.norm(Offset(pms, i, c)) < 2.0 * thickness
  }

  /** What touching mass `c` adds to the correction: the offset minus twice the thickness along it. */
  function Repulsion(pms: seq<PointMass>, i: nat, c: nat, thickness: real, geo: Geometry): Vector3
    requires i < |pms| && c < |pms|
  {
    var d := Offset(pms, i, c);
    d.Sub(geo.unit(d).Scale(2.0).Scale(thickness))
  }

  /** The running correction and the number of masses that contributed to it. */
  datatype Contacts = Contacts(correction: Vector3, count: nat)

  /** The scan of the first `n` bucket entries on behalf of mass `i`. */
  function Scan(pms: seq<PointMass>, bucket: seq<nat>, i: nat, thickness: real, geo: Geometry, n: nat): (r: Contacts)
    requires i < |pms| && n <= |bucket| && EntriesIn(bucket, |pms|)
    ensures r.count <= n
  {
    if n == 0 then Contacts(Zero, 0)
    else
      var acc := Scan(pms, bucket, i, thickness, geo, n - 1);
      var c := bucket[n - 1];
      if Touches(pms, i, c, thickness, geo)
      then Contacts(acc.correction.Add(Repulsion(pms, i, c, thickness, geo)), acc.count + 1)
      else acc
  }

  /** Mass `i` after its self-collision step against `bucket`. */
  function SelfCollideAt(pms: seq<PointMass>, bucket: seq<nat>, i: nat, thickness: real, steps: real, geo: Geometry): (r: PointMass)
    requires i < |pms| && EntriesIn(bucket, |pms|) && steps != 0.0
    ensures r == pms[i].(position := r.position)
  {
    var s := Scan(pms, bucket, i, thickness, geo, |bucket|);
    if s.count == 0 then pms[i]
    else pms[i].(position := pms[i].position.Add(s.correction.Div(s.count as real).Div(steps)))
  }

  /** The bucket without mass `i`. */
  function Others(bucket: seq<nat>, i: nat, n: nat): seq<nat>
    requires n <= |bucket|
  {
    if n == 0 then [] else Others(bucket, i, n - 1) + (if bucket[n - 1] == i then [] else [bucket[n - 1]])
  }

  /**
   * A mass never collides with itself: scanning its bucket gives what
   * scanning the bucket without it gives, and at most one contact per other
   * entry. No contact is counted exactly when no other entry touches it.
   */
  lemma {:induction false} ScanCounts(pms: seq<PointMass>, bucket: seq<nat>, i: nat, thickness: real, geo: Geometry, n: nat)
    requires i < |pms| && n <= |bucket| && EntriesIn(bucket, |pms|)
    ensures EntriesIn(Others(bucket, i, n), |pms|)
    ensures Scan(pms, bucket, i, thickness, geo, n)
         == Scan(pms, Others(bucket, i, n), i, thickness, geo, |Others(bucket, i, n)|)
    ensures Scan(pms, bucket, i, thickness, geo, n).count <= |Others(bucket, i, n)|
    ensures Scan(pms, bucket, i, thickness, geo, n).count == 0
        <==> forall j :: 0 <= j < n ==> !Touches(pms, i, bucket[j], thickness, geo)
    ensures Scan(pms, bucket, i, thickness, geo, n).count == 0 ==> Scan(pms, bucket, i, thickness, geo, n).correction == Zero
  {
    if n > 0 {
      ScanCounts(pms, bucket, i, thickness, geo, n - 1);
      var o := Others(bucket, i, n - 1);
      var c := bucket[n - 1];
      if c != i {
        assert Others(bucket, i, n) == o + [c];
        ScanExtend(pms, o, c, i, thickness, geo);
      } else {
        assert Others(bucket, i, n) == o + [] == o;
      }
    }
  }

  /** Scanning a bucket with one more entry at its end. */
  lemma ScanExtend(pms: seq<PointMass>, o: seq<nat>, c: nat, i: nat, thickness: real, geo: Geometry)
    requires i < |pms| && c < |pms| && EntriesIn(o, |pms|)
    ensures EntriesIn(o + [c], |pms|)
    ensures Scan(pms, o + [c], i, thickness, geo, |o| + 1)
         == var acc := Scan(pms, o, i, thickness, geo, |o|);
            if Touches(pms, i, c, thickness, geo)
            then Contacts(acc.correction.Add(Repulsion(pms, i, c, thickness, geo)), acc.count + 1)
            else acc
  {
    ScanPrefix(pms, o, [c], i, thickness, geo, |o|);
  }

  /** Entries appended after the first `n` do not change the scan of those `n`. */
  lemma {:induction false} ScanPrefix(pms: seq<PointMass>, o: seq<nat>, tail: seq<nat>, i: nat, thickness: real, geo: Geometry, n: nat)
    requires i < |pms| && n <= |o| && EntriesIn(o, |pms|) && EntriesIn(tail, |pms|)
    ensures EntriesIn(o + tail, |pms|)
    ensures Scan(pms, o + tail, i, thickness, geo, n) == Scan(pms, o, i, thickness, geo, n)
  {
    assert EntriesIn(o + tail, |pms|) by {
      forall j | 0 <= j < |o + tail| ensures (o + tail)[j] < |pms| {
        if j < |o| { assert (o + tail)[j] == o[j]; } else { assert (o + tail)[j] == tail[j - |o|]; }
      }
    }
    if n > 0 {
      ScanPrefix(pms, o, tail, i, thickness, geo, n - 1);
      assert (o + tail)[n - 1] == o[n - 1];
    }
  }

  /** When no other mass in the bucket is closer than twice the thickness, the mass does not move. */
  lemma NoContactNoMove(pms: seq<PointMass>, bucket: seq<nat>, i: nat, thickness: real, steps: real, geo: Geometry)
    requires i < |pms| && EntriesIn(bucket, |pms|) && steps != 0.0
    requires forall j :: 0 <= j < |bucket| && bucket[j] != i ==> geo.norm(Offset(pms, i, bucket[j])) >= 2.0 * thickness
    ensures SelfCollideAt(pms, bucket, i, thickness, steps, geo) == pms[i]
  {
    ScanCounts(pms, bucket, i, thickness, geo, |bucket|);
  }

  /** With exactly one touching entry, at position `k`, the scan holds that entry's push alone. */
  lemma {:induction false} ScanOneContact(pms: seq<PointMass>, bucket: seq<nat>, i: nat, thickness: real, geo: Geometry, k: nat, n: nat)
    requires i < |pms| && k < n <= |bucket| && EntriesIn(bucket, |pms|)
    requires Touches(pms, i, bucket[k], thickness, geo)
    requires forall j :: 0 <= j < |bucket| && j != k ==> !Touches(pms, i, bucket[j], thickness, geo)
    ensures Scan(pms, bucket, i, thickness, geo, n) == Contacts(Repulsion(pms, i, bucket[k], thickness, geo), 1)
  {
    if n - 1 == k {
      ScanCounts(pms, bucket, i, thickness, geo, k);
      AddZero(Repulsion(pms, i, bucket[k], thickness, geo));
    } else {
      ScanOneContact(pms, bucket, i, thickness, geo, k, n - 1);
    }
  }

  /**
   * With one simulation step per frame and exactly one touching mass `c`, the
   * correction leaves the mass exactly twice the thickness from `c`, on the
   * side it came from.
   */
  lemma OneContactSeparates(pms: seq<PointMass>, bucket: seq<nat>, i: nat, thickness: real, geo: Geometry, k: nat)
    requires Lawful(geo) && thickness >= 0.0
    requires i < |pms| && k < |bucket| && EntriesIn(bucket, |pms|)
    requires Touches(pms, i, bucket[k], thickness, geo) && geo.norm(Offset(pms, i, bucket[k])) > 0.0
    requires forall j :: 0 <= j < |bucket| && j != k ==> !Touches(pms, i, bucket[j], thickness, geo)
    ensures var p := SelfCollideAt(pms, bucket, i, thickness, 1.0, geo).position;
      && pms[bucket[k]].position.Sub(p) == geo.unit(Offset(pms, i, bucket[k])).Scale(2.0 * thickness)
      && geo.norm(pms[bucket[k]].position.Sub(p)) == 2.0 * thickness
  {
    ScanOneContact(pms, bucket, i, thickness, geo, k, |bucket|);
    var d := Offset(pms, i, bucket[k]);
    var u := geo.unit(d);
    assert u.Scale(2.0).Scale(thickness) == u.Scale(2.0 * thickness);
  }

  // ---------------------------------------------------------------------------
  // The self-collision pass
  // ---------------------------------------------------------------------------

  /** The bucket stored under `k`; empty when there is none. */
  function Lookup(m: map<int, seq<nat>>, k: int): seq<nat>
  {
    if k in m then m[k] else []
  }

  /**
   * The first `n` masses, in order, each corrected against the bucket of its
   * current position's key, reading the current positions of the others.
   */
  function SelfCollidePass(pms: seq<PointMass>, m: map<int, seq<nat>>, b: Boxes, thickness: real, steps: real,
                           geo: Geometry, n: nat): (r: seq<PointMass>)
    requires n <= |pms| && BucketsIn(m, |pms|) && NonZero(b) && steps != 0.0
    ensures |r| == |pms|
  {
    if n == 0 then pms
    else
      var q := SelfCollidePass(pms, m, b, thickness, steps, geo, n - 1);
      var bucket := Lookup(m, HashPosition(b, q[n - 1].position));
      q[n - 1 := SelfCollideAt(q, bucket, n - 1, thickness, steps, geo)]
  }

  /**
   * The pass over the first `n` masses leaves the others as they were, and
   * changes no more than positions.
   */
  lemma {:induction false} PassFrame(pms: seq<PointMass>, m: map<int, seq<nat>>, b: Boxes, thickness: real,
                                     steps: real, geo: Geometry, n: nat)
    requires n <= |pms| && BucketsIn(m, |pms|) && NonZero(b) && steps != 0.0
    ensures var r := SelfCollidePass(pms, m, b, thickness, steps, geo, n);
      && (forall j :: n <= j < |pms| ==> r[j] == pms[j])
      && (forall j :: 0 <= j < |pms| ==> r[j] == pms[j].(position := r[j].position))
  {
    if n > 0 {
      PassFrame(pms, m, b, thickness, steps, geo, n - 1);
    }
  }

  /**
   * During the pass over a map that lists every mass under its key, the key
   * of the next mass is in the map and its bucket holds the mass itself: only
   * earlier masses have moved.
   */
  lemma OwnBucketHoldsSelf(pms: seq<PointMass>, m: map<int, seq<nat>>, b: Boxes, thickness: real, steps: real,
                           geo: Geometry, n: nat)
    requires n < |pms| && NonZero(b) && steps != 0.0
    requires BucketsIn(m, |pms|) && Listed(m, Keys(pms, b))
    ensures var key := HashPosition(b, SelfCollidePass(pms, m, b, thickness, steps, geo, n)[n].position);
      key in m && n in m[key]
  {
    PassFrame(pms, m, b, thickness, steps, geo, n);
  }

  /** A map built from `n` keys only holds indices below `n`. */
  lemma SpatialMapInRange(keys: seq<int>)
    ensures BucketsIn(SpatialMap(keys), |keys|)
  {
    var m := SpatialMap(keys);
    forall k | k in m ensures EntriesIn(m[k], |keys|) {
      BucketContents(keys, k, |keys|);
      assert keys[..|keys|] == keys;
      forall j | 0 <= j < |m[k]| ensures m[k][j] < |keys| {
        assert m[k][j] in m[k];
      }
    }
  }
}
