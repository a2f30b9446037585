# Mass-spring cloth simulator: a Dafny model

This project models the core of a mass-spring cloth simulator (`src/cloth.cpp`,
class `Cloth`) and proves properties of the model.

The cloth is a rectangular grid of `W × H` point masses, stored row by row.
Springs of three families join every mass to some of its earlier neighbours:

- **structural** springs go one step up or one step left;
- **shearing** springs go one step up and one step to either side;
- **bending** springs go two steps up or two steps left.

One simulation step runs these passes in order:

1. It gives every mass the external force, `mass` times each acceleration.
2. It adds the Hooke force of every spring whose family is enabled, equal and opposite at the two ends.
3. It moves every unpinned mass by Verlet integration.
4. It rebuilds a spatial hash of the positions and pushes each mass away from the other masses in its hash bucket that are closer than twice the cloth's thickness.
5. It hands each mass to each external obstacle.
6. It pulls back every spring that is stretched beyond 1.1 times its rest length.

`reset` puts every mass back at its start position.

The model is split into modules:

| file | module | content |
|---|---|---|
| `vectors.dfy` | `Vectors` | 3-vectors over the reals; `norm` and `unit` as fields of a `Geometry` value |
| `types.dfy` | `ClothTypes` | point masses, springs, simulation parameters |
| `grid.dfy` | `Grid` | the builder's output as functions: the masses (`GridMasses`) and the spring topology in creation order (`GridSprings`) |
| `grid_properties.dfy` | `GridProperties` | what that layout and topology satisfy: placement, pins, neighbourhood, completeness, no pair twice, spring counts |
| `dynamics.dfy` | `Dynamics` | the force, integration, obstacle, constraint and reset passes as functions on the sequence of masses, and what each guarantees |
| `spatial_hash.dfy` | `SpatialHash` | the box hash, the spatial map, and the self-collision scan and pass as functions |
| `cloth.dfy` | `Simulator` | class `Cloth`, whose fields the methods update loop by loop as the source does |

Each method of class `Cloth` is proved to compute the corresponding function.
The lemmas are proved about those functions:

- `Simulator.Cloth.Simulate` ends in `Step(old masses, …)`.
- `StepEffect`, `StepOnlyMoves`, `PinnedStays` and `ResetUndoesStep` state what a whole step does.

Springs refer to their masses by index into the sequence of masses; the source uses pointers into its vector of them.

One step runs self-collision before the obstacle collisions (src/cloth.cpp:134-146); the model keeps that order.

Definitional functions (`Grid.GridMasses`, `Grid.GridSprings`, `Dynamics.ExternalForce`, `SpatialHash.CellKey` and the like) have rows of their own below. What they satisfy is stated by the lemmas and methods whose rows cite the same lines.

## Model

| member | source | states |
|---|---|---|
| Grid.MassAt | src/cloth.cpp:37-57 | definition: the mass of row `i`, column `j`, at `(j*w, 1, i*h)` when horizontal and `(j*w, i*h, jitter)` when vertical, pinned iff listed, at rest (properties: `GridProperties.MassAtRest`) |
| Grid.GridMasses | src/cloth.cpp:35-59 | definition: the masses of the first `m` rows, row after row (properties: `GridProperties.GridMassesLength`, `GridProperties.GridMassAt`) |
| Grid.SpringsOf | src/cloth.cpp:64-91 | definition: the springs of one mass, from its candidate table of six guarded offsets (order: `Simulator.CellOrder`) |
| Grid.GridSprings | src/cloth.cpp:62-93 | definition: the spring topology of the first `m` rows in creation order (properties: `GridProperties.GridSound`, `NeighboursJoined`, `GridNoPairTwice`, `SpringCounts`) |
| Simulator.Cloth.constructor | src/cloth.cpp:12-22 | stores the dimensions; the masses are the grid layout; the springs are the grid topology made into springs over those masses; every spring joins two masses; the spatial map is empty |
| Simulator.Cloth.BuildGrid | src/cloth.cpp:33-97 | appends the grid's masses, then the springs of the grid topology over them; every spring index is in range |
| Simulator.Cloth.BuildMasses | src/cloth.cpp:35-59 | appends the masses of all rows, row after row; springs and map unchanged |
| Simulator.Cloth.BuildRowMasses | src/cloth.cpp:36-58 | appends the masses of row `i`, column by column, placed by orientation; the jitter depth is used only when vertical |
| Simulator.FindPin | src/cloth.cpp:37-45 | the linear search finds a pin exactly when `(column, row)` is in the pinned list |
| Simulator.BuiltMasses | src/cloth.cpp:35-58 | the builder makes exactly `W*H` masses; mass `i` is at rest at its start position with zero force; it is pinned iff `(i % W, i / W)`, column then row, is listed |
| GridProperties.GridMassesLength | src/cloth.cpp:35-58 | the first `m` rows hold `m*W` masses |
| GridProperties.GridMassAt | src/cloth.cpp:35-58 | the mass of row `i`, column `j` sits at index `i*W + j` |
| GridProperties.RowMassesAt | src/cloth.cpp:36-58 | the first `n` masses of a row are its columns `0..n-1`, in order |
| GridProperties.MassAtRest | src/cloth.cpp:37-57 | a new mass is pinned iff the list holds `(j, i)`; its position and last position are its start position; its force is zero |
| Simulator.Cloth.BuildSprings | src/cloth.cpp:61-93 | appends, over the unchanged masses, the springs of the grid topology in creation order; masses and map unchanged; all springs in range |
| Simulator.Cloth.BuildRow | src/cloth.cpp:63-92 | appends the springs of row `h`, mass after mass |
| Simulator.Cloth.AddCellSprings | src/cloth.cpp:64-91 | appends the springs of mass `k` from its candidate table, in the order structural, shearing, bending |
| Simulator.Cloth.AddPairIf | src/cloth.cpp:66-91 | appends the two springs of one family whose guards hold, in order |
| Simulator.Cloth.AddSpringIf | src/cloth.cpp:66-69 | appends the spring `(a, b, kind)` exactly when the guard holds, with its current length as rest length |
| Simulator.CellOrder | src/cloth.cpp:65-91 | the candidate table yields, in order, up (`h>0`), left (`w>0`), up-right (`h>0 && w<W-1`), up-left (`h>0 && w>0`), two left (`w>1`) and two up (`h>1`) |
| Simulator.MaterializeFits | src/cloth.cpp:67-89 | springs made from in-range edges have exactly those edges in order; each rest length is the distance between the ends at creation |
| Simulator.BuiltSprings | src/cloth.cpp:61-93 | the built springs join in-range masses; their topology is the grid topology; each rest length is the creation distance; each joins a later mass `a` to an earlier neighbour `b < a` of its family |
| GridProperties.GridSound | src/cloth.cpp:62-93 | every spring of the first `m` rows has `0 <= b < a < m*W` and joins neighbours of its family; the guards prevent row wrap-around and out-of-range ends |
| GridProperties.SpringsJoinNeighbours | src/cloth.cpp:62-93 | the grid's springs join in-range neighbours of their family, later mass first; no spring is a self-loop |
| GridProperties.AdjacentInCell | src/cloth.cpp:64-91 | if `a` and an earlier `b` are neighbours of a family, then mass `a` creates the spring `(a, b, kind)` |
| GridProperties.NeighboursJoined | src/cloth.cpp:62-93 | the converse of SpringsJoinNeighbours: every pair of in-grid neighbours of a family is joined by a spring of that family |
| GridProperties.GridNoPairTwice | src/cloth.cpp:62-93 | no two springs join the same pair of masses, in either orientation |
| GridProperties.CountKindPartition | src/cloth.cpp:65-91 | the number of springs is the sum of the three family counts |
| GridProperties.StructuralCount | src/cloth.cpp:66-73 | `m` rows have `W*max(0,m-1) + m*max(0,W-1)` structural springs |
| GridProperties.ShearingCount | src/cloth.cpp:75-82 | `m` rows have `2*max(0,W-1)*max(0,m-1)` shearing springs |
| GridProperties.BendingCount | src/cloth.cpp:84-91 | `m` rows have `max(0,W-2)*m + max(0,m-2)*W` bending springs |
| GridProperties.SpringCounts | src/cloth.cpp:62-93 | the three family counts for a `W × H` grid, and the total spring count as their sum |
| Simulator.Cloth.Simulate | src/cloth.cpp:99-166 | the masses after the call are `Step` of the masses before, with mass `width*height*density/W/H` and time step `1/fps/steps`; the spatial map is the one built from the integrated positions; springs unchanged; invariant kept |
| Simulator.Step | src/cloth.cpp:99-166 | definition of one step as the composition of the passes in the code's order; it keeps the number of masses (properties: `StepEffect`, `StepOnlyMoves`, `PinnedStays`, `ResetUndoesStep`) |
| Simulator.Moved | src/cloth.cpp:106-132 | definition: the masses after the two force passes and Verlet integration; it keeps the number of masses |
| Simulator.Separated | src/cloth.cpp:135-138 | definition: the masses after self-collision against the map of their own keys; it keeps the number of masses |
| Simulator.PinnedStays | src/cloth.cpp:126-165 | over a whole step without obstacles, a pinned mass moves only by self-collision: integration leaves its position, and its final position is the one self-collision gave it |
| Simulator.StepEffect | src/cloth.cpp:102-132 | after a step, each mass keeps its start position and pin; its force is the external force plus the net force of the enabled springs at the pre-step positions; an unpinned mass's last position is its pre-step position, a pinned one's is unchanged |
| Simulator.StepOnlyMoves | src/cloth.cpp:106-165 | a step changes nothing but positions, last positions and forces |
| Simulator.Cloth.ComputeExternalForces | src/cloth.cpp:106-111 | every accumulator is zeroed, then gets `acceleration*mass` for each acceleration in turn |
| Dynamics.ResetForces | src/cloth.cpp:106-111 | only the forces change, and every mass's force is the external force |
| Dynamics.ExternalForce | src/cloth.cpp:107-110 | definition: a zeroed accumulator plus `acceleration*mass` for each acceleration in turn (property: `ExternalForceIsMassTimesSum`) |
| Dynamics.ExternalForceIsMassTimesSum | src/cloth.cpp:106-111 | the accumulated external force equals `mass` times the sum of the accelerations |
| Simulator.Cloth.AccumulateSpringForces | src/cloth.cpp:113-123 | the spring loop computes `ApplySprings` of the masses before it |
| Simulator.Cloth.ApplySpringForce | src/cloth.cpp:114-122 | one iteration: a disabled family is skipped; otherwise `-Fs*d` goes to end a, then `Fs*d` to end b |
| Dynamics.ApplySpring | src/cloth.cpp:114-122 | one spring changes only force accumulators |
| Dynamics.ApplySprings | src/cloth.cpp:113-123 | the spring loop changes only force accumulators |
| Dynamics.ApplySpringAt | src/cloth.cpp:118-122 | one spring adds to mass `i` exactly its contribution: `-Fs*d` at end a, `Fs*d` at end b, nothing elsewhere or when disabled |
| Dynamics.NetSpringForce | src/cloth.cpp:113-123 | definition: the sum over the springs of each one's contribution to mass `i` (used by `SpringLoopForces`, `TotalForceOnMass`, `StepEffect`) |
| Dynamics.SpringLoopForces | src/cloth.cpp:113-123 | after the loop each accumulator holds its old value plus the net contribution of the springs, all evaluated at the same positions |
| Dynamics.TotalForceOnMass | src/cloth.cpp:106-123 | each mass's total force is the external force plus its spring terms |
| Dynamics.SpringConservesForce | src/cloth.cpp:118-122 | equal and opposite: one spring leaves the sum of all forces unchanged |
| Dynamics.SpringsConserveForce | src/cloth.cpp:113-123 | the spring forces of the whole loop sum to zero |
| Dynamics.EnabledSprings | src/cloth.cpp:114-116 | a spring is kept iff it is among the springs and its family is enabled |
| Dynamics.DisabledSpringsIgnored | src/cloth.cpp:114-116 | springs of disabled families contribute no force: the loop over the enabled springs alone gives the same result |
| Simulator.Cloth.IntegrateVerlet | src/cloth.cpp:126-132 | the Verlet loop computes `IntegrateAll`; pinned masses are skipped |
| Dynamics.Integrate | src/cloth.cpp:127-131 | definition: one mass's Verlet update, skipped when pinned (properties: `IntegrateEffect`, `RestIsStable`, `InertialMotion`) |
| Dynamics.IntegrateAll | src/cloth.cpp:126-132 | definition: `Integrate` on every mass; it keeps the number of masses |
| Dynamics.IntegrateEffect | src/cloth.cpp:126-132 | a pinned mass is left as it is; an unpinned mass's last position becomes its pre-step position; force, start position and pin are kept |
| Dynamics.RestIsStable | src/cloth.cpp:129-131 | a mass at rest with no force does not move, whatever the damping |
| Dynamics.InertialMotion | src/cloth.cpp:129-131 | without damping or force, an unpinned mass repeats its previous displacement |
| Simulator.Cloth.SelfCollideAll | src/cloth.cpp:135-138 | self-collision of every mass in turn equals the pass `SelfCollidePass` over the built map; the map and springs are unchanged |
| Simulator.PassStep | src/cloth.cpp:136-138 | during the pass, the next mass's key is in the map, and one more iteration is one `SelfCollideAt` |
| SpatialHash.OwnBucketHoldsSelf | src/cloth.cpp:184-190 | the looked-up key is present (the lookup never creates an empty entry), and its bucket contains the mass itself, because only earlier masses have moved |
| SpatialHash.PassFrame | src/cloth.cpp:136-138 | the pass over the first `n` masses leaves the later ones unchanged and changes only positions |
| Simulator.Cloth.CollideObstacles | src/cloth.cpp:141-146 | each mass is offered to each obstacle in turn |
| Dynamics.CollideWith | src/cloth.cpp:143-145 | obstacles change only the mass's position |
| Dynamics.CollideAll | src/cloth.cpp:141-146 | the obstacle pass changes only positions |
| Dynamics.NoObstaclesNoChange | src/cloth.cpp:141-146 | with no obstacles the pass changes nothing |
| Simulator.Cloth.SatisfyConstraints | src/cloth.cpp:150-165 | the constraint loop computes `ConstrainAll` over the springs in order |
| Simulator.Cloth.ConstrainSpringAt | src/cloth.cpp:151-164 | one iteration of the four-way pinned split |
| Dynamics.ConstrainSpring | src/cloth.cpp:151-164 | one spring's correction changes only positions |
| Dynamics.ConstrainSpringCases | src/cloth.cpp:152-164 | within bound, or both ends pinned: nothing moves; only a pinned: only b moves; only b pinned: only a moves; neither pinned: the midpoint is kept; no other mass and no pinned mass moves |
| Dynamics.ConstraintRestoresLength | src/cloth.cpp:155-163 | an over-stretched spring, not pinned at both ends, ends exactly `1.1*rest` long, along its previous direction |
| Dynamics.ConstrainAll | src/cloth.cpp:150-165 | the constraint loop changes only positions |
| Dynamics.ConstraintsKeepPins | src/cloth.cpp:150-165 | the whole constraint pass never moves a pinned mass |
| Simulator.Cloth.BuildSpatialMap | src/cloth.cpp:168-182 | the rebuilt map is `SpatialMap` of the masses' keys; masses and springs unchanged |
| Simulator.Cloth.AddToBucket | src/cloth.cpp:177-180 | the mass is appended to its key's bucket, which is created empty if missing |
| SpatialHash.Keys | src/cloth.cpp:175-176 | definition: one key per mass, the hash of its position (the key list the map contracts use) |
| SpatialHash.MapOfStep | src/cloth.cpp:175-181 | bucketing one more mass is one insertion of the loop |
| SpatialHash.BucketContents | src/cloth.cpp:175-181 | a bucket holds exactly the masses with its key, once each, in mass order |
| SpatialHash.SpatialMapContents | src/cloth.cpp:168-181 | the map's keys are exactly the keys that occur; every mass is in its own key's bucket; buckets hold nothing else, each mass once, in order |
| SpatialHash.SpatialMapInRange | src/cloth.cpp:175-181 | every bucket entry indexes a mass |
| Simulator.Cloth.SelfCollide | src/cloth.cpp:184-202 | mass `k` is replaced by `SelfCollideAt` against the bucket of its current key; nothing else changes |
| Simulator.ScanBucket | src/cloth.cpp:186-196 | the scan loop's correction and count equal `Scan` of the whole bucket |
| SpatialHash.Scan | src/cloth.cpp:186-196 | definition of the scan's correction and count over the first `n` entries; the count is at most `n` (properties: `ScanCounts`, `ScanOneContact`) |
| SpatialHash.SelfCollidePass | src/cloth.cpp:136-138 | definition of the self-collision pass over the first `n` masses, each reading the current positions; it keeps the number of masses (properties: `PassFrame`, `OwnBucketHoldsSelf`) |
| SpatialHash.SelfCollideAt | src/cloth.cpp:184-202 | self-collision changes only the mass's position |
| SpatialHash.ScanCounts | src/cloth.cpp:189-196 | a mass never collides with itself: scanning its bucket equals scanning the bucket without it; the count is at most the number of other entries; the count is 0 iff no entry touches, and then the correction is zero |
| SpatialHash.NoContactNoMove | src/cloth.cpp:189-198 | if no other mass in the bucket is closer than `2*thickness`, the mass is unchanged |
| SpatialHash.ScanOneContact | src/cloth.cpp:189-196 | with exactly one touching entry the scan holds that entry's push alone, with count 1 |
| SpatialHash.OneContactSeparates | src/cloth.cpp:189-201 | with one touching mass and one step per frame, the mass ends exactly `2*thickness` from it, on the side it came from |
| SpatialHash.BoxesOf | src/cloth.cpp:206-208 | box edges are three mass spacings along x and y; along z the edge is the larger of the two |
| SpatialHash.CellOf | src/cloth.cpp:210-212 | the floored coordinates give a box that holds the position |
| SpatialHash.CellKey | src/cloth.cpp:215 | definition: the box coordinates combined Horner-style in base 53, offset by 53 (properties: `NeighbourKeys`, `KeyInjectiveInBand`, `KeysCollide`) |
| SpatialHash.HashPosition | src/cloth.cpp:204-216 | definition: the key of the box the position falls in (property: `CellOfIsBox`) |
| SpatialHash.CellOfIsBox | src/cloth.cpp:210-215 | the flooring picks the one box that holds the position; every position in a box gets that box's key |
| SpatialHash.NeighbourKeys | src/cloth.cpp:215 | boxes one apart along z, y or x have keys 1, 53 or 2809 apart, so they hash differently |
| SpatialHash.KeyInjectiveInBand | src/cloth.cpp:215 | for box coordinates with `|y|, |z| <= 26`, equal keys mean equal boxes |
| SpatialHash.KeysCollide | src/cloth.cpp:204-215 | the key is not unique in general: boxes (0,0,53) and (0,1,0) share one |
| Simulator.Cloth.Reset | src/cloth.cpp:222-229 | the loop computes `ResetPositions`; springs and map unchanged |
| Dynamics.ResetPositions | src/cloth.cpp:222-229 | every position and last position becomes the start position; nothing else changes |
| Dynamics.ResetForgetsMotion | src/cloth.cpp:222-229 | masses that differ only in motion reset to the same state, up to forces; reset is idempotent |
| Simulator.ResetUndoesStep | src/cloth.cpp:222-229 | resetting after a step gives what resetting before it gives, up to forces |

## Left out

- Floating point: vectors are over the reals. `norm` and `unit` are arbitrary functions passed in as a `Geometry`, and the only facts the proofs use about them are stated in `Lawful`. Rounding, single-precision `float` boxes in the hash, and the `1.0f` in the time step are not modelled.
- The float-typed hash key: the model's key is an integer. Two integer keys that round to the same `float` would share a bucket in the source; the model does not capture that.
- `rand()` for the vertical orientation's depth is the parameter `jitter`, giving each mass index its depth. The source draws it from the range ±1/1000 (src/cloth.cpp:53); the model leaves it unconstrained, and nothing proved depends on it.
- The pinned list is a sequence of pairs. The source's inner vectors are assumed to have at least two entries.
- Simulator.Cloth.constructor: the source's constructor takes only the dimensions and thickness, and calls `buildGrid` (src/cloth.cpp:20), which reads the orientation and pinned-list fields before any caller could set them. The model's constructor corresponds to building with those fields already set; here they are parameters. `buildClothMesh` (src/cloth.cpp:21, 231-381) is rendering support and is not part of this model.
- The destructor and the `new`/`delete` of buckets (src/cloth.cpp:24-31, 169-172, 179) are memory management only.
- External obstacles: each is an `Obstacle` value holding a function from position and last position to the new position. Their geometry (`src/collision/sphere.cpp`) is not part of this model.
- Pointers become indices. The model does not capture aliasing beyond what indices express.
- Simulator.Cloth.Simulate: requires nonzero `fps`, `steps` and `density`. The source would divide by zero.
- Simulator.Cloth.SelfCollide: requires its key to be in the map. The source's `map[...]` would insert and dereference a null bucket otherwise. `PassStep` and `OwnBucketHoldsSelf` prove that the requirement always holds within `Simulate`.
- Simulator.SpringFor: gives rest length 0 to an edge whose ends are not both masses. The builder never creates one (`BuiltSprings`).
- Dynamics.ConstraintRestoresLength: states the length bound per spring, right after its own correction. A later spring sharing a mass can stretch it again within the same pass, so no bound over all springs after the whole pass is claimed.
- Mass and spring counts are `nat`. The source's `int` loop bounds with negative values simply build nothing; overflow of `h * W + w` is not modelled.
