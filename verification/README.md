# Voxel compounds, sensing voxels, the velocity sensor and polygons

A Dafny model of the core of a 2-D simulator of voxel-based soft robots.
A robot is a *voxel compound*: a grid of optional voxels welded together at
the shared edges of adjacent cells and driven by an optional controller.
A *sensing voxel* is a voxel carrying an ordered list of sensors, read
once per simulation step. The *velocity sensor* reports selected
components of a voxel's linear velocity. A *polygon* is the immutable
shape record whose area and centre the viewers and the voxels use.

Modules and files:

- `options.dfy` (`Options`): the `Option` type, used where the source
  returns `null`, a NaN vector or throws.
- `geometry.dfy` (`Geometry`): plane vectors, their sum and mean, and
  the facts that the mean ignores the order of the summands and moves with a
  translation.
- `polygon.dfy` (`Polygon`): the `Poly` class over a vertex array. Its
  `Area` and `Center` loops are proved against the shoelace formula and
  the vertex mean. Lemmas show that the area does not depend on the
  starting vertex or the orientation, and compute the area and centre of an
  axis-aligned square.
- `velocity.dfy` (`Sensors`): axes, domains, and the `Velocity` class:
  its constructors, its domain array and `Sense`.
- `sensing_voxel.dfy` (`SensingVoxels`): the `SensingVoxel` class, with
  `Act` (step, then one reading per sensor, replacing the old ones) and
  `Immutable` (one reading record per stored reading, possibly augmented).
- `rows.dfy` (`Rows`): cutting a shape description into rows at commas,
  with the rules of Java's `String.split`.
- `welds.dfy` (`Welds`): the weld-joint list a compound builds, as a
  function of the occupancy grid. Proved: it holds exactly the welds between
  adjacent occupied cells, with no repeats, and two joints per adjacent pair.
  So the source's traversal (columns left to right, each bottom to top,
  welding every cell to its left and lower neighbours) yields exactly the
  welds of the occupancy pattern, described without reference to that order.
- `voxel_compound.dfy` (`VoxelCompounds`): the `VoxelCompound` class over a
  two-dimensional voxel array. It covers construction (placement and
  welding), parsing a shape description, control, centre, translation,
  snapshot and clone.

The voxel is a type parameter `V`. What the compound and the sensing
voxel need from a voxel is passed in as a function: building one at an
origin, applying a force, translating, its centre, its snapshot
components, the physics step and the sensors' readings. A grid is indexed
`[x][y]`, with `y = 0` the bottom row.

Where the design and the code differ, the model follows the code. The
design describes sensor readings as clamped to their declared domains; the
velocity sensor's code does not clamp, and neither does the model
(Sensors.ReadingIsNotClamped shows an unclamped reading).

## Model

| member | source | states |
|---|---|---|
| Polygon.Abs | src/main/java/it/units/erallab/hmsrobots/objects/immutable/Poly.java:51 | the result is non-negative and is the argument or its negation |
| Polygon.ShoelaceArea | src/main/java/it/units/erallab/hmsrobots/objects/immutable/Poly.java:45-53 | the shoelace area is non-negative, and zero for a polygon without vertices |
| Polygon.AreaRotate | src/main/java/it/units/erallab/hmsrobots/objects/immutable/Poly.java:45-53 | the area does not depend on which vertex the array starts at |
| Polygon.AreaReverse | src/main/java/it/units/erallab/hmsrobots/objects/immutable/Poly.java:45-53 | the area does not depend on the orientation (clockwise or counter-clockwise) of the vertices |
| Polygon.SquareArea | src/main/java/it/units/erallab/hmsrobots/objects/immutable/Poly.java:45-53 | an axis-aligned square of side s has area s * s |
| Polygon.SquareCenter | src/main/java/it/units/erallab/hmsrobots/objects/immutable/Poly.java:55-63 | the centre of an axis-aligned square, its corners listed in any order, is its midpoint |
| Polygon.Poly.FromList | src/main/java/it/units/erallab/hmsrobots/objects/immutable/Poly.java:30-35 | the list constructor copies the vertices, in order, into a fresh array |
| Polygon.Poly.constructor | src/main/java/it/units/erallab/hmsrobots/objects/immutable/Poly.java:37-39 | the varargs constructor keeps the caller's array itself |
| Polygon.Poly.Area | src/main/java/it/units/erallab/hmsrobots/objects/immutable/Poly.java:45-53 | the loop computes the shoelace area of the vertex array, with the source's cyclic index arithmetic |
| Polygon.Poly.Center | src/main/java/it/units/erallab/hmsrobots/objects/immutable/Poly.java:55-63 | the vertex mean; no point (the source's NaN) exactly when there are no vertices |
| Geometry.SumPermutation | src/main/java/it/units/erallab/hmsrobots/objects/immutable/Poly.java:58-61 | the accumulated sum of points is the same for any order of the points |
| Geometry.MeanPermutation | src/main/java/it/units/erallab/hmsrobots/objects/immutable/Poly.java:55-63 | the mean of points is the same for any order of the points |
| Geometry.MeanTranslated | src/main/java/it/units/erallab/hmsrobots/objects/VoxelCompound.java:148-154 | translating every point by d moves the mean by d |
| Sensors.AxisSet | src/main/java/it/units/erallab/hmsrobots/core/sensors/Velocity.java:42 | the varargs constructor's axis set holds exactly the given axes, at most two, no more than were given, and none when none are given |
| Sensors.Reading | src/main/java/it/units/erallab/hmsrobots/core/sensors/Velocity.java:64-86 | one channel per selected axis: X's component in slot 0 when X is selected, Y's in the next slot |
| Sensors.ReadingIsNotClamped | src/main/java/it/units/erallab/hmsrobots/core/sensors/Velocity.java:70-77 | a voxel moving at (3, -4) seen on X alone reads 3, outside a declared domain [-2, 2] |
| Sensors.Velocity.constructor | src/main/java/it/units/erallab/hmsrobots/core/sensors/Velocity.java:46-57 | one domain per selected axis, each [-maxVelocityNorm, maxVelocityNorm] |
| Sensors.Velocity.OfAxes | src/main/java/it/units/erallab/hmsrobots/core/sensors/Velocity.java:38-44 | the varargs constructor selects the set of given axes and sizes the domains to it |
| Sensors.Velocity.Sense | src/main/java/it/units/erallab/hmsrobots/core/sensors/Velocity.java:64-86 | a fresh array, as long as the domain array, holding the reading of the selected axes |
| SensingVoxels.Readings | src/main/java/it/units/erallab/hmsrobots/core/objects/SensingVoxel.java:77-79 | one (sensor, reading) pair per sensor, in the sensors' order, each reading taken on the given state at time t |
| SensingVoxels.RecordAfterAct | src/main/java/it/units/erallab/hmsrobots/core/objects/SensingVoxel.java:90-99 | right after a step, the record of a non-augmenting sensor i carries its reading of the new state, its domains, i and the sensor count |
| SensingVoxels.SensingVoxel.constructor | src/main/java/it/units/erallab/hmsrobots/core/objects/SensingVoxel.java:64-68 | the sensors are kept and the reading buffer starts empty |
| SensingVoxels.SensingVoxel.Act | src/main/java/it/units/erallab/hmsrobots/core/objects/SensingVoxel.java:74-80 | the voxel steps, then the buffer is replaced by one fresh reading per sensor of the new state; nothing of the old buffer survives |
| SensingVoxels.SensingVoxel.Immutable | src/main/java/it/units/erallab/hmsrobots/core/objects/SensingVoxel.java:86-101 | one record per stored reading, in order, with its values, its sensor's domains, its index and the count, augmented when the sensor is an augmenter |
| Rows.Pieces | src/main/java/it/units/erallab/hmsrobots/objects/VoxelCompound.java:83 | cutting at every comma gives at least one piece and no piece holds a comma |
| Rows.DropTrailingEmpty | src/main/java/it/units/erallab/hmsrobots/objects/VoxelCompound.java:83 | a prefix of the pieces, ending in a non-empty piece, dropping only empty ones |
| Rows.SplitJoin | src/main/java/it/units/erallab/hmsrobots/objects/VoxelCompound.java:83 | splitting comma-joined rows gives the rows back when none holds a comma and the last is not empty |
| Rows.SplitRows | src/main/java/it/units/erallab/hmsrobots/objects/VoxelCompound.java:83-84 | no row holds a comma, and there are no rows exactly when the text is made of commas alone |
| Welds.CellJointsAreWelds | src/main/java/it/units/erallab/hmsrobots/objects/VoxelCompound.java:55-64 | the joints created for one cell are exactly the welds from that cell to its occupied left and lower neighbours, without repeats |
| Welds.JointsAreWelds | src/main/java/it/units/erallab/hmsrobots/objects/VoxelCompound.java:47-66 | a joint is in the compound's list exactly when it welds two adjacent occupied cells at their shared edge, and no joint is listed twice |
| Welds.JointCount | src/main/java/it/units/erallab/hmsrobots/objects/VoxelCompound.java:47-66 | the list holds two joints per horizontally adjacent pair plus two per vertically adjacent pair |
| VoxelCompounds.PresentFrom | src/main/java/it/units/erallab/hmsrobots/objects/VoxelCompound.java:137-138 | every voxel the compound visits is the voxel of one of its occupied cells |
| VoxelCompounds.PresentEmpty | src/main/java/it/units/erallab/hmsrobots/objects/VoxelCompound.java:133-146 | the compound visits no voxel exactly when every cell is empty |
| VoxelCompounds.PresentHas | src/main/java/it/units/erallab/hmsrobots/objects/VoxelCompound.java:137-138 | every voxel in the grid is among the voxels the compound visits |
| VoxelCompounds.CenterTranslated | src/main/java/it/units/erallab/hmsrobots/objects/VoxelCompound.java:133-154 | when moving a voxel by d moves its centre by d, translating the compound by d moves its centre by d |
| VoxelCompounds.CenterOrderFree | src/main/java/it/units/erallab/hmsrobots/objects/VoxelCompound.java:133-146 | the compound's centre is the same whatever order the voxels are visited in |
| VoxelCompounds.ComponentsHave | src/main/java/it/units/erallab/hmsrobots/objects/VoxelCompound.java:97-106 | every snapshot component of every voxel in the grid is part of the compound's snapshot |
| VoxelCompounds.ShapeExample | src/main/java/it/units/erallab/hmsrobots/objects/VoxelCompound.java:82-95 | "XX ,XXX" is three cells wide and two tall, its first row on top, its blank cell empty |
| VoxelCompounds.VoxelCompound.Place | src/main/java/it/units/erallab/hmsrobots/objects/VoxelCompound.java:47-66 | an occupied cell (gx, gy) gets the voxel built at origin + (gx, gy) * side length, other cells stay empty, and the joint list is the weld list of the grid |
| VoxelCompounds.VoxelCompound.PlaceColumn | src/main/java/it/units/erallab/hmsrobots/objects/VoxelCompound.java:49-65 | placing column gx extends the placed cells and the joint list by that column |
| VoxelCompounds.VoxelCompound.PlaceCell | src/main/java/it/units/erallab/hmsrobots/objects/VoxelCompound.java:50-64 | placing cell (gx, gy) adds its voxel when occupied and exactly its welds to the occupied left and lower neighbours |
| VoxelCompounds.VoxelCompound.constructor | src/main/java/it/units/erallab/hmsrobots/objects/VoxelCompound.java:43-68 | the compound keeps controller and builder, places one voxel per occupied cell at its offset, and its joints are the weld list of the grid |
| VoxelCompounds.VoxelCompound.FromString | src/main/java/it/units/erallab/hmsrobots/objects/VoxelCompound.java:82-95 | the grid is as wide as the first row (even when that row is empty) and one cell tall per row, with the first row on top; a cell is occupied when its character exists and is not a blank; no grid exactly when there are no rows |
| VoxelCompounds.VoxelCompound.OfString | src/main/java/it/units/erallab/hmsrobots/objects/VoxelCompound.java:70-72 | the compound built on the parsed grid at (x, y), with its width and height, or none when the description has no rows |
| VoxelCompounds.VoxelCompound.Control | src/main/java/it/units/erallab/hmsrobots/objects/VoxelCompound.java:120-131 | without a controller, nothing changes and none is returned; otherwise the controller's force grid for the current voxels is returned, and each voxel inside it receives its cell's force; occupancy and joints stay valid |
| VoxelCompounds.VoxelCompound.Center | src/main/java/it/units/erallab/hmsrobots/objects/VoxelCompound.java:133-146 | the mean of the voxels' centres; none (the source's NaN vector) exactly when every cell is empty |
| VoxelCompounds.VoxelCompound.Translate | src/main/java/it/units/erallab/hmsrobots/objects/VoxelCompound.java:148-154 | every voxel is translated and empty cells stay empty, so occupancy and joints stay valid |
| VoxelCompounds.VoxelCompound.Snapshot | src/main/java/it/units/erallab/hmsrobots/objects/VoxelCompound.java:97-106 | the components of all the voxels, voxel after voxel, in the visiting order |
| VoxelCompounds.VoxelCompound.Clone | src/main/java/it/units/erallab/hmsrobots/objects/VoxelCompound.java:160-167 | a fresh compound with the same shape, controller and builder, voxels rebuilt at the origin, and the same joint list |

## Left out

- The physics engine: `addTo` (src/main/java/it/units/erallab/hmsrobots/objects/VoxelCompound.java:108-118), registering bodies and joints with the world, is not modelled.
- A joint is the pair of vertex identities it welds. The anchor point `join` computes (src/main/java/it/units/erallab/hmsrobots/objects/VoxelCompound.java:74-80) is not modelled. It averages body1's centre with itself.
- `getVoxels`, `getLastReadings`, `getSensors`, `Velocity.domains` and `Poly.getVertexes` return a field. The model's fields are read directly.
- The voxel, its physics step (`super.act`), its force application, its centre, its snapshot and the controller are function parameters. Voxels are values: applying a force or a translation puts a new value in the cell. Sharing of a voxel object between the grid and the controller is not captured.
- SensingVoxels.SensingVoxel.Immutable: the voxel's own projection (`super.immutable`) is modelled as the voxel state with no records yet. Only the sensor records this class appends are modelled.
- The three SensingVoxel constructors differ only in the voxel parameters they forward to the superclass. They are one constructor here.
- Sensors.Velocity.Sense: the rotated branch's unit vectors for the voxel's angle are not computed with trigonometry. The heading unit vector is an input, and the vector at angle + pi/2 is its perpendicular. The time argument is unused, as in the source.
- Floating point is modelled as real arithmetic. A NaN result of a division by zero is modelled as `None`.
- The grid class is not part of this model. The order in which centre, translation and snapshot visit the voxels (`values()`) is taken to be column by column, bottom to top. The centre is proved not to depend on that order; the snapshot's component order does. (The joints are built by the constructor's own explicit loops, not by this iteration.)
- Strings are sequences of Unicode characters. The source measures rows in UTF-16 code units (`length()`, `charAt`), so a character outside the Basic Multilingual Plane is one cell in the model and two (non-blank) cells in the source.
- Compound.VoxelCompound.Control: force entries outside the voxel grid are skipped (the grid class's bounds behaviour is not part of this model). A missing (null) force is not modelled.
- Exceptions of shape parsing: a description made of commas alone has no first row. The source throws there, and the model returns `None`.
- The task runner and the video writer are not part of this model.
