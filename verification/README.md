# SFML fluid sandbox — a Dafny model of its core

The sandbox is a 2-D particle toy drawn with SFML. Particles fall under
gravity in a box the size of the window and bounce off its walls. A
spatial hash grid keeps every particle bucketed by the cell it stands in.
Rigid circular objects can be moved and locked. Simulation parameters are
tuned live from the keyboard: hold a parameter's key and press `+`/`-`,
or backspace to reset it.

This project models that core as immutable Dafny datatypes and pure
functions. Floats are reals and `size_t` values are unbounded naturals.
Keyboard state is a snapshot set of pressed key codes, and the SFML key
codes are abstract ordinals (`Controls.KeyLayout`). One module models each
source file:

- `Utils` (`src/utils.h`): vectors, `distance_sq`, `dot_product`, `TupleHash`.
- `Particles` (`src/particle.h`): the particle record, its constructors and Euler step.
- `Objects` (`src/object.h`): rigid bodies, their step and `toggle_lock`.
- `SpatialHashGrid` (`src/spatial_hash_grid.h`, `.cpp`): the grid as
  `map<nat, seq<ParticleId>>`, the cell key, `insert` and `remove`.
  `remove` is a `Result` whose failure is the `runtime_error` "Particle not
  found in grid".
- `FluidSandbox` (`src/fluid_sandbox.h`, `.cpp`): constants, construction,
  `resize`, both `add_particle` overloads and `update`. `update` is a fold
  over the particle indices. Each step removes one particle from the grid,
  applies gravity, integrates, clamps it to the walls and re-inserts it.
- `Controls` (`src/controls.cpp`): `convert_key`, `Param::update` and
  `ControlsDisplay::update`.
- `MainParams` (`src/main.cpp`): `adjust_param`. Its `convert_key` is the
  same code as `Param::convert_key` and is modelled once, as `Controls.ConvertKey`.
- `Wrappers`: `Option` and `Result`.

A particle handle is a pointer into a `std::deque` in the source.
`emplace_back` on a deque never moves existing elements, and this version
never erases particles. So the model names a particle by its index in the
sandbox's particle sequence.

The main invariant is `FluidSandbox.Consistent`: every particle is stored
exactly once in the grid, in the cell of its current position, and no
cell holds anything else. A new sandbox has it. `add_particle` keeps it.
`update` keeps it, and under it the `remove` inside `update` never throws.

This version has no density relaxation, springs, viscosity or object
collisions. Its grid is kept up to date by `insert`/`remove` and has no
query. Walls sit at `PARTICLE_RADIUS` from the edges, and a bounce negates
the velocity component without damping. `hash` casts each coordinate to
`size_t`, which truncates toward zero: a coordinate in (-1, 0) lands in
cell 0, and a float at or below -1 makes the cast undefined. The model
therefore accepts exactly the positions whose coordinates lie above -1
(`SpatialHashGrid.Hashable`). For the same reason `update` needs both
sides of the box to be at least `PARTICLE_RADIUS` long as soon as it holds
a particle: otherwise the clamp puts the particle at or below -1.

## Model

| member | source | states |
|---|---|---|
| `Utils.DistanceSq` | src/utils.h:18-21 | the squared distance is never negative and is zero exactly when the two points coincide |
| `Utils.DistanceSqSymmetric` | src/utils.h:18-21 | `distance_sq(a, b) == distance_sq(b, a)` |
| `Utils.DotCommutative` | src/utils.h:23-27 | `dot_product(a, b) == dot_product(b, a)` |
| `Utils.DotSelfIsDistanceSq` | src/utils.h:18-27 | the dot product of `a - b` with itself is `distance_sq(a, b)` |
| `Utils.TupleHashInjective` | src/utils.h:29-35 | `TupleHash` gives equal hashes to two pairs exactly when the pairs are equal, if both first components are below 1168639 (no overflow modelled) |
| `Utils.TupleHashCollision` | src/utils.h:33 | without that bound the hash collides: `(1168639, 0)` and `(0, 1)` share a hash |
| `Particles.NewParticle` | src/particle.h:14 | a new particle has `prev_position == position` and zero velocity |
| `Particles.NewMovingParticle` | src/particle.h:15 | a new particle has `prev_position == position` and the given velocity |
| `Particles.Update` | src/particle.h:17-21 | after a step, `prev_position` is the old position, the velocity is unchanged, and `position - prev_position == velocity * dt` |
| `Particles.UpdateOfNewParticle` | src/particle.h:14-21 | a freshly built particle is still at its start after one step exactly when `velocity * dt` is zero |
| `Objects.NewObject` | src/object.h:17-20 | a new object is unlocked and holds the given position, radius, mass and velocity |
| `Objects.NewObjectAtRest` | src/object.h:19-20 | with the defaulted velocity argument the new object is unlocked and at rest |
| `Objects.Update` | src/object.h:22-28 | a locked object does not change; an unlocked one moves by `velocity * dt`; velocity, radius, mass and lock never change |
| `Objects.ToggleLock` | src/object.h:30-34 | the lock flag flips and the velocity becomes zero; position, radius and mass stay the same |
| `Objects.ToggleLockTwice` | src/object.h:30-34 | two toggles restore the lock flag and leave the object stopped, with every other field as before |
| `Objects.UpdateAfterToggleIsStill` | src/object.h:22-34 | right after a toggle a step does not move the object, whatever the lock state |
| `SpatialHashGrid.Trunc` | src/spatial_hash_grid.h:31 | the `size_t` cast truncates toward zero: a non-negative coordinate becomes its floor (`n <= x < n + 1`), and one in (-1, 0) becomes 0 |
| `SpatialHashGrid.NegativeFractionInCellZero` | src/spatial_hash_grid.h:29-32 | a position whose x coordinate lies in (-1, 0) is in x cell 0 and gets the key of the same position moved to x = 0 |
| `SpatialHashGrid.SameCellSameKey` | src/spatial_hash_grid.h:29-32 | two positions in the same cell get the same key, with no bound on the cell indices |
| `SpatialHashGrid.KeyIsTupleHash` | src/spatial_hash_grid.h:29-32 | the grid key is `TupleHash` of the x and y cell indices, with the same prime |
| `SpatialHashGrid.KeyIdentifiesCell` | src/spatial_hash_grid.h:29-32 | two positions get the same key exactly when they are in the same cell, provided both x cell indices are below `HASH_PRIME` |
| `SpatialHashGrid.KeyAliasesPastPrime` | src/spatial_hash_grid.h:31 | with 10-pixel cells, x cell `HASH_PRIME` on row 0 and x cell 0 on row 1 share a key |
| `SpatialHashGrid.EmptyGrid` | src/spatial_hash_grid.h:17 | a new grid keeps the given cell size and every cell reads as empty |
| `SpatialHashGrid.Insert` | src/spatial_hash_grid.cpp:4-8 | the handle is appended at the end of the cell of `hash(position)`; no other cell changes; the cell size is unchanged |
| `SpatialHashGrid.FirstIndex` | src/spatial_hash_grid.cpp:14-21 | the scan finds nothing exactly when the handle is absent, and otherwise returns an index holding the handle with no earlier occurrence |
| `SpatialHashGrid.EraseFirst` | src/spatial_hash_grid.cpp:16-19 | erasing removes exactly the first occurrence: one fewer element, the multiset loses one copy, and the other entries keep their order |
| `SpatialHashGrid.Remove` | src/spatial_hash_grid.cpp:10-23 | `remove` fails with "Particle not found in grid" exactly when the handle is not in the cell of the particle's current position; otherwise it erases the first occurrence there, leaves every other cell untouched, and leaves the key present |
| `SpatialHashGrid.InsertThenRemove` | src/spatial_hash_grid.cpp:4-23 | `remove` right after `insert` at the same position succeeds and restores every cell's contents; if the handle was not in the cell before, each cell is restored entry for entry |
| `SpatialHashGrid.RemoveAfterMoveFails` | src/spatial_hash_grid.cpp:10-23 | a particle inserted at (0,0) and then removed as if at (20,0) is looked up in the wrong cell, and `remove` throws |
| `SpatialHashGrid.InsertCounts` | src/spatial_hash_grid.cpp:4-8 | counted per handle, `insert` adds one occurrence of the handle to its cell and nothing anywhere else |
| `SpatialHashGrid.RemoveCounts` | src/spatial_hash_grid.cpp:10-23 | counted per handle, a successful `remove` takes away one occurrence of the handle from its cell and nothing anywhere else |
| `SpatialHashGrid.TotalCounts` | src/spatial_hash_grid.cpp:4-23 | the total number of stored handles goes up by one on `insert` and down by one on a successful `remove` |
| `FluidSandbox.CellSizeIsParticleDiameter` | src/fluid_sandbox.h:33 | the grid cell size is `2 * PARTICLE_RADIUS = 10` |
| `FluidSandbox.NewSandbox` | src/fluid_sandbox.h:18 | a new sandbox stores the given size, has no particles, and satisfies the grid invariant |
| `FluidSandbox.Resize` | src/fluid_sandbox.h:25 | `resize` changes only the size; particles and grid are untouched, so the grid invariant survives |
| `FluidSandbox.AddParticle` | src/fluid_sandbox.cpp:5-9 | the particle sequence grows by one at the end with an unmoved particle of the given velocity, `particle_count` goes up by one, and the new handle is appended to the cell of its position |
| `FluidSandbox.AddParticleAtRest` | src/fluid_sandbox.cpp:11-15 | the one-argument overload is the two-argument one with zero velocity |
| `FluidSandbox.AddParticleKeepsConsistency` | src/fluid_sandbox.cpp:5-15 | adding a particle keeps every particle in exactly the grid cell of its position |
| `FluidSandbox.Fall` | src/fluid_sandbox.cpp:22 | gravity adds `9.8 * dt` to `velocity.y` and nothing to `velocity.x`; the position is untouched |
| `FluidSandbox.ClampAxis` | src/fluid_sandbox.cpp:24-43 | per axis: the result never passes the high wall; in a box at least 10 wide it is within `[5, size - 5]`; an in-range particle keeps its position and velocity; a clamp puts it on the wall and negates the velocity component; when both walls fire the velocity is negated twice |
| `FluidSandbox.Advance` | src/fluid_sandbox.cpp:22-43 | the loop body without the grid: `prev_position` is the old position; in a box at least 10 on each side the particle ends inside `[5, size - 5]`; each velocity component keeps its magnitude (after gravity for y); a particle that lands in range keeps the integrated state |
| `FluidSandbox.StepParticle` | src/fluid_sandbox.cpp:21-44 | one iteration throws exactly when the particle is not in the cell of its current position; otherwise only that particle changes, to its advanced state |
| `FluidSandbox.RemoveUnbuckets` | src/fluid_sandbox.cpp:21 | when every particle sits exactly once in the cell of its position, removing particle i does not throw and leaves every other particle bucketed while i is in no cell |
| `FluidSandbox.InsertRebuckets` | src/fluid_sandbox.cpp:44 | re-inserting the advanced particle at its new position restores the invariant for the updated particle list |
| `FluidSandbox.StepKeepsConsistency` | src/fluid_sandbox.cpp:21-44 | under the grid invariant one iteration does not throw and keeps the invariant |
| `FluidSandbox.UpdateFrom` | src/fluid_sandbox.cpp:19-45 | the loop from index `i` keeps the size and the count, leaves earlier particles alone, and advances each later particle from its own state |
| `FluidSandbox.Update` | src/fluid_sandbox.cpp:17-46 | `update` keeps the size and `particle_count`, each particle's new state depends only on its own old state, `dt` and the size, and an empty sandbox comes back unchanged |
| `FluidSandbox.UpdateFromKeepsConsistency` | src/fluid_sandbox.cpp:19-45 | under the grid invariant the loop from any index never throws and ends with the invariant |
| `FluidSandbox.UpdateKeepsConsistency` | src/fluid_sandbox.cpp:17-46 | on a sandbox satisfying the grid invariant, `update` never throws and keeps every particle in exactly the cell of its new position |
| `FluidSandbox.UpdateKeepsParticlesInBox` | src/fluid_sandbox.cpp:24-43 | when both sides are at least 10, every particle ends with `5 <= x <= size.x - 5` and `5 <= y <= size.y - 5` |
| `FluidSandbox.UpdateOfUnregisteredParticleThrows` | src/fluid_sandbox.cpp:21 | a particle missing from the grid makes `update` throw "Particle not found in grid" |
| `Controls.ConvertKeyRuns` | src/controls.cpp:13-20 | 'A'..'Z' map to consecutive codes from `Key::A`, and '0'..'9' to consecutive codes from `Key::Num0` |
| `Controls.ConvertKeyRoundTrip` | src/controls.cpp:11-22 | a character maps to `Unknown` exactly when it is neither an upper-case letter nor a digit (lower case included), and letter and digit keys decode back to their character |
| `Controls.KeyCharRoundTrip` | src/main.cpp:18-29 | every letter or digit key code is the image of the character it decodes to, so the mapping is onto those runs |
| `Controls.Clamp` | src/controls.cpp:40-41 | max-then-min clamps into `[min, max]` when `min <= max`, keeps in-range values, and gives `max` when `min > max` |
| `Controls.UpdateParam` | src/controls.cpp:24-43 | unchanged unless the param's key is held; plus adds and minus subtracts `step_size * dt`, and both together cancel; backspace overrides both with the clamped default; the result lies in `[min, max]`; only the value changes |
| `Controls.UpdateDisplay` | src/controls.cpp:91-98 | `dt` is recorded and every parameter is updated exactly once, each from its own old state |
| `MainParams.AdjustParam` | src/main.cpp:31-53 | unchanged unless the key is held; `increase` adds and `decrease` subtracts `step`, and both cancel; the result is clamped into `[min_val, max_val]`, or is `max_val` when `min_val > max_val` |
| `MainParams.AdjustParamDefaults` | src/main.cpp:37-51 | with the default bounds, holding the key always leaves a value in `[2^-126, FLT_MAX]`, so strictly positive |
| `MainParams.DefaultLowerBoundRejectsZero` | src/main.cpp:37-51 | with the default bounds, a parameter at 0 whose key is held becomes 2^-126, and decreasing it also gives 2^-126 instead of `-step` |
| `MainParams.AdjustParamLowestDefaults` | src/main.cpp:37-51 | with `lowest()` as the default lower bound, a held key leaves the value within the full float range |
| `MainParams.LowestDefaultsMoveByStep` | src/main.cpp:42-51 | with `lowest()` as the lower bound, a held key moves a representable value by exactly one step either way, so zero and negative values stay reachable |

## Left out

- `FluidSandbox::draw` and `ControlsDisplay::draw`, `draw_text`, `draw_info`: vertex and text construction for rendering. `draw` also calls `grid_.query` and `close_highlight_position`, which this version does not declare.
- The `ControlsDisplay` constructor: it looks up a font file and builds the parameter table from `sandbox_.params()`. That accessor and the `Param` declaration are not part of this model (`src/controls.h` holds only default constants and key characters).
- `main`'s window, event and mouse loop, including `add_particles`, `remove_particles`, `clear_particles` and `push_particles`, which this version of the sandbox does not declare.
- `utils::distance`: a floating-point `std::hypot`; only its square, `distance_sq`, is modelled.
- Floating point: all arithmetic is exact over the reals. `GRAVITY` is exactly 9.8 rather than the float nearest to it. NaN propagation through the wall comparisons and rounding in `x + s - s` are not modelled.
- `SpatialHashGrid.Key`, `Utils.TupleHash`: no `size_t` wrap-around; keys are unbounded naturals, so the model shows aliasing only past the prime, not from overflow.
- `SpatialHashGrid.Remove`: on failure the result carries only the error. The empty cell that `operator[]` creates before the throw is not part of it, because the exception leaves `update` with a half-processed loop anyway.
- `Controls.UpdateParam`, `Controls.UpdateDisplay`: the parameter owns its value. In the source the value is a reference into the sandbox's parameter block, and each parameter refers to a different field.
- `Controls.ConvertKey`: the SFML key ordinals are abstract; the model assumes only that the letter run, the digit run and `Unknown` do not overlap.

## Findings

| source | as written | input that shows it | evidently intended | confidence | as-written member | corrected member |
|---|---|---|---|---|---|---|
| src/main.cpp:37 | `min_val` defaults to `std::numeric_limits<float>::min()`, the smallest positive float | a parameter at 0 (horizontal gravity starts there) with its key held: it becomes 2^-126, and pressing `-` cannot make it negative | `std::numeric_limits<float>::lowest()`, so the full float range including zero and negative values is reachable | medium, not executed | `MainParams.DefaultLowerBoundRejectsZero` | `MainParams.LowestDefaultsMoveByStep` |
