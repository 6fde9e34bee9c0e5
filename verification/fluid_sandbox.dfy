/** The sandbox of `src/fluid_sandbox.h` and `src/fluid_sandbox.cpp`: a
    box of a given size holding particles that fall under gravity, bounce
    off the walls, and are kept bucketed in a spatial hash grid. */
module FluidSandbox {
  import opened Wrappers
  import opened Utils
  import opened Particles
  import opened SpatialHashGrid

  /** `PARTICLE_RADIUS`. */
  const PARTICLE_RADIUS: real := 5.0

  /** `GRAVITY`, in pixels per second squared, pointing down the screen (+y). */
  const GRAVITY: real := 9.8

  /** The grid's cell size: the radius cast to `size_t`, times two. */
  const CELL_SIZE: nat := PARTICLE_RADIUS.Floor as nat * 2

  lemma CellSizeIsParticleDiameter()
    ensures CELL_SIZE == 10 && CELL_SIZE as real == 2.0 * PARTICLE_RADIUS
  {
  }

  /** `sf::Vector2u`: the box size in pixels. */
  datatype Size = Size(x: nat, y: nat)

  datatype Sandbox = Sandbox(size: Size, particles: seq<Particle>, grid: Grid)

  /** What every reachable sandbox satisfies: the grid has the sandbox's
      cell size, and every particle stands where `hash` may cast its
      coordinates to `size_t`. */
  predicate WellFormed(s: Sandbox) {
    && s.grid.cellSize == CELL_SIZE
    && forall i :: 0 <= i < |s.particles| ==> Hashable(s.particles[i].position)
  }

  /** The grid key of the cell particle `i` stands in now. */
  function Home(particles: seq<Particle>, i: nat): nat
    requires i < |particles| && Hashable(particles[i].position)
  {
    Key(CELL_SIZE, particles[i].position)
  }

  /** Every particle except `missing` is stored exactly once, in the cell
      of its current position, and no cell holds anything else. */
  ghost predicate BucketedExcept(g: Grid, particles: seq<Particle>, missing: nat) {
    && (forall i :: 0 <= i < |particles| ==> Hashable(particles[i].position))
    && forall key: nat, id: ParticleId ::
         Occurrences(g, key, id)
         == if id < |particles| && id != missing && Home(particles, id) == key then 1 else 0
  }

  /** Every particle is stored exactly once, in the cell of its current
      position, and no cell holds anything else (no index is missing). */
  ghost predicate Bucketed(g: Grid, particles: seq<Particle>) {
    BucketedExcept(g, particles, |particles|)
  }

  /** The grid invariant of a sandbox. */
  ghost predicate Consistent(s: Sandbox) {
    s.grid.cellSize == CELL_SIZE && Bucketed(s.grid, s.particles)
  }

  /** `particle_count`. */
  function ParticleCount(s: Sandbox): nat {
    |s.particles|
  }

  /** `FluidSandbox(size)`: an empty box whose grid is trivially consistent. */
  function NewSandbox(size: Size): (s: Sandbox)
    ensures s.size == size
    ensures ParticleCount(s) == 0
    ensures Consistent(s)
  {
    Sandbox(size, [], EmptyGrid(CELL_SIZE))
  }

  /** `resize`: only the size changes. */
  function Resize(s: Sandbox, size: Size): (r: Sandbox)
    ensures r.size == size
    ensures r.particles == s.particles && r.grid == s.grid
    ensures Consistent(s) ==> Consistent(r)
  {
    s.(size := size)
  }

  /** `add_particle(position, velocity)`: the new particle goes to the end
      of the sequence, unmoved and with the given velocity, and its handle
      is appended to the cell of its position. */
  function AddParticle(s: Sandbox, position: Vec2, velocity: Vec2): (r: Sandbox)
    requires WellFormed(s) && Hashable(position)
    ensures WellFormed(r) && r.size == s.size
    ensures ParticleCount(r) == ParticleCount(s) + 1
    ensures r.particles[..|s.particles|] == s.particles
    ensures r.particles[|s.particles|] == NewMovingParticle(position, velocity)
    ensures CellAt(r.grid, Key(CELL_SIZE, position))
         == CellAt(s.grid, Key(CELL_SIZE, position)) + [|s.particles|]
  {
    var id := |s.particles|;
    Sandbox(s.size, s.particles + [NewMovingParticle(position, velocity)], Insert(s.grid, id, position))
  }

  /** `add_particle(position)`: the same, for a particle at rest. */
  function AddParticleAtRest(s: Sandbox, position: Vec2): (r: Sandbox)
    requires WellFormed(s) && Hashable(position)
    ensures r == AddParticle(s, position, Zero)
    ensures r.particles[|s.particles|].velocity == Zero
  {
    var id := |s.particles|;
    Sandbox(s.size, s.particles + [NewParticle(position)], Insert(s.grid, id, position))
  }

  /** Adding a particle keeps every particle in the cell of its position. */
  lemma AddParticleKeepsConsistency(s: Sandbox, position: Vec2, velocity: Vec2)
    requires Consistent(s) && Hashable(position)
    ensures Consistent(AddParticle(s, position, velocity))
  {
    var r := AddParticle(s, position, velocity);
    var n := |s.particles|;
    forall key: nat, id: ParticleId
      ensures Occurrences(r.grid, key, id)
           == if id < |r.particles| && id != |r.particles| && Home(r.particles, id) == key then 1 else 0
    {
      InsertCounts(s.grid, n, position, key, id);
      if id < n {
        assert r.particles[id] == s.particles[id];
      }
    }
  }

  /** The gravity step: `velocity.y += GRAVITY * dt`, nothing else. */
  function Fall(p: Particle, dt: real): (r: Particle)
    ensures r.position == p.position && r.prevPosition == p.prevPosition
    ensures Minus(r.velocity, p.velocity) == Vec2(0.0, GRAVITY * dt)
  {
    p.(velocity := p.velocity.(y := p.velocity.y + GRAVITY * dt))
  }

  /** One axis of the wall handling: first the low wall, then the high wall,
      each placing the particle's edge on the wall and negating the
      velocity component. */
  function ClampAxis(x: real, v: real, extent: real): (r: (real, real))
    ensures r.0 <= extent - PARTICLE_RADIUS
    ensures extent >= PARTICLE_RADIUS ==> r.0 >= 0.0
    ensures extent >= 2.0 * PARTICLE_RADIUS ==> PARTICLE_RADIUS <= r.0
    ensures r.1 == v || r.1 == -v
    ensures PARTICLE_RADIUS <= x <= extent - PARTICLE_RADIUS ==> r == (x, v)
    ensures x < PARTICLE_RADIUS && extent >= 2.0 * PARTICLE_RADIUS ==> r == (PARTICLE_RADIUS, -v)
    ensures x < PARTICLE_RADIUS && extent < 2.0 * PARTICLE_RADIUS ==> r == (extent - PARTICLE_RADIUS, v)
    ensures PARTICLE_RADIUS <= x && x > extent - PARTICLE_RADIUS ==> r == (extent - PARTICLE_RADIUS, -v)
  {
    var (x1, v1) := if x - PARTICLE_RADIUS < 0.0 then (PARTICLE_RADIUS, -v) else (x, v);
    if x1 + PARTICLE_RADIUS > extent then (extent - PARTICLE_RADIUS, -v1) else (x1, v1)
  }

  /** Both sides of the box leave room for a whole particle. */
  predicate FitsParticle(size: Size) {
    size.x as real >= 2.0 * PARTICLE_RADIUS && size.y as real >= 2.0 * PARTICLE_RADIUS
  }

  /** Neither high wall lies left of or above the origin, so a clamped
      coordinate is never negative. */
  predicate WallsNonNegative(size: Size) {
    size.x as real >= PARTICLE_RADIUS && size.y as real >= PARTICLE_RADIUS
  }

  /** `update` casts every clamped coordinate to `size_t`: with a particle
      in a box whose side is below one radius, the high wall lies at or
      below -1 and the cast is undefined. An empty sandbox has nothing to
      cast. */
  predicate RoomToStep(s: Sandbox) {
    |s.particles| == 0 || WallsNonNegative(s.size)
  }

  /** A position with the whole particle inside the box. */
  predicate InBox(position: Vec2, size: Size) {
    && PARTICLE_RADIUS <= position.x <= size.x as real - PARTICLE_RADIUS
    && PARTICLE_RADIUS <= position.y <= size.y as real - PARTICLE_RADIUS
  }

  /** The loop body of `update` without the grid: gravity, integration,
      then the walls. The result depends on nothing but the particle, `dt`
      and the size. */
  function Advance(p: Particle, dt: real, size: Size): (r: Particle)
    ensures r.prevPosition == p.position
    ensures r.position.x <= size.x as real - PARTICLE_RADIUS
    ensures r.position.y <= size.y as real - PARTICLE_RADIUS
    ensures WallsNonNegative(size) ==> NonNegative(r.position)
    ensures FitsParticle(size) ==> InBox(r.position, size)
    ensures r.velocity.x == p.velocity.x || r.velocity.x == -p.velocity.x
    ensures var vy := p.velocity.y + GRAVITY * dt; r.velocity.y == vy || r.velocity.y == -vy
    ensures var q := Particles.Update(Fall(p, dt), dt);
      InBox(q.position, size) ==> r == q
  {
    var q := Particles.Update(Fall(p, dt), dt);
    var (x, vx) := ClampAxis(q.position.x, q.velocity.x, size.x as real);
    var (y, vy) := ClampAxis(q.position.y, q.velocity.y, size.y as real);
    Particle(Vec2(x, y), q.prevPosition, Vec2(vx, vy))
  }

  /** One iteration of the loop in `update`: take particle `i` out of the
      cell of its current position (which throws if it is not there),
      advance it, and put it into the cell of its new position. */
  function StepParticle(s: Sandbox, dt: real, i: nat): (r: Result<Sandbox, GridError>)
    requires WellFormed(s) && WallsNonNegative(s.size) && i < |s.particles|
    ensures r.Failure? <==> i !in CellAt(s.grid, Home(s.particles, i))
    ensures r.Success? ==>
      && WellFormed(r.value)
      && r.value.size == s.size
      && r.value.particles == s.particles[i := Advance(s.particles[i], dt, s.size)]
  {
    var p := s.particles[i];
    var removed :- Remove(s.grid, i, p.position);
    var q := Advance(p, dt, s.size);
    Success(Sandbox(s.size, s.particles[i := q], Insert(removed, i, q.position)))
  }

  /** Under the grid invariant `remove` finds the particle in the cell of its
      position, and afterwards only that particle is missing from the grid. */
  lemma RemoveUnbuckets(g: Grid, particles: seq<Particle>, i: nat)
    requires g.cellSize == CELL_SIZE && Bucketed(g, particles) && i < |particles|
    ensures Remove(g, i, particles[i].position).Success?
    ensures BucketedExcept(Remove(g, i, particles[i].position).value, particles, i)
  {
    var position := particles[i].position;
    assert Occurrences(g, Home(particles, i), i) == 1;
    var g1 := Remove(g, i, position).value;
    forall key: nat, id: ParticleId
      ensures Occurrences(g1, key, id)
           == if id < |particles| && id != i && Home(particles, id) == key then 1 else 0
    {
      RemoveCounts(g, i, position, key, id);
    }
  }

  /** Inserting the missing particle at its new state, into the cell of its
      new position, restores the grid invariant. */
  lemma InsertRebuckets(g: Grid, particles: seq<Particle>, i: nat, q: Particle)
    requires g.cellSize == CELL_SIZE && BucketedExcept(g, particles, i)
    requires i < |particles| && Hashable(q.position)
    ensures Bucketed(Insert(g, i, q.position), particles[i := q])
  {
    var r := particles[i := q];
    forall key: nat, id: ParticleId
      ensures Occurrences(Insert(g, i, q.position), key, id)
           == if id < |r| && id != |r| && Home(r, id) == key then 1 else 0
    {
      InsertCounts(g, i, q.position, key, id);
      if id != i && id < |particles| {
        assert r[id] == particles[id];
      }
    }
  }

  /** One iteration keeps the grid invariant, and under the invariant the
      removal cannot throw. */
  lemma StepKeepsConsistency(s: Sandbox, dt: real, i: nat)
    requires Consistent(s) && WallsNonNegative(s.size) && i < |s.particles|
    ensures StepParticle(s, dt, i).Success?
    ensures Consistent(StepParticle(s, dt, i).value)
  {
    var p := s.particles[i];
    RemoveUnbuckets(s.grid, s.particles, i);
    var g1 := Remove(s.grid, i, p.position).value;
    var q := Advance(p, dt, s.size);
    InsertRebuckets(g1, s.particles, i, q);
  }

  /** The loop of `update` from index `i` on: particles before `i` are done
      and stay as they are, each later particle is advanced on its own. */
  function UpdateFrom(s: Sandbox, dt: real, i: nat): (r: Result<Sandbox, GridError>)
    requires WellFormed(s) && RoomToStep(s) && i <= |s.particles|
    ensures r.Success? ==>
      && WellFormed(r.value)
      && r.value.size == s.size
      && |r.value.particles| == |s.particles|
      && (forall j :: 0 <= j < i ==> r.value.particles[j] == s.particles[j])
      && (forall j :: i <= j < |s.particles| ==> r.value.particles[j] == Advance(s.particles[j], dt, s.size))
    decreases |s.particles| - i
  {
    if i == |s.particles| then Success(s)
    else
      match StepParticle(s, dt, i)
      case Failure(e) => Failure(e)
      case Success(next) => UpdateFrom(next, dt, i + 1)
  }

  /** `FluidSandbox::update`. It keeps the size and the particle count,
      and every particle's new state is its own old state advanced by `dt`
      in this box. An empty sandbox is returned as it is. */
  function Update(s: Sandbox, dt: real): (r: Result<Sandbox, GridError>)
    requires WellFormed(s) && RoomToStep(s)
    ensures r.Success? ==>
      && WellFormed(r.value)
      && r.value.size == s.size
      && ParticleCount(r.value) == ParticleCount(s)
      && forall j :: 0 <= j < |s.particles| ==> r.value.particles[j] == Advance(s.particles[j], dt, s.size)
    ensures |s.particles| == 0 ==> r == Success(s)
  {
    UpdateFrom(s, dt, 0)
  }

  lemma {:induction false} UpdateFromKeepsConsistency(s: Sandbox, dt: real, i: nat)
    requires Consistent(s) && RoomToStep(s) && i <= |s.particles|
    ensures UpdateFrom(s, dt, i).Success?
    ensures Consistent(UpdateFrom(s, dt, i).value)
    decreases |s.particles| - i
  {
    if i < |s.particles| {
      StepKeepsConsistency(s, dt, i);
      UpdateFromKeepsConsistency(StepParticle(s, dt, i).value, dt, i + 1);
    }
  }

  /** On a consistent sandbox `update` never throws, and afterwards every
      particle is again in exactly the cell of its (new) position. */
  lemma UpdateKeepsConsistency(s: Sandbox, dt: real)
    requires Consistent(s) && RoomToStep(s)
    ensures Update(s, dt).Success?
    ensures Consistent(Update(s, dt).value)
  {
    UpdateFromKeepsConsistency(s, dt, 0);
  }

  /** In a box at least one particle wide and tall, `update` leaves every
      particle wholly inside it. */
  lemma UpdateKeepsParticlesInBox(s: Sandbox, dt: real)
    requires WellFormed(s) && FitsParticle(s.size)
    ensures Update(s, dt).Success? ==>
      forall j :: 0 <= j < |Update(s, dt).value.particles| ==>
        InBox(Update(s, dt).value.particles[j].position, s.size)
  {
  }

  /** A particle that was never put in the grid makes `update` throw. */
  lemma UpdateOfUnregisteredParticleThrows()
    ensures var s := Sandbox(Size(100, 100), [NewParticle(Vec2(1.0, 1.0))], EmptyGrid(CELL_SIZE));
      Update(s, 0.0) == Failure(RuntimeError(PARTICLE_NOT_FOUND_ERROR_MESSAGE))
  {
    var s := Sandbox(Size(100, 100), [NewParticle(Vec2(1.0, 1.0))], EmptyGrid(CELL_SIZE));
    assert StepParticle(s, 0.0, 0).Failure?;
  }
}
