/** The particle record of `src/particle.h`: a position, the position it held
    before the last integration step, and a velocity. */
module Particles {
  import opened Utils

  datatype Particle = Particle(position: Vec2, prevPosition: Vec2, velocity: Vec2)

  /** `Particle(position)`: a particle at rest that has not moved yet. */
  function NewParticle(position: Vec2): (p: Particle)
    ensures p.position == position && p.prevPosition == position
    ensures p.velocity == Zero
  {
    Particle(position, position, Zero)
  }

  /** `Particle(position, velocity)`: a particle that has not moved yet. */
  function NewMovingParticle(position: Vec2, velocity: Vec2): (p: Particle)
    ensures p.position == position && p.prevPosition == position
    ensures p.velocity == velocity
  {
    Particle(position, position, velocity)
  }

  /** `Particle::update`: one explicit Euler step of length `dt`. The
      previous position records where the particle was, and the
      displacement it records is exactly velocity times `dt`. */
  function Update(p: Particle, dt: real): (r: Particle)
    ensures r.prevPosition == p.position
    ensures r.velocity == p.velocity
    ensures Minus(r.position, r.prevPosition) == Times(r.velocity, dt)
  {
    Particle(Plus(p.position, Times(p.velocity, dt)), p.position, p.velocity)
  }

  /** A particle that has just been created still stands where it was
      created after a step exactly when it was created without velocity
      or the step is empty. */
  lemma UpdateOfNewParticle(position: Vec2, velocity: Vec2, dt: real)
    ensures Update(NewMovingParticle(position, velocity), dt).position == position
        <==> Times(velocity, dt) == Zero
  {
    var r := Update(NewMovingParticle(position, velocity), dt);
    if r.position == position {
      assert Minus(r.position, r.prevPosition) == Zero;
    }
  }
}
