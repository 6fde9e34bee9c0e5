/** The rigid circular body of `src/object.h`. */
module Objects {
  import opened Utils

  datatype Object = Object(position: Vec2, radius: real, mass: real, velocity: Vec2, isLocked: bool)

  /** `Object(position, radius, mass, velocity)`: new bodies start unlocked. */
  function NewObject(position: Vec2, radius: real, mass: real, velocity: Vec2): (o: Object)
    ensures !o.isLocked
    ensures o.position == position && o.radius == radius && o.mass == mass
    ensures o.velocity == velocity
  {
    Object(position, radius, mass, velocity, false)
  }

  /** The constructor with its defaulted velocity argument: an unlocked body at rest. */
  function NewObjectAtRest(position: Vec2, radius: real, mass: real): (o: Object)
    ensures !o.isLocked && o.velocity == Zero
    ensures o.position == position && o.radius == radius && o.mass == mass
  {
    NewObject(position, radius, mass, Zero)
  }

  /** `Object::update`: a locked body stays put; an unlocked body moves by
      velocity times `dt`. Nothing but the position ever changes. */
  function Update(o: Object, dt: real): (r: Object)
    ensures r.velocity == o.velocity && r.radius == o.radius && r.mass == o.mass
    ensures r.isLocked == o.isLocked
    ensures o.isLocked ==> r == o
    ensures !o.isLocked ==> Minus(r.position, o.position) == Times(o.velocity, dt)
  {
    if !o.isLocked then o.(position := Plus(o.position, Times(o.velocity, dt))) else o
  }

  /** `Object::toggle_lock`: flips the lock and stops the body; nothing else
      changes. */
  function ToggleLock(o: Object): (r: Object)
    ensures r.isLocked == !o.isLocked
    ensures r.velocity == Zero
    ensures r.position == o.position && r.radius == o.radius && r.mass == o.mass
  {
    o.(isLocked := !o.isLocked, velocity := Zero)
  }

  /** Toggling twice restores the lock flag and leaves the body stopped. */
  lemma ToggleLockTwice(o: Object)
    ensures ToggleLock(ToggleLock(o)) == o.(velocity := Zero)
  {
  }

  /** Right after a toggle, a step never moves the body, whichever way the
      lock now stands. */
  lemma UpdateAfterToggleIsStill(o: Object, dt: real)
    ensures Update(ToggleLock(o), dt) == ToggleLock(o)
  {
  }
}
