/** `Planet` of Planet.h / Planet.cpp. `velocity` accumulates impulses, so it
    holds momentum: `tick` divides it by the mass before moving. */
module Planets {
  import opened Machine
  import opened Vectors

  datatype Planet = Planet(position: Vector2, mass: real, radius: real, color: uint32, velocity: Vector2)

  /** The constructor: stores its arguments and starts at rest. */
  function NewPlanet(position: Vector2, mass: real, radius: real, color: uint32): (p: Planet)
    ensures p.position == position && p.mass == mass && p.radius == radius && p.color == color
    ensures p.velocity == Zero()
  {
    Planet(position, mass, radius, color, Zero())
  }

  /** `punch`: adds an impulse to the velocity and changes nothing else. */
  function Punch(p: Planet, impulse: Vector2): (r: Planet)
    ensures Sub(r.velocity, p.velocity) == impulse
    ensures r.(velocity := p.velocity) == p
  {
    p.(velocity := AddAssign(p.velocity, impulse))
  }

  /** `move`: displaces the position and changes nothing else. */
  function Move(p: Planet, displacement: Vector2): (r: Planet)
    ensures Sub(r.position, p.position) == displacement
    ensures r.(position := p.position) == p
  {
    p.(position := AddAssign(p.position, displacement))
  }

  /** `tick`: moves by `velocity / mass`, so the displacement times the mass
      is the accumulated momentum; the velocity, mass, radius and colour are
      kept. */
  function Tick(p: Planet): (r: Planet)
    requires p.mass != 0.0
    ensures Scale(Sub(r.position, p.position), p.mass) == p.velocity
    ensures r.(position := p.position) == p
  {
    Move(p, Div(p.velocity, p.mass))
  }

  /** Two impulses in a row are one impulse of their sum. */
  lemma PunchTwice(p: Planet, a: Vector2, b: Vector2)
    ensures Punch(Punch(p, a), b) == Punch(p, Add(a, b))
  {
  }

  /** A planet at rest, in particular a freshly constructed one, stays where
      it is. */
  lemma TickAtRest(p: Planet)
    requires p.mass != 0.0 && p.velocity == Zero()
    ensures Tick(p) == p
  {
  }
}
