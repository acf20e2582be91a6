/** The starting state that the `GravitySimulation` constructor builds: two
    planets, one heavy and at rest, one light and punched sideways. */
module Scenario {
  import opened Machine
  import opened Vectors
  import opened Simulation
  import Planets
  import Tickers

  /** The first planet the constructor creates: heavy and white, at the
      origin, at rest. */
  function WhitePlanet(): Planet {
    Planets.Planet(Vector2(0.0, 0.0), 500000000000000.0, 50.0, 0xFFFF_FFFF, Vector2(0.0, 0.0))
  }

  /** The second planet: lighter and red, 600 units above the first, moving
      sideways. */
  function RedPlanet(): Planet {
    Planets.Planet(Vector2(0.0, 600.0), 1000000000000.0, 20.0, 0xFFFF_0000, Vector2(6000000000000.0, 0.0))
  }

  /** The white planet is what the planet constructor makes of its arguments. */
  lemma WhiteIsConstructed()
    ensures WhitePlanet() == Planets.NewPlanet(Vector2(0.0, 0.0), 500000000000000.0, 50.0, 0xFFFF_FFFF)
  {
  }

  /** The red planet is a freshly constructed planet given one sideways punch. */
  lemma RedIsPunched()
    ensures RedPlanet() == Planets.Punch(Planets.NewPlanet(Vector2(0.0, 600.0), 1000000000000.0, 20.0, 0xFFFF_0000),
                                         Vector2(6000000000000.0, 0.0))
  {
  }

  /** The planets of the constructor, in order. */
  function InitialPlanets(): (ps: seq<Planet>)
    ensures |ps| == 2 && ps[0] == WhitePlanet() && ps[1] == RedPlanet()
  {
    [WhitePlanet(), RedPlanet()]
  }

  /** The initial momentum is the one impulse given to the red planet. */
  lemma InitialMomentum()
    ensures SumVelocity(InitialPlanets()) == Vector2(6000000000000.0, 0.0)
  {
    SumOfTwo(InitialPlanets());
  }

  /** Both initial planets have positive mass, so they can be integrated. */
  lemma InitialMassive()
    ensures Massive(InitialPlanets())
  {
    assert WhitePlanet().mass == 500000000000000.0;
    assert RedPlanet().mass == 1000000000000.0;
    MassiveOfTwo(WhitePlanet(), RedPlanet());
  }

  /** The initial planets sit 600 units apart on the vertical axis. */
  lemma InitialPositions()
    ensures InitialPlanets()[0].position == Vector2(0.0, 0.0)
    ensures InitialPlanets()[1].position == Vector2(0.0, 600.0)
  {
    assert RedPlanet().position == Vector2(0.0, 600.0);
  }

  /** Under the square-root law a distance of 600 is not zero. */
  lemma SixHundredApart(m: Libm)
    requires SqrtLaw(m)
    ensures Length(Vector2(0.0, 600.0), m) != 0.0
  {
    var d := m.sqrt(360000.0);
    assert d * d == 360000.0;
    assert Length(Vector2(0.0, 600.0), m) == d;
  }

  /** Under the square-root law the two initial planets are apart. */
  lemma InitialApart(m: Libm)
    requires SqrtLaw(m)
    ensures AllApart(InitialPlanets(), m)
  {
    InitialPositions();
    SixHundredApart(m);
    assert Sub(RedPlanet().position, WhitePlanet().position) == Vector2(0.0, 600.0);
    ApartOfTwo(WhitePlanet(), RedPlanet(), m);
  }

  /** The simulation's ticker, `Ticker(SIMULATION_SPEED)`, made when the clock
      reads `now`: 40 ticks a second, so one period is 1/40 s. */
  function SimulationTicker(now: real): (t: Tickers.Ticker)
    ensures Tickers.Valid(t) && t.ticks == 0.0 && t.previousUpdate == now
    ensures t.tickPeriod == 0.025
  {
    Tickers.NewTicker(SimulationSpeed, now)
  }

  /** One second after the simulation's ticker is made, a `tick` that reads
      the clock once returns exactly 40 ticks and carries nothing. */
  lemma OneSecondIsFortyTicks(now: real)
    ensures var (t, count) := Tickers.Tick(SimulationTicker(now), now + 1.0);
            count == 40 && t.ticks == 0.0
  {
    var t0 := SimulationTicker(now);
    assert Tickers.Pending(t0, now + 1.0) == 40.0;
  }

  /** The velocity sum of two planets. */
  lemma SumOfTwo(ps: seq<Planet>)
    requires |ps| == 2
    ensures SumVelocity(ps) == Add(ps[0].velocity, ps[1].velocity)
  {
    var first := ps[..1];
    assert first[..0] == [];
    assert SumVelocity(first) == Add(Zero(), ps[0].velocity);
    assert ps[..|ps| - 1] == first;
  }

  /** Two planets of non-zero mass can both be integrated. */
  lemma MassiveOfTwo(a: Planet, b: Planet)
    requires a.mass != 0.0 && b.mass != 0.0
    ensures Massive([a, b])
  {
  }

  /** Two planets that do not coincide form a list with no coinciding pair. */
  lemma ApartOfTwo(a: Planet, b: Planet, m: Libm)
    requires Apart(a, b, m)
    ensures AllApart([a, b], m)
  {
  }
}
