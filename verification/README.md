# simple gravi-sim in Dafny

A model of the computational core of a small C++ planet simulator. The program
integrates Newtonian gravity between a handful of planets and draws each planet
as a filled circle with OpenGL. The model keeps three parts:

- **The batch builder of `Renderer`.** It holds a vertex buffer and an index
  buffer that a frame fills. `addNewVertex` appends a vertex. `addVertex`
  reuses an equal vertex or appends one. `addIndex` appends an index.
  `drawPoligon` adds one triangle. `drawCircle` adds a triangle fan of
  `segments + 2` vertices and `3 · segments` indices, normalised by the
  viewport. `render` hands the buffers over and clears them.
  `ColorRGB` unpacks a packed `0xAARRGGBB` colour into three unit channels and
  packs it back. Buffers are sequences; the OpenGL calls are gone.
- **The physics.** `Vector2` is over the reals. `Planet` has `punch`, `move`
  and `tick`. `GravitySimulation` has `applyGravity`, the pairwise
  `gravityTick`, `tick`, `draw`, and the two planets its constructor builds.
  `velocity` accumulates impulses, so it holds momentum: `Planet::tick`
  divides it by the mass before moving.
- **`Ticker`.** It turns elapsed clock time into whole simulation ticks and
  carries the fraction. The clock is a parameter.

`sqrt`, `sinf` and `cosf` are function values in a `Libm` record (machine.dfy).
A lemma that needs a law of one of them states it as a precondition:
`SqrtLaw` for the square root, and `FullTurnLaw` for `cos 2π = 1, sin 2π = 0`.
`FullTurnLaw` is an exact-π idealisation. The float `sinf`/`cosf` of the
program do not satisfy it at the float angle, and the true sine and cosine do
not satisfy it at the rational `DoublePi` either.

Modules, one per file: `Machine`, `Vectors`, `Colors`, `Planets`, `Rendering`,
`RealFacts` (real-arithmetic facts the gravity law needs), `Simulation`,
`Scenario` (the constructor's initial state) and `Tickers`.

The main results:

- `gravityTick` is written as the source's two nested loops
  (`Simulation.GravityTick`, `GravityRow`, `PullPair`). It is proved equal to
  a reference fold, `ApplyAll`, over the lexicographic list of pairs
  `Visits(n)`. That list holds each pair `i < j` exactly once, `n(n-1)/2` of
  them.
- Positions stay frozen during the pass, so every impulse uses the
  start-of-step positions.
- The velocity (momentum) sum is conserved by `applyGravity`, `gravityTick`
  and `tick`.
- `drawCircle` appends exact vertex and index sequences. The model proves the
  index pattern of each triangle and the in-range and whole-triangle
  invariants. Under `FullTurnLaw` it also proves that the closing vertex is a
  duplicate of the start vertex. Without any law, the last triangle names
  vertex `V + segments + 1` and not the start vertex `V + 1`
  (`DrawCircleTriangle` with `k = segments - 1`), so the fan never shares its
  closing vertex.
- `draw` appends the planets' circles and fans, one after the other.
- The ticker loses no ticks when the clock is read once per call. As written
  it reads the clock twice (see Findings).

## Model

| member | source | states |
|---|---|---|
| Vectors.Zero | Vector.h:8-9 | `Vector2()` is the additive identity: adding it on either side changes nothing |
| Vectors.Splat | Vector.h:11-12 | `Vector2(v)` has both components equal to `v` |
| Vectors.Sub | Vector.h:40-42 | `a - b` is undone by adding `b`, and it is the zero vector exactly when `a == b` |
| Vectors.Neg | Vector.h:62-64 | `-v` is the additive inverse: `v + (-v)` is zero, and `-v` equals `0 - v` |
| Vectors.Div | Vector.h:58-60 | dividing by a non-zero scalar is undone by multiplying by it |
| Vectors.AddAssign | Vector.h:26-29 | after `a += b` the vector equals `a + b` |
| Vectors.SubAssign | Vector.h:35-38 | after `a -= b` the vector equals `a - b` |
| Vectors.Length | Vector.h:17-19 | under the square-root law the length is non-negative and its square is `x² + y²` |
| Vectors.Normalize | Vector.h:21-24 | the normalized vector times the length is the original vector, whenever the length is not zero |
| Vectors.SamePosition | Rendering.h:51-55 | the position comparison inside `Vertex::operator==` holds exactly when the two vectors are equal |
| Vectors.AddLaws | Vector.h:31-33 | `operator+` is commutative and associative |
| Vectors.ScaleLaws | Vector.h:49-51 | `operator*` distributes over vector addition and over a sum of scalars, scaling by 1 is the identity, and two scalings compose into one by the product |
| Vectors.NegScale | Vector.h:49-64 | `(-v) * s == -(v * s)`, so `v * s + (-v) * s` is zero |
| Vectors.ScaleThenDiv | Vector.h:49-60 | `(v * s) / s == v` for every non-zero `s` |
| Colors.Channel | Rendering.h:21-23 | `(color >> shift) & 0xFF` is a byte |
| Colors.FromPacked | Rendering.h:20-23 | each channel lies in [0, 1], and 255 times it is the byte at bits 16-23, 8-15 or 0-7 |
| Colors.Quantise | Rendering.h:31-33 | `(int)(x * 255)` on a unit channel is the floor of `x · 255`, a byte |
| Colors.ToRGB | Rendering.h:29-34 | the packed value is below 2^24, and unpacking it gives the colour back exactly when every channel is a multiple of 1/255 |
| Colors.ChannelsOfSum | Rendering.h:20-34 | packing three bytes at bits 16, 8 and 0 and reading the channels back gives the same three bytes |
| Colors.SameColor | Rendering.h:36-41 | colour equality holds exactly when all three channels are equal |
| Colors.PackedRoundTrip | Rendering.h:20-34 | unpacking then `toRGB` gives `color & 0xFFFFFF`: the low 24 bits survive and the top byte is cleared |
| Colors.LowBytes | Rendering.h:20-23 | the three channel bytes are the base-256 digits of the low 24 bits |
| Colors.ChannelsOfLow | Rendering.h:20-23 | each channel byte depends on the low 24 bits only |
| Colors.AlphaIgnored | Rendering.h:20-23 | two packed colours that agree on bits 0-23 unpack to the same channels |
| Colors.OpaqueRedIsRed | main.cpp:47 | the second planet's `0xFFFF0000` unpacks like `0x00FF0000`, to pure red (1, 0, 0) |
| Planets.NewPlanet | Planet.cpp:3-9 | the constructor stores position, mass, radius and colour and starts with zero velocity |
| Planets.Punch | Planet.cpp:15-17 | `punch` changes the velocity by exactly the impulse and changes no other field |
| Planets.Move | Planet.cpp:19-21 | `move` changes the position by exactly the displacement and changes no other field |
| Planets.Tick | Planet.cpp:11-13 | `tick` moves by `velocity / mass`, so displacement times mass is the momentum; every other field is kept |
| Planets.PunchTwice | Planet.cpp:15-17 | two punches in a row equal one punch with their sum |
| Planets.TickAtRest | Planet.cpp:3-13 | a planet with zero velocity, such as a freshly constructed one, does not move on `tick` |
| Rendering.SameVertex | Rendering.h:51-55 | `Vertex::operator==` holds exactly when position and colour are both equal |
| Rendering.NewRenderer | Rendering.h:80-83 | a new renderer has empty buffers, which form a valid batch, and a zero viewport |
| Rendering.SetViewport | Rendering.cpp:131-134 | `setViewport` stores the viewport and leaves both buffers untouched |
| Rendering.ClearBuffers | Rendering.cpp:153-156 | `clearBuffers` empties both buffers, so the batch is valid, and keeps the viewport |
| Rendering.Render | Rendering.cpp:140-151 | `render` hands over exactly the current buffers, which are drawable when the renderer is valid, and then clears them |
| Rendering.AddNewVertex | Rendering.cpp:194-197 | `addNewVertex` appends the vertex, returns the old vertex count as its index, and keeps the indices and their range invariant |
| Rendering.AddIndex | Rendering.cpp:213-215 | `addIndex` appends exactly the given index; an index of an existing vertex keeps every index in range |
| Rendering.ScanFrom | Rendering.cpp:200-205 | the scan returns the first position at or after its start that holds an equal vertex, or the end |
| Rendering.AddVertex | Rendering.cpp:199-211 | `addVertex` pushes the returned index, which names an equal vertex. If the vertex is present, the buffer is unchanged and the index is the lowest match. Otherwise the vertex is appended at the old count. Either way the index range invariant is kept |
| Rendering.AddVertexTwice | Rendering.cpp:199-211 | adding the same vertex twice returns the same index both times, grows the vertex buffer by at most one, and pushes that index twice |
| Rendering.AddVertices | Rendering.cpp:199-211 | `addVertex` on a list of vertices pushes one index per vertex, each naming a vertex equal to it; the old buffers are prefixes and the invariant is kept |
| Rendering.DrawPolygon | Rendering.cpp:188-192 | `drawPoligon` appends three indices naming the three given points with the given colour, at most three vertices, whole triangles only, and keeps the range invariant |
| Rendering.FanTriangle | Rendering.cpp:180-182 | triangle `t` of a fan is (centre, rim `s + t`, rim `s + t + 1`) |
| Rendering.FanStep | Rendering.cpp:178-184 | one loop iteration appends the new rim vertex and the triangle (centre, previous rim vertex, new rim vertex) |
| Rendering.FanFrom | Rendering.cpp:172-185 | the loop from segment `seg` on appends exactly the remaining rim vertices and their fan of triangles |
| Rendering.CircleVertices | Rendering.cpp:159-178 | the circle's `segments + 2` vertices all have the given colour. The centre is the position divided by the viewport width and height. The start vertex is offset by `(radius / height, 0)`. Rim vertex `j` is offset by the cosine and sine of angle `(j + 1) · 2π / segments`, scaled by the same radius |
| Rendering.DrawCircle | Rendering.cpp:158-186 | `drawCircle` appends exactly the circle's vertices (`segments + 2`, no deduplication) and the fan indices (`3 · segments`), and keeps the viewport |
| Rendering.DrawCircleKeepsValid | Rendering.cpp:158-186 | `drawCircle` keeps every index in range and the index count modulo 3 |
| Rendering.FullTurn | Rendering.cpp:165-173 | over the reals, the angle of the last segment is exactly `2π` (in `float` it is only close to it) |
| Rendering.FanSpan | Rendering.cpp:180-182 | every index of a fan names its centre or one of its rim vertices |
| Rendering.FanInRange | Rendering.cpp:167-185 | the fan appended by `drawCircle` names only vertices of the new buffer |
| Rendering.DrawCircleTriangle | Rendering.cpp:167-184 | triangle `k` of a circle drawn from `V` vertices is `(V, V + 1 + k, V + 2 + k)` |
| Rendering.CircleCloses | Rendering.cpp:165-178 | under the full-turn law the last rim vertex, at angle 2π, equals the start vertex |
| Rendering.ClosingVertexIsCopy | Rendering.cpp:167-185 | under the full-turn law, in the buffer the closing vertex equals the start vertex but sits at another position: the fan does not share it |
| Simulation.ApplyGravity | main.cpp:120-131 | `applyGravity` punches the first planet by `direction * force` and the second by its negation. The two velocity changes cancel and nothing but the two velocities changes |
| Simulation.PullsTowards | main.cpp:121-129 | with positive masses and the square-root law, the distance and force are positive. The first planet's impulse is the separation scaled by `G m1 m2 / d³`: an attraction of inverse-square size |
| Simulation.KickKeeps | main.cpp:129-130 | an equal-and-opposite kick changes only the two planets' velocities, leaves every other planet alone, and keeps the velocity sum |
| Simulation.ApplyPair | main.cpp:138 | `applyGravity(planets[i], planets[j])` on the collection is the opposite kick of the impulse between the two planets as they are now |
| Simulation.ApplyAllKeeps | main.cpp:133-141 | a sequence of pairwise kicks changes no position, mass, radius or colour and keeps the velocity sum |
| Simulation.Row | main.cpp:137-139 | the inner loop of round `i` visits `(i, i + 1), (i, i + 2), …` in order |
| Simulation.RowsUpTo | main.cpp:136-140 | the first `i` rounds visit only pairs `a < b < n` with `a < i` |
| Simulation.RowsUpToCount | main.cpp:136-140 | the first `i` rounds make `i(2n - i - 1)/2` visits |
| Simulation.RowsUpToIncreasing | main.cpp:136-140 | the first `i` rounds visit pairs in strictly increasing lexicographic order |
| Simulation.RowsUpToCovers | main.cpp:136-140 | the first `i` rounds visit every pair whose first planet is below `i` |
| Simulation.VisitsExactlyOnce | main.cpp:133-141 | `gravityTick` visits `n(n-1)/2` pairs in strictly increasing lexicographic order, and a pair is visited exactly when `a < b < n` |
| Simulation.PairwiseImpulses | main.cpp:133-141 | one kick per visited pair, each from start-of-step positions, changes velocities only and keeps their sum |
| Simulation.ImpulseFromStartPositions | main.cpp:120-131 | the impulse depends only on positions and masses, so it is the same for planets that have only been kicked |
| Simulation.PassRowsIsFold | main.cpp:136-140 | after `i` rounds of the outer loop the planets are the reference fold over the first `i` rounds of pairs |
| Simulation.PassRowIsFold | main.cpp:137-139 | within round `i` the planets are the reference fold over the earlier rounds plus this round's pairs so far |
| Simulation.PassRowKeeps | main.cpp:137-139 | during the loops only velocities have changed |
| Simulation.PullPair | main.cpp:138 | one `applyGravity` on the current planets is one more step of the reference fold |
| Simulation.GravityRow | main.cpp:137-139 | the inner loop completes round `i` of the reference fold |
| Simulation.GravityTick | main.cpp:133-141 | `gravityTick` equals the reference pass of one kick per pair `i < j`, each from start-of-step positions. Positions, masses, radii and colours are kept, and so is the velocity sum |
| Simulation.Tick | main.cpp:143-149 | `tick` is `gravityTick` followed by exactly one `Planet::tick` per planet. Count, order, masses, radii, colours and the velocity sum are kept |
| Simulation.Draw | main.cpp:151-159 | `draw` appends each planet's 42-vertex circle and its 120-index fan around its own centre vertex, in planet order, and keeps the viewport |
| Simulation.DrawPlanet | main.cpp:153-157 | one loop iteration appends that planet's circle, with its position, radius and colour, and the default 40-segment fan: 42 vertices and 120 indices |
| Simulation.CirclesAt | main.cpp:151-159 | planet `k`'s circle sits at vertices `42k` to `42k + 42` of those appended by `draw` |
| Simulation.FansAt | main.cpp:151-159 | planet `k`'s fan sits at indices `120k` to `120k + 120` of those appended by `draw` and turns around vertex `V + 42k` |
| Simulation.FansInRange | main.cpp:151-159 | every index that `draw` appends names one of the vertices it appends, and they form whole triangles |
| Simulation.DrawFrame | main.cpp:151-159 | `draw` on cleared buffers gives a valid batch of `42n` vertices and `120n` indices |
| Scenario.WhiteIsConstructed | main.cpp:46 | the first planet is what the planet constructor makes of its arguments |
| Scenario.RedIsPunched | main.cpp:47-50 | the second planet is a fresh planet punched by `(6·10^12, 0)` |
| Scenario.InitialPlanets | main.cpp:45-50 | the constructor's planet list is exactly those two planets, in order |
| Scenario.InitialMomentum | main.cpp:45-50 | the initial momentum is the one punch, `(6·10^12, 0)` |
| Scenario.InitialMassive | main.cpp:46-47 | both initial planets have non-zero mass, so `tick` is defined |
| Scenario.InitialPositions | main.cpp:46-47 | the initial planets sit at `(0, 0)` and `(0, 600)` |
| Scenario.InitialApart | main.cpp:46-47 | under the square-root law the initial planets do not coincide, so `gravityTick` is defined |
| Scenario.SimulationTicker | main.cpp:16-31 | the simulation's ticker, made with `SIMULATION_SPEED`, is valid, starts empty at the current reading and has a period of 1/40 s |
| Scenario.OneSecondIsFortyTicks | main.cpp:16-31 | one second after the ticker is made, one `tick` returns exactly 40 ticks and carries nothing |
| Tickers.NewTicker | Ticker.cpp:5-9 | the constructor stores the clock reading, sets the period to the reciprocal of the rate and the accumulator to 0 |
| Tickers.TickAsWritten | Ticker.cpp:11-21 | as written: `previous_update` becomes the second clock reading, while the count plus the new carry accounts only for the time up to the first reading |
| Tickers.Tick | Ticker.cpp:11-21 | with one clock reading: the count is the floor of the pending periods, count plus new carry is exactly the pending periods, the carry stays in [0, 1), and the reading becomes `previous_update` |
| Tickers.RunTicks | Ticker.cpp:11-21 | over a run of readings, the counts plus the final carry are exactly the elapsed time in periods plus the initial carry, so no tick is lost or repeated |
| Tickers.RunTicksWithinOne | Ticker.cpp:15-18 | the total count of a run is within one tick of the elapsed time in periods |
| Tickers.AsWrittenLosesGap | Ticker.cpp:12-13 | over two calls as written, the time between the first call's two clock reads is never counted |
| Tickers.AsWrittenCounterexample | Ticker.cpp:12-13 | with a one-second period and reads at 1, 2 and 3, three periods pass but two ticks come out and nothing is carried |
| Tickers.SingleReadingCountsAll | Ticker.cpp:11-21 | the same run with one read per call, at 1 and 3, gives all three ticks |

## Left out

- OpenGL and GLFW. This covers `init`, `initShaders`, `initBuffers`, `beginFrame`, the `glViewport` call in `setViewport`, and the buffer upload and draw call in `render`. It also covers the `Shaders` class, the window, the event loop, FPS printing, the framebuffer callback and `main`. These are foreign calls and I/O. The frame loop's order (ticks, then `draw`, then `render`) is not modelled as a whole.
- Floating point. `double` and `float` are modelled as reals, and `PI` as the real 3.141592653589793. Rounding, NaN and infinity are not modelled. Neither is the `float` conversion of the radius in `draw` and the float/double mixing in `drawCircle`.
- `sqrt`, `sinf` and `cosf` are parameters with no properties. A lemma that needs their laws assumes them as a precondition.
- Division by zero is excluded by preconditions rather than modelled. This covers `normalize` on a zero vector, i.e. coincident planets (`Apart`, `AllApart`), and `Planet::tick` with zero mass. It also covers `Ticker` with tick rate 0, and `drawCircle` with a zero viewport dimension. That case is reachable: the renderer starts with a zero viewport until `setViewport`, and the framebuffer callback calls `setViewport` with a zero size when the window is minimised (main.cpp:162-166). There the source still appends 42 vertices, with non-finite positions, and 120 in-range indices per planet. The model's index results (`Fans`, `FansAt`, `FansInRange`) do not depend on the viewport; only the vertex positions divide by it.
- The `Ticker(0)` path that disables the simulation through an infinite period, and the `DEBUG_RENDERER` planet set with zero masses. Both exist only for debugging.
- `Index` overflow past 2^32 vertices: indices are unbounded naturals.
- `Vector2::operator*=` and `operator/=`: nothing in the program calls them.
- Colors.ToRGB: only defined for channels in [0, 1]. Those are the only channels `ColorRGB(uint32_t)` produces. The `int` casts and shifts of out-of-range channels are not modelled.
- Vectors.SamePosition: Vector.h defines no `operator==`, which `Vertex::operator==` uses. The model takes it to be componentwise equality.
- Rendering.DrawPolygon: as in the source, it stores its points without the viewport scaling that `drawCircle` applies.
- Rendering.CircleCloses: holds only under `FullTurnLaw`, an exact-π idealisation. In `drawCircle` the last angle is `segment_angle * segments` in `float`, about 6.2831855, where `sinf` is about 1.7e-7 and not 0. The true sine at the rational `DoublePi` is about -4.8e-16, also not 0. So in the program the last rim vertex is only a near-copy of the start vertex.
- Rendering.ClosingVertexIsCopy: the equality of the two vertices holds only under `FullTurnLaw`, for the same reason; in the program the closing vertex is a near-copy of the start vertex. The law-free part, that the last triangle uses vertex `V + segments + 1` and not `V + 1`, is `Rendering.DrawCircleTriangle` with `k = segments - 1`.
- Rendering.CircleVertices: the radius is divided by the viewport height only, as the source does. The unused `vert_ratio` is not modelled.
- Tickers.TickAsWritten: the cast to `uint32_t` is modelled as the floor of a non-negative total. The elapsed time is required to be non-negative, and a total of 2^32 ticks or more in one call is not modelled.

## Findings

| source | as written | input that shows it | evidently intended | confidence | as-written member | corrected member |
|---|---|---|---|---|---|---|
| Ticker.cpp:12-13 | `tick` reads the clock twice: once for the elapsed time and again for the new `previous_update`. Time between the two reads is never counted | period 1 s, `previous_update` 0; first call reads 1 then 2, second call reads 3: three periods pass, two ticks are returned and the carry is 0 | one reading per call, used for both the elapsed time and `previous_update`; then the counts plus the carry equal the elapsed periods over any run | medium; the gap is tiny per call but accumulates; not executed | Tickers.TickAsWritten | Tickers.Tick |
