/** `GravitySimulation` of main.cpp: the planets, the pairwise gravity step,
    one integration step per planet, and one circle per planet per frame. */
module Simulation {
  import opened Machine
  import opened Vectors
  import opened Rendering
  import Planets
  import RealFacts

  type Planet = Planets.Planet

  /** `G`, the gravitational constant of main.cpp. */
  const G: real := 0.0000000000667430151515

  /** `SIMULATION_SPEED`, ticks per second. */
  const SimulationSpeed: uint32 := 40

  /** Two planets whose centres do not coincide, so that the direction from
      the first to the second is defined. */
  predicate Apart(first: Planet, second: Planet, m: Libm) {
    Length(Sub(second.position, first.position), m) != 0.0
  }

  /** No two planets coincide. */
  predicate AllApart(ps: seq<Planet>, m: Libm) {
    forall i, j {:trigger Apart(ps[i], ps[j], m)} :: 0 <= i < j < |ps| ==> Apart(ps[i], ps[j], m)
  }

  /** Every planet can be integrated. */
  predicate Massive(ps: seq<Planet>) {
    forall k :: 0 <= k < |ps| ==> ps[k].mass != 0.0
  }

  /** `qs` has the planets of `ps` with the same positions, masses, radii and
      colours; only velocities may differ. */
  predicate Frozen(ps: seq<Planet>, qs: seq<Planet>) {
    |qs| == |ps| &&
    forall k :: 0 <= k < |ps| ==>
      qs[k].position == ps[k].position && qs[k].mass == ps[k].mass &&
      qs[k].radius == ps[k].radius && qs[k].color == ps[k].color
  }

  /** The sum of all velocities, which here are momenta. */
  function SumVelocity(ps: seq<Planet>): Vector2
    decreases |ps|
  {
    if ps == [] then Zero()
    else Add(SumVelocity(ps[..|ps| - 1]), ps[|ps| - 1].velocity)
  }

  /** The unit vector from `first` towards `second`. */
  function Direction(first: Planet, second: Planet, m: Libm): Vector2
    requires Apart(first, second, m)
  {
    Normalize(Sub(second.position, first.position), m)
  }

  /** Newton's law of gravitation, `G * m1 * m2 / distance²`. */
  function Newton(m1: real, m2: real, distance: real): real
    requires distance != 0.0
  {
    (G * m1 * m2) / (distance * distance)
  }

  /** The size of the pull between two planets. */
  function Force(first: Planet, second: Planet, m: Libm): real
    requires Apart(first, second, m)
  {
    Newton(first.mass, second.mass, Length(Sub(second.position, first.position), m))
  }

  /** The impulse `applyGravity` gives the first planet: `direction * force`. */
  function Impulse(first: Planet, second: Planet, m: Libm): Vector2
    requires Apart(first, second, m)
  {
    Scale(Direction(first, second, m), Force(first, second, m))
  }

  /** `applyGravity`: the first planet is punched by the impulse and the
      second by `-direction * force`, its exact opposite, so the two changes
      of velocity cancel; nothing but the two velocities changes. */
  function ApplyGravity(first: Planet, second: Planet, m: Libm): (r: (Planet, Planet))
    requires Apart(first, second, m)
    ensures r.0 == Planets.Punch(first, Impulse(first, second, m))
    ensures r.1 == Planets.Punch(second, Neg(Impulse(first, second, m)))
    ensures Add(Sub(r.0.velocity, first.velocity), Sub(r.1.velocity, second.velocity)) == Zero()
    ensures r.0.(velocity := first.velocity) == first && r.1.(velocity := second.velocity) == second
  {
    var direction := Direction(first, second, m);
    var force := Force(first, second, m);
    NegScale(direction, force);
    (Planets.Punch(first, Scale(direction, force)), Planets.Punch(second, Scale(Neg(direction), force)))
  }

  /** Under the square-root law and with positive masses the impulse on the
      first planet is the separation scaled by `G m1 m2 / d³` with `d > 0`:
      it points at the second planet (attraction) with inverse-square size. */
  lemma {:induction false} PullsTowards(first: Planet, second: Planet, m: Libm)
    requires SqrtLaw(m) && Apart(first, second, m)
    requires 0.0 < first.mass && 0.0 < second.mass
    ensures var diff := Sub(second.position, first.position);
            var d := Length(diff, m);
            0.0 < d && 0.0 < Force(first, second, m) &&
            Scale(Direction(first, second, m), Force(first, second, m)) ==
              Scale(diff, G * first.mass * second.mass / (d * d * d))
  {
    var diff := Sub(second.position, first.position);
    var d := Length(diff, m);
    var k := G * first.mass * second.mass;
    RealFacts.PositiveProduct(G, first.mass, second.mass);
    RealFacts.InverseSquarePositive(k, d);
    RealFacts.InverseSquareOfUnit(diff.x, d, k);
    RealFacts.InverseSquareOfUnit(diff.y, d, k);
  }

  /** Replacing one planet changes the velocity sum by the change of that
      planet's velocity. */
  lemma {:induction false} SumVelocityUpdate(ps: seq<Planet>, k: nat, p: Planet)
    requires k < |ps|
    ensures SumVelocity(ps[k := p]) == Add(Sub(SumVelocity(ps), ps[k].velocity), p.velocity)
    decreases |ps|
  {
    var n := |ps| - 1;
    var qs := ps[k := p];
    if k == n {
      assert qs[..n] == ps[..n];
    } else {
      assert qs[..n] == ps[..n][k := p];
      SumVelocityUpdate(ps[..n], k, p);
    }
  }

  /** The velocity sum depends on the velocities alone. */
  lemma {:induction false} SumVelocitySame(ps: seq<Planet>, qs: seq<Planet>)
    requires |ps| == |qs| && forall k :: 0 <= k < |ps| ==> ps[k].velocity == qs[k].velocity
    ensures SumVelocity(ps) == SumVelocity(qs)
    decreases |ps|
  {
    if ps != [] {
      var n := |ps| - 1;
      SumVelocitySame(ps[..n], qs[..n]);
    }
  }

  /** Planet `i` receives `impulse` and planet `j` its opposite. */
  function Kick(ps: seq<Planet>, i: nat, j: nat, impulse: Vector2): seq<Planet>
    requires i < j < |ps|
  {
    ps[i := Planets.Punch(ps[i], impulse)][j := Planets.Punch(ps[j], Neg(impulse))]
  }

  /** A kick changes two velocities and nothing else, and keeps the velocity
      sum. */
  lemma {:induction false} KickKeeps(ps: seq<Planet>, i: nat, j: nat, impulse: Vector2)
    requires i < j < |ps|
    ensures Frozen(ps, Kick(ps, i, j, impulse))
    ensures forall k :: 0 <= k < |ps| && k != i && k != j ==> Kick(ps, i, j, impulse)[k] == ps[k]
    ensures SumVelocity(Kick(ps, i, j, impulse)) == SumVelocity(ps)
  {
    var a := Planets.Punch(ps[i], impulse);
    var b := Planets.Punch(ps[j], Neg(impulse));
    SumVelocityUpdate(ps, i, a);
    SumVelocityUpdate(ps[i := a], j, b);
  }

  /** `applyGravity(planets[i], planets[j])` on the whole collection: the
      kick of the impulse between the two planets as they are now. */
  function ApplyPair(ps: seq<Planet>, i: nat, j: nat, m: Libm): (r: seq<Planet>)
    requires i < j < |ps| && Apart(ps[i], ps[j], m)
    ensures r == Kick(ps, i, j, Impulse(ps[i], ps[j], m))
  {
    var (a, b) := ApplyGravity(ps[i], ps[j], m);
    ps[i := a][j := b]
  }

  /** Pairs of planet positions below `n`, first below second. */
  predicate ValidPairs(pairs: seq<(nat, nat)>, n: nat) {
    forall k :: 0 <= k < |pairs| ==> pairs[k].0 < pairs[k].1 < n
  }

  /** The reference force pass: for each pair in turn, the kick of the
      impulse computed from the planets as they were before any kick. */
  function ApplyAll(ps: seq<Planet>, pairs: seq<(nat, nat)>, m: Libm): (r: seq<Planet>)
    requires ValidPairs(pairs, |ps|) && AllApart(ps, m)
    ensures |r| == |ps|
    decreases |pairs|
  {
    if pairs == [] then ps
    else
      var (i, j) := pairs[|pairs| - 1];
      Kick(ApplyAll(ps, pairs[..|pairs| - 1], m), i, j, Impulse(ps[i], ps[j], m))
  }

  /** The force pass changes velocities only and keeps their sum. */
  lemma {:induction false} ApplyAllKeeps(ps: seq<Planet>, pairs: seq<(nat, nat)>, m: Libm)
    requires ValidPairs(pairs, |ps|) && AllApart(ps, m)
    ensures Frozen(ps, ApplyAll(ps, pairs, m))
    ensures SumVelocity(ApplyAll(ps, pairs, m)) == SumVelocity(ps)
    decreases |pairs|
  {
    if pairs != [] {
      var (i, j) := pairs[|pairs| - 1];
      var before := ApplyAll(ps, pairs[..|pairs| - 1], m);
      ApplyAllKeeps(ps, pairs[..|pairs| - 1], m);
      KickKeeps(before, i, j, Impulse(ps[i], ps[j], m));
    }
  }

  /** The pairs visited by the inner loop of `gravityTick` for outer index
      `i`, up to (not including) `j`: `(i, i+1), ..., (i, j-1)`. */
  function Row(i: nat, j: nat): (row: seq<(nat, nat)>)
    ensures |row| == if i < j then j - i - 1 else 0
    ensures forall k :: 0 <= k < |row| ==> row[k] == (i, i + 1 + k)
    decreases j
  {
    if j <= i + 1 then [] else Row(i, j - 1) + [(i, j - 1)]
  }

  /** The pairs visited by the first `i` rounds of the outer loop of
      `gravityTick` over `n` planets. */
  function RowsUpTo(i: nat, n: nat): (rows: seq<(nat, nat)>)
    requires i <= n
    ensures ValidPairs(rows, n)
    ensures forall k :: 0 <= k < |rows| ==> rows[k].0 < i
  {
    if i == 0 then [] else RowsUpTo(i - 1, n) + Row(i - 1, n)
  }

  /** The order in which `gravityTick` visits the pairs of `n` planets. */
  function Visits(n: nat): seq<(nat, nat)> {
    RowsUpTo(n, n)
  }

  /** Lexicographic order on pairs. */
  predicate LexLess(p: (nat, nat), q: (nat, nat)) {
    p.0 < q.0 || (p.0 == q.0 && p.1 < q.1)
  }

  predicate StrictlyIncreasing(pairs: seq<(nat, nat)>) {
    forall a, b :: 0 <= a < b < |pairs| ==> LexLess(pairs[a], pairs[b])
  }

  /** The first `i` rounds visit `i(2n - i - 1)/2` pairs. */
  lemma {:induction false} RowsUpToCount(i: nat, n: nat)
    requires i <= n
    ensures 2 * |RowsUpTo(i, n)| == i * (2 * n - i - 1)
  {
    if i > 0 {
      RowsUpToCount(i - 1, n);
      assert |RowsUpTo(i, n)| == |RowsUpTo(i - 1, n)| + (n - i);
      assert (i - 1) * (2 * n - i) + 2 * (n - i) == i * (2 * n - i - 1);
    }
  }

  /** The first `i` rounds visit pairs in strictly increasing lexicographic
      order. */
  lemma {:induction false} RowsUpToIncreasing(i: nat, n: nat)
    requires i <= n
    ensures StrictlyIncreasing(RowsUpTo(i, n))
  {
    if i > 0 {
      RowsUpToIncreasing(i - 1, n);
      var before, row := RowsUpTo(i - 1, n), Row(i - 1, n);
      var rows := before + row;
      forall a, b | 0 <= a < b < |rows| ensures LexLess(rows[a], rows[b]) {
        if b < |before| {
          assert rows[a] == before[a] && rows[b] == before[b];
        } else if a < |before| {
          assert rows[a] == before[a] && rows[b] == row[b - |before|];
        } else {
          assert rows[a] == row[a - |before|] && rows[b] == row[b - |before|];
        }
      }
    }
  }

  /** The first `i` rounds visit every pair whose first planet is below `i`. */
  lemma {:induction false} RowsUpToCovers(i: nat, n: nat, a: nat, b: nat)
    requires i <= n && a < i && a < b < n
    ensures (a, b) in RowsUpTo(i, n)
  {
    var before, row := RowsUpTo(i - 1, n), Row(i - 1, n);
    if a < i - 1 {
      RowsUpToCovers(i - 1, n, a, b);
      assert (a, b) in before;
    } else {
      assert row[b - i] == (a, b);
      assert (a, b) in row;
    }
    assert RowsUpTo(i, n) == before + row;
  }

  /** `gravityTick` visits each pair `i < j` exactly once, in lexicographic
      order: `n(n-1)/2` visits, strictly increasing, and a pair is visited
      exactly when its first planet comes before its second. */
  lemma VisitsExactlyOnce(n: nat)
    ensures 2 * |Visits(n)| == n * (n - 1)
    ensures StrictlyIncreasing(Visits(n))
    ensures forall a: nat, b: nat :: (a, b) in Visits(n) <==> a < b < n
  {
    RowsUpToCount(n, n);
    RowsUpToIncreasing(n, n);
    forall a: nat, b: nat ensures (a, b) in Visits(n) <==> a < b < n {
      if a < b < n {
        RowsUpToCovers(n, n, a, b);
      }
      if (a, b) in Visits(n) {
        var k :| 0 <= k < |Visits(n)| && Visits(n)[k] == (a, b);
      }
    }
  }

  /** What `gravityTick` computes: one kick per pair, in the order of
      `Visits`, every impulse taken from the start-of-step planets. */
  function PairwiseImpulses(ps: seq<Planet>, m: Libm): (r: seq<Planet>)
    requires AllApart(ps, m)
    ensures Frozen(ps, r) && SumVelocity(r) == SumVelocity(ps)
  {
    ApplyAllKeeps(ps, Visits(|ps|), m);
    ApplyAll(ps, Visits(|ps|), m)
  }

  /** One more pair is one more kick. */
  lemma ApplyAllSnoc(ps: seq<Planet>, done: seq<(nat, nat)>, i: nat, j: nat, m: Libm)
    requires ValidPairs(done, |ps|) && i < j < |ps| && AllApart(ps, m)
    ensures ValidPairs(done + [(i, j)], |ps|)
    ensures ApplyAll(ps, done + [(i, j)], m) == Kick(ApplyAll(ps, done, m), i, j, Impulse(ps[i], ps[j], m))
  {
    assert (done + [(i, j)])[..|done|] == done;
  }

  /** The pairs of the first `i` rounds followed by the first pairs of round
      `i` are valid. */
  lemma RowsThenRow(i: nat, j: nat, n: nat)
    requires i < n && j <= n
    ensures ValidPairs(RowsUpTo(i, n) + Row(i, j), n)
  {
    var rows, row := RowsUpTo(i, n), Row(i, j);
    var all: seq<(nat, nat)> := rows + row;
    forall k | 0 <= k < |all| ensures all[k].0 < all[k].1 < n {
      if k >= |rows| {
        assert all[k] == row[k - |rows|];
      }
    }
  }

  /** Impulses depend on positions and masses only, so between planets that
      have only been kicked they are the ones of the start-of-step planets. */
  lemma ImpulseFromStartPositions(ps: seq<Planet>, qs: seq<Planet>, i: nat, j: nat, m: Libm)
    requires Frozen(ps, qs) && i < j < |ps| && Apart(ps[i], ps[j], m)
    ensures Apart(qs[i], qs[j], m)
    ensures Impulse(qs[i], qs[j], m) == Impulse(ps[i], ps[j], m)
  {
    assert qs[i].position == ps[i].position && qs[i].mass == ps[i].mass;
    assert qs[j].position == ps[j].position && qs[j].mass == ps[j].mass;
    assert Sub(qs[j].position, qs[i].position) == Sub(ps[j].position, ps[i].position);
    assert Apart(qs[i], qs[j], m);
  }

  /** The planets once the outer loop of `gravityTick` has run its first `i`
      rounds, every impulse taken from the start-of-step planets `ps`. */
  function PassRows(ps: seq<Planet>, i: nat, m: Libm): (r: seq<Planet>)
    requires i <= |ps| && AllApart(ps, m)
    ensures |r| == |ps|
    decreases i, 0, 0
  {
    if i == 0 then ps else PassRow(ps, i - 1, |ps|, m)
  }

  /** The planets once, in round `i`, the inner loop has visited the pairs up
      to `(i, j - 1)`. */
  function PassRow(ps: seq<Planet>, i: nat, j: nat, m: Libm): (r: seq<Planet>)
    requires i < |ps| && j <= |ps| && AllApart(ps, m)
    ensures |r| == |ps|
    decreases i, 1, j
  {
    if j <= i + 1 then PassRows(ps, i, m)
    else Kick(PassRow(ps, i, j - 1, m), i, j - 1, Impulse(ps[i], ps[j - 1], m))
  }

  /** The two loops visit the pairs in the order of `Visits`: after `i`
      rounds the planets are the force pass over `RowsUpTo(i, n)`. */
  lemma {:induction false} PassRowsIsFold(ps: seq<Planet>, i: nat, m: Libm)
    requires i <= |ps| && AllApart(ps, m)
    ensures PassRows(ps, i, m) == ApplyAll(ps, RowsUpTo(i, |ps|), m)
    decreases i, 0, 0
  {
    if i > 0 {
      PassRowIsFold(ps, i - 1, |ps|, m);
    }
  }

  /** Within round `i`, the planets are the force pass over the earlier
      rounds followed by the pairs of round `i` visited so far. */
  lemma {:induction false} PassRowIsFold(ps: seq<Planet>, i: nat, j: nat, m: Libm)
    requires i < |ps| && j <= |ps| && AllApart(ps, m)
    ensures ValidPairs(RowsUpTo(i, |ps|) + Row(i, j), |ps|)
    ensures PassRow(ps, i, j, m) == ApplyAll(ps, RowsUpTo(i, |ps|) + Row(i, j), m)
    decreases i, 1, j
  {
    var rows := RowsUpTo(i, |ps|);
    RowsThenRow(i, j, |ps|);
    if j <= i + 1 {
      PassRowsIsFold(ps, i, m);
      assert rows + Row(i, j) == rows;
    } else {
      PassRowIsFold(ps, i, j - 1, m);
      ApplyAllSnoc(ps, rows + Row(i, j - 1), i, j - 1, m);
      assert Row(i, j) == Row(i, j - 1) + [(i, j - 1)];
      AppendThen(rows, Row(i, j - 1), [(i, j - 1)]);
    }
  }

  /** Inside round `i` only velocities have changed so far. */
  lemma PassRowKeeps(ps: seq<Planet>, i: nat, j: nat, m: Libm)
    requires i < |ps| && j <= |ps| && AllApart(ps, m)
    ensures Frozen(ps, PassRow(ps, i, j, m))
  {
    PassRowIsFold(ps, i, j, m);
    ApplyAllKeeps(ps, RowsUpTo(i, |ps|) + Row(i, j), m);
  }

  /** The body of the inner loop of `gravityTick`,
      `applyGravity(planets[i], planets[j])` on the current planets, agrees
      with the reference force pass, which takes every impulse from the
      start-of-step planets. */
  method PullPair(ps: seq<Planet>, current: seq<Planet>, i: nat, j: nat, m: Libm) returns (r: seq<Planet>)
    requires i < j < |ps| && AllApart(ps, m)
    requires current == PassRow(ps, i, j, m)
    ensures r == PassRow(ps, i, j + 1, m)
  {
    PassRowKeeps(ps, i, j, m);
    ImpulseFromStartPositions(ps, current, i, j, m);
    r := ApplyPair(current, i, j, m);
  }

  /** The inner loop of `gravityTick` for outer index `i`: `applyGravity`
      on `(i, j)` for every `j` from `i + 1` up. */
  method GravityRow(ps: seq<Planet>, start: seq<Planet>, i: nat, m: Libm) returns (r: seq<Planet>)
    requires i < |ps| && AllApart(ps, m)
    requires start == PassRows(ps, i, m)
    ensures r == PassRows(ps, i + 1, m)
  {
    r := start;
    for j := i + 1 to |ps|
      invariant r == PassRow(ps, i, j, m)
    {
      r := PullPair(ps, r, i, j, m);
    }
  }

  /** `gravityTick`: the two nested loops over `i < j`. Positions stay as
      they were at the start, so every impulse of the step is computed from
      the start-of-step positions, and the velocity sum is kept. */
  method GravityTick(ps: seq<Planet>, m: Libm) returns (r: seq<Planet>)
    requires AllApart(ps, m)
    ensures r == PairwiseImpulses(ps, m)
    ensures Frozen(ps, r)
    ensures SumVelocity(r) == SumVelocity(ps)
  {
    r := ps;
    for i := 0 to |ps|
      invariant r == PassRows(ps, i, m)
    {
      r := GravityRow(ps, r, i, m);
    }
    PassRowsIsFold(ps, |ps|, m);
  }

  /** `GravitySimulation::tick`: `gravityTick`, then one `Planet::tick` per
      planet. The velocity sum is kept, and the number, order, masses, radii
      and colours of the planets are unchanged. */
  method Tick(ps: seq<Planet>, m: Libm) returns (r: seq<Planet>)
    requires AllApart(ps, m) && Massive(ps)
    ensures |r| == |ps|
    ensures forall k :: 0 <= k < |r| ==> r[k] == Planets.Tick(PairwiseImpulses(ps, m)[k])
    ensures SumVelocity(r) == SumVelocity(ps)
    ensures forall k :: 0 <= k < |r| ==>
              r[k].mass == ps[k].mass && r[k].radius == ps[k].radius && r[k].color == ps[k].color
  {
    var pulled := GravityTick(ps, m);
    r := pulled;
    for k := 0 to |r|
      invariant |r| == |pulled|
      invariant forall q :: 0 <= q < k ==> r[q] == Planets.Tick(pulled[q])
      invariant forall q :: k <= q < |r| ==> r[q] == pulled[q]
    {
      r := r[k := Planets.Tick(r[k])];
    }
    SumVelocitySame(pulled, r);
  }

  /** `draw`: one circle of `DefaultSegments` segments per planet, in
      order. The buffers grow by the planets' circles and their fans. */
  function Draw(rd: Renderer, ps: seq<Planet>, m: Libm): (r: Renderer)
    requires rd.viewport.x != 0.0 && rd.viewport.y != 0.0
    ensures r.vertices == rd.vertices + Circles(ps, rd.viewport, m)
    ensures r.indices == rd.indices + Fans(|rd.vertices|, |ps|)
    ensures r.viewport == rd.viewport
    decreases |ps|
  {
    if ps == [] then rd
    else
      var first := DrawPlanet(rd, ps[0], m);
      var r := Draw(first, ps[1..], m);
      AppendThen(rd.vertices, CircleVertices(ps[0].position, ps[0].radius, ps[0].color, DefaultSegments, rd.viewport, m),
                 Circles(ps[1..], rd.viewport, m));
      AppendThen(rd.indices, FanIndices(|rd.vertices|, |rd.vertices| + 1, DefaultSegments),
                 Fans(|rd.vertices| + 42, |ps| - 1));
      r
  }

  /** The body of the loop of `draw`: a circle of the default 40 segments at
      the planet's position, with its radius and colour. It adds 42 vertices
      and 120 indices, which are `DefaultSegments + 2` and
      `3 · DefaultSegments`; the frame lemmas below use these two sizes as
      literals, so that their index arithmetic stays linear. */
  function DrawPlanet(rd: Renderer, p: Planet, m: Libm): (r: Renderer)
    requires rd.viewport.x != 0.0 && rd.viewport.y != 0.0
    ensures r.vertices == rd.vertices + CircleVertices(p.position, p.radius, p.color, DefaultSegments, rd.viewport, m)
    ensures r.indices == rd.indices + FanIndices(|rd.vertices|, |rd.vertices| + 1, DefaultSegments)
    ensures r.viewport == rd.viewport
    ensures |r.vertices| == |rd.vertices| + 42 && |r.indices| == |rd.indices| + 120
  {
    DrawCircle(rd, p.position, p.radius, p.color, DefaultSegments, m)
  }

  /** Reference for the vertices of a frame: the planets' circles, one after
      the other. */
  function Circles(ps: seq<Planet>, viewport: Vector2, m: Libm): (cs: seq<Vertex>)
    requires viewport.x != 0.0 && viewport.y != 0.0
    ensures |cs| == 42 * |ps|
    decreases |ps|
  {
    if ps == [] then []
    else CircleVertices(ps[0].position, ps[0].radius, ps[0].color, DefaultSegments, viewport, m) +
         Circles(ps[1..], viewport, m)
  }

  /** Reference for the indices of a frame of `n` planets whose circles start
      at vertex `v`: one fan of 40 triangles per circle, each around its own
      centre vertex. */
  function Fans(v: nat, n: nat): (fs: seq<Index>)
    ensures |fs| == 120 * n
    decreases n
  {
    if n == 0 then [] else FanIndices(v, v + 1, DefaultSegments) + Fans(v + 42, n - 1)
  }

  /** Circle `k` of a frame sits at vertices `42 k` to
      `42 (k + 1)`. */
  lemma {:induction false} CirclesAt(ps: seq<Planet>, viewport: Vector2, m: Libm, k: nat)
    requires viewport.x != 0.0 && viewport.y != 0.0
    requires k < |ps|
    ensures Circles(ps, viewport, m)[42 * k .. 42 * k + 42] ==
            CircleVertices(ps[k].position, ps[k].radius, ps[k].color, DefaultSegments, viewport, m)
    decreases k
  {
    var head := CircleVertices(ps[0].position, ps[0].radius, ps[0].color, DefaultSegments, viewport, m);
    var tail := Circles(ps[1..], viewport, m);
    if k == 0 {
      assert (head + tail)[0 .. 42] == head;
    } else {
      CirclesAt(ps[1..], viewport, m, k - 1);
      assert ps[1..][k - 1] == ps[k];
      assert (head + tail)[42 * k .. 42 * k + 42] == tail[42 * (k - 1) .. 42 * (k - 1) + 42];
    }
  }

  /** Fan `k` of a frame occupies indices `120 k` to `120 (k + 1)`
      and turns around vertex `v + 42 k`. */
  lemma {:induction false} FansAt(v: nat, n: nat, k: nat)
    requires k < n
    ensures Fans(v, n)[120 * k .. 120 * k + 120] == FanIndices(v + 42 * k, v + 42 * k + 1, DefaultSegments)
    decreases k
  {
    var head, tail := FanIndices(v, v + 1, DefaultSegments), Fans(v + 42, n - 1);
    if k == 0 {
      assert (head + tail)[0 .. 120] == head;
    } else {
      FansAt(v + 42, n - 1, k - 1);
      assert (head + tail)[120 * k .. 120 * k + 120] == tail[120 * (k - 1) .. 120 * (k - 1) + 120];
    }
  }

  /** Every index of the fans of `n` circles starting at vertex `v` names a
      vertex of those circles, and they form whole triangles. */
  lemma {:induction false} FansInRange(v: nat, n: nat)
    ensures forall i :: 0 <= i < |Fans(v, n)| ==> v <= Fans(v, n)[i] < v + 42 * n
    ensures |Fans(v, n)| % 3 == 0
    decreases n
  {
    if n > 0 {
      FansInRange(v + 42, n - 1);
      FanSpan(v, v + 1, DefaultSegments);
      var head, tail, fs := FanIndices(v, v + 1, DefaultSegments), Fans(v + 42, n - 1), Fans(v, n);
      assert fs == head + tail;
      forall i | 0 <= i < |fs|
        ensures v <= fs[i] < v + 42 * n
      {
        if i < |head| {
          assert fs[i] == head[i];
        } else {
          assert fs[i] == tail[i - |head|];
        }
      }
    }
  }

  /** A frame drawn on cleared buffers is a valid batch of `42 n`
      vertices and `120 n` indices. */
  lemma DrawFrame(rd: Renderer, ps: seq<Planet>, m: Libm)
    requires rd.viewport.x != 0.0 && rd.viewport.y != 0.0
    ensures var r := Draw(ClearBuffers(rd), ps, m);
            Valid(r) && |r.vertices| == 42 * |ps| && |r.indices| == 120 * |ps|
  {
    var r := Draw(ClearBuffers(rd), ps, m);
    FansInRange(0, |ps|);
    assert r.indices == Fans(0, |ps|);
  }
}
