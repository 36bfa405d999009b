/** The border strip over the reals: capture bands, the outward projection, the normalized
    position along an edge and its inverse (bibites-mod/src/BorderGeometry.cs). */
module Borders {
  import opened ContractA

  datatype Vec = Vec(x: real, y: real)

  const DEFAULT_WIDTH_FACTOR := 0.02
  const MINIMUM_WIDTH := 20.0

  function Dot(a: Vec, b: Vec): real {
    a.x * b.x + a.y * b.y
  }

  function OutwardNormal(edge: Edge): Vec {
    match edge
    case N => Vec(0.0, 1.0)
    case S => Vec(0.0, -1.0)
    case E => Vec(1.0, 0.0)
    case W => Vec(-1.0, 0.0)
    case NoEdge => Vec(0.0, 0.0)
  }

  function Opposite(edge: Edge): Edge {
    match edge
    case N => S
    case S => N
    case E => W
    case W => E
    case NoEdge => NoEdge
  }

  function OutwardComponent(edge: Edge, velocity: Vec): real {
    Dot(velocity, OutwardNormal(edge))
  }

  function FixedCoordinate(edge: Edge, position: Vec): real {
    if edge == N || edge == S then position.y else position.x
  }

  function FreeCoordinate(edge: Edge, position: Vec): real {
    if edge == N || edge == S then position.x else position.y
  }

  predicate PositiveSide(edge: Edge) {
    edge == N || edge == E
  }

  function Clamp(value: real, min: real, max: real): real {
    if value < min then min else if value > max then max else value
  }

  function Clamp01(value: real): real {
    Clamp(value, 0.0, 1.0)
  }

  /** From [0,1] to [-s,+s], and back. */
  function Spread(s: real, t: real): real {
    2.0 * s * t - s
  }

  function Normalized(s: real, free: real): real
    requires s > 0.0
  {
    (free + s) / (2.0 * s)
  }

  /** `size` is the playable half-extent S, `widthOverride` the configured W when positive. */
  datatype Geometry = Geometry(size: real, widthOverride: real) {

    function Width(): real {
      if widthOverride > 0.0 then widthOverride else Max(MINIMUM_WIDTH, DEFAULT_WIDTH_FACTOR * size)
    }

    function EntryMargin(): real {
      Max(5.0, 0.5 * Width())
    }

    function Hysteresis(): real {
      Max(2.0, 0.25 * Width())
    }

    function Inset(): real {
      Width() + EntryMargin()
    }

    predicate InCaptureBand(edge: Edge, position: Vec) {
      if PositiveSide(edge) then FixedCoordinate(edge, position) >= size - Width()
      else FixedCoordinate(edge, position) <= -size + Width()
    }

    predicate InEntryQuarter(edge: Edge, position: Vec) {
      if PositiveSide(edge) then FixedCoordinate(edge, position) >= 0.5 * size
      else FixedCoordinate(edge, position) <= -(0.5 * size)
    }

    predicate ClearOfStrip(edge: Edge, position: Vec) {
      if PositiveSide(edge) then FixedCoordinate(edge, position) < size - Width() - Hysteresis()
      else FixedCoordinate(edge, position) > -size + Width() + Hysteresis()
    }

    predicate Beyond(edge: Edge, position: Vec) {
      if PositiveSide(edge) then FixedCoordinate(edge, position) > size
      else FixedCoordinate(edge, position) < -size
    }

    function RawExitPosition(edge: Edge, position: Vec): real
      requires size > 0.0
    {
      Normalized(size, FreeCoordinate(edge, position))
    }

    function ExitPosition(edge: Edge, position: Vec): real
      requires size > 0.0
    {
      Clamp01(RawExitPosition(edge, position))
    }

    function EntryPoint(edge: Edge, entryPosition: real): Vec {
      var limit := size - Inset();
      var free := Clamp(Spread(size, Clamp01(entryPosition)), -limit, limit);
      match edge
      case N => Vec(free, size - Inset())
      case S => Vec(free, -size + Inset())
      case E => Vec(size - Inset(), free)
      case W => Vec(-size + Inset(), free)
      case NoEdge => Vec(0.0, 0.0)
    }
  }

  // ---- the projection ------------------------------------------------------------------

  /** The strip in numbers: 2% of the half-extent but never under 20, or the configured width; an
      arrival keeps half as much again from it, a refused organism a quarter, with floors of 5 and
      2 that only a configured width can reach. */
  lemma StripNumbers(g: Geometry)
    ensures g.widthOverride > 0.0 ==> g.Width() == g.widthOverride
    ensures g.widthOverride <= 0.0 ==> g.Width() == if g.size <= 1000.0 then 20.0 else g.size / 50.0
    ensures g.Width() >= 10.0 ==> g.Inset() == g.Width() * 3.0 / 2.0
    ensures g.Width() < 10.0 ==> g.Inset() == g.Width() + 5.0
    ensures g.Hysteresis() == if g.Width() >= 8.0 then g.Width() / 4.0 else 2.0
  {
  }

  /** Each side in its own coordinate: the band reaches `w` in from the line, the quarter half
      way, and one is clear of the strip strictly behind its hysteresis. */
  lemma SidesMean(g: Geometry, p: Vec)
    ensures var s, w, clear := g.size, g.size - g.Width(), g.size - g.Width() - g.Hysteresis();
      && (g.InCaptureBand(N, p) <==> p.y >= w) && (g.InCaptureBand(S, p) <==> p.y <= -w)
      && (g.InCaptureBand(E, p) <==> p.x >= w) && (g.InCaptureBand(W, p) <==> p.x <= -w)
      && (g.InEntryQuarter(N, p) <==> 2.0 * p.y >= s) && (g.InEntryQuarter(S, p) <==> 2.0 * p.y <= -s)
      && (g.InEntryQuarter(E, p) <==> 2.0 * p.x >= s) && (g.InEntryQuarter(W, p) <==> 2.0 * p.x <= -s)
      && (g.Beyond(N, p) <==> p.y > s) && (g.Beyond(S, p) <==> p.y < -s)
      && (g.Beyond(E, p) <==> p.x > s) && (g.Beyond(W, p) <==> p.x < -s)
      && (g.ClearOfStrip(N, p) <==> p.y < clear) && (g.ClearOfStrip(S, p) <==> p.y > -clear)
      && (g.ClearOfStrip(E, p) <==> p.x < clear) && (g.ClearOfStrip(W, p) <==> p.x > -clear)
  {
  }

  /** The position sent is where along its edge an organism left: 0 at the west or south end, 1 at
      the other, in between in proportion, and cut off at the ends. */
  lemma ExitPositionMeans(g: Geometry, edge: Edge, p: Vec, t: real)
    requires g.size > 0.0 && edge != NoEdge
    requires (if edge == N || edge == S then p.x else p.y) == -g.size + t * (2.0 * g.size)
    ensures g.ExitPosition(edge, p) == if t < 0.0 then 0.0 else if t > 1.0 then 1.0 else t
  {
    Quotient(FreeCoordinate(edge, p) + g.size, 2.0 * g.size, g.RawExitPosition(edge, p));
    SameQuotient(g.RawExitPosition(edge, p), t, 2.0 * g.size);
  }

  lemma SameQuotient(a: real, b: real, d: real)
    requires d > 0.0 && a * d == b * d
    ensures a == b
  {
    assert (a - b) * d == 0.0;
  }

  /** The band is one projection: p . n(e) >= S - W on every edge. */
  lemma BandIsAProjection(g: Geometry, edge: Edge, p: Vec)
    requires edge != NoEdge
    ensures g.InCaptureBand(edge, p) <==> Dot(p, OutwardNormal(edge)) >= g.size - g.Width()
  {
  }

  /** Leaving through one edge is entering through the opposite one: an organism captured on e
      and delivered at the opposite edge, its velocity copied, is not leaving there. */
  lemma NoBoomerang(edge: Edge, velocity: Vec)
    ensures OutwardComponent(Opposite(edge), velocity) == -OutwardComponent(edge, velocity)
    ensures OutwardComponent(edge, velocity) > 0.0 ==> OutwardComponent(Opposite(edge), velocity) < 0.0
  {
  }

  /** Two opposite bands meet exactly when the strip is at least as wide as the half-extent. */
  lemma OppositeBandsMeetIff(g: Geometry, edge: Edge)
    requires edge != NoEdge
    ensures (exists p :: g.InCaptureBand(edge, p) && g.InCaptureBand(Opposite(edge), p)) <==> g.size <= g.Width()
  {
    if g.size <= g.Width() {
      assert g.InCaptureBand(edge, Vec(0.0, 0.0)) && g.InCaptureBand(Opposite(edge), Vec(0.0, 0.0));
    }
  }

  /** Inside a band one is never clear of its strip, so a refused organism that stays in the
      band of its only export edge is never released. */
  lemma InBandIsNotClear(g: Geometry, edge: Edge, p: Vec)
    requires g.InCaptureBand(edge, p)
    ensures !g.ClearOfStrip(edge, p)
  {
  }

  /** Out in the band of `f`, well away from the strip of `e`. */
  function EscapeSpot(g: Geometry, e: Edge, f: Edge): Vec {
    var m := Abs(g.size) + g.Width() + g.Hysteresis() + 1.0;
    Vec(m * (OutwardNormal(f).x - OutwardNormal(e).x), m * (OutwardNormal(f).y - OutwardNormal(e).y))
  }

  lemma EscapeSpotEscapes(g: Geometry, e: Edge, f: Edge)
    requires e != NoEdge && f != NoEdge && e != f
    ensures g.InCaptureBand(f, EscapeSpot(g, e, f)) && g.ClearOfStrip(e, EscapeSpot(g, e, f))
  {
    assert g.Width() > 0.0 && g.Hysteresis() > 0.0;
  }

  /** Some spot is in a declared band and clear of the strip of `e` exactly when an edge other
      than `e` is declared, whatever the half-extent and the width of the strip. */
  lemma EscapeIff(g: Geometry, e: Edge, edges: seq<Edge>)
    requires e != NoEdge && NoEdge !in edges
    ensures (exists f, p :: f in edges && g.InCaptureBand(f, p) && g.ClearOfStrip(e, p))
       <==> exists f :: f in edges && f != e
  {
    forall f, p | f in edges && g.InCaptureBand(f, p) && g.ClearOfStrip(e, p) ensures f != e {
      if f == e { InBandIsNotClear(g, e, p); }
    }
    forall f | f in edges && f != e
      ensures g.InCaptureBand(f, EscapeSpot(g, e, f)) && g.ClearOfStrip(e, EscapeSpot(g, e, f))
    {
      EscapeSpotEscapes(g, e, f);
    }
  }

  /** On a world wider than its strips the midpoint of any other edge will do. */
  lemma MidpointEscapes(g: Geometry, e: Edge, f: Edge)
    requires e != NoEdge && f != NoEdge && e != f && g.size > g.Width() + g.Hysteresis()
    ensures var p := Vec(g.size * OutwardNormal(f).x, g.size * OutwardNormal(f).y);
      InSquare(g, p) && g.InCaptureBand(f, p) && g.ClearOfStrip(e, p)
  {
    assert g.Width() > 0.0 && g.Hysteresis() > 0.0;
  }

  // ---- entry points --------------------------------------------------------------------

  predicate InNoBand(g: Geometry, p: Vec) {
    !g.InCaptureBand(N, p) && !g.InCaptureBand(S, p) && !g.InCaptureBand(E, p) && !g.InCaptureBand(W, p)
  }

  predicate InSquare(g: Geometry, p: Vec) {
    -g.size <= p.x <= g.size && -g.size <= p.y <= g.size
  }

  /** No arrival lands in a capture band exactly when the half-extent exceeds the strip by more
      than half the entry margin; in particular whenever S >= W + EntryMargin. */
  lemma EntryPointInNoBandIff(g: Geometry, edge: Edge, t: real)
    requires edge != NoEdge && g.size > 0.0
    ensures InNoBand(g, g.EntryPoint(edge, t)) <==> g.size > g.Width() + 0.5 * g.EntryMargin()
  {
  }

  /** Every spawn coordinate, fixed and free, is at most S - W - margin from the origin. */
  lemma EntryPointInside(g: Geometry, edge: Edge, t: real)
    requires edge != NoEdge && g.size >= g.Inset()
    ensures var p := g.EntryPoint(edge, t);
      && InSquare(g, p) && InNoBand(g, p)
      && Abs(p.x) <= g.size - g.Inset() && Abs(p.y) <= g.size - g.Inset()
      && Dot(p, OutwardNormal(edge)) == g.size - g.Inset()
  {
  }

  /** Where an arrival stands along its edge is where it was sent, up to the inset that keeps it
      off the corner: |raw - t| <= (W + margin) / 2S. */
  lemma EntryRoundTrip(g: Geometry, edge: Edge, t: real)
    requires edge != NoEdge && g.size >= g.Inset() && 0.0 <= t <= 1.0
    ensures var raw := g.RawExitPosition(edge, g.EntryPoint(edge, t));
      && Abs(raw - t) <= g.Inset() / (2.0 * g.size)
      && g.ExitPosition(edge, g.EntryPoint(edge, t)) == raw
  {
    FreeOfEntry(g, edge, t);
    InsetPositive(g);
    ScalarRoundTrip(g.size, g.Inset(), t);
  }

  lemma FreeOfEntry(g: Geometry, edge: Edge, t: real)
    requires edge != NoEdge && 0.0 <= t <= 1.0
    ensures FreeCoordinate(edge, g.EntryPoint(edge, t))
      == Clamp(Spread(g.size, t), -(g.size - g.Inset()), g.size - g.Inset())
  {
    assert Clamp01(t) == t;
  }

  lemma InsetPositive(g: Geometry)
    ensures g.Inset() > 0.0
  {
  }

  lemma ScalarRoundTrip(s: real, i: real, t: real)
    requires 0.0 < i <= s && 0.0 <= t <= 1.0
    ensures var raw := Normalized(s, Clamp(Spread(s, t), -(s - i), s - i));
      Abs(raw - t) <= i / (2.0 * s) && 0.0 <= raw <= 1.0
  {
    var sent := Spread(s, t);
    SpanBounds(s, t, sent);
    ClampNear(sent, s, i);
    var d, free := 2.0 * s, Clamp(sent, -(s - i), s - i);
    var raw := (free + s) / d;
    Quotient(free + s, d, raw);
    assert (raw - t) * d == free - sent by {
      assert (raw - t) * d == raw * d - t * d;
      assert t * d == sent + s by { assert t * (2.0 * s) == 2.0 * s * t; }
    }
    BoundedQuotient(raw - t, d, free - sent, i);
    InUnit(raw, d);
  }

  lemma Quotient(n: real, d: real, q: real)
    requires d > 0.0 && q == n / d
    ensures q * d == n
  {
  }

  lemma BoundedQuotient(q: real, d: real, n: real, bound: real)
    requires d > 0.0 && q * d == n && -bound <= n <= bound
    ensures Abs(q) <= bound / d
  {
    var b := bound / d;
    Quotient(bound, d, b);
    if q > b { assert (q - b) * d > 0.0; }
    if -q > b { assert (-q - b) * d > 0.0; }
  }

  lemma InUnit(q: real, d: real)
    requires d > 0.0 && 0.0 <= q * d <= d
    ensures 0.0 <= q <= 1.0
  {
  }

  lemma ClampNear(v: real, s: real, i: real)
    requires -s <= v <= s && 0.0 <= i <= s
    ensures -i <= Clamp(v, -(s - i), s - i) - v <= i
    ensures -s <= Clamp(v, -(s - i), s - i) <= s
  {
  }

  lemma SpanBounds(s: real, t: real, v: real)
    requires s >= 0.0 && 0.0 <= t <= 1.0 && v == 2.0 * s * t - s
    ensures -s <= v <= s
  {
    assert 0.0 <= s * t;
    assert s * (1.0 - t) >= 0.0;
    assert v == 2.0 * (s * t) - s;
    assert s * (1.0 - t) == s - s * t;
  }

  // ---- the live half-extent ------------------------------------------------------------

  /** The engine's approximate equality: relative 1e-6 with a floor `tiny`. */
  predicate Approximately(a: real, b: real, tiny: real) {
    Abs(b - a) < Max(0.000001 * Max(Abs(a), Abs(b)), tiny)
  }

  /** The object follows a live setting: it never keeps a stale half-extent, and it reports a
      change unless the new value is approximately the old one. */
  class BorderGeometry {
    var simulationSize: real
    const widthOverride: real
    const tiny: real

    constructor (widthOverride: real, tiny: real)
      ensures View() == Geometry(2000.0, widthOverride) && this.tiny == tiny
    {
      simulationSize, this.widthOverride, this.tiny := 2000.0, widthOverride, tiny;
    }

    function View(): Geometry
      reads this
    {
      Geometry(simulationSize, widthOverride)
    }

    method OnSimulationSizeChanged(value: real) returns (changed: bool)
      modifies this
      ensures View() == Geometry(value, widthOverride)
      ensures changed <==> !Approximately(value, old(simulationSize), tiny)
    {
      changed := !Approximately(value, simulationSize, tiny);
      simulationSize := value;
    }
  }
}
