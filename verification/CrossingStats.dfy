/** The border counters: strip entries and crossings counted on transitions, the live number of
    organisms in each edge's quarter of the map, and the arrivals of the open window
    (bibites-mod/src/CrossingStats.cs). */
module Crossings {
  import opened ContractA
  import opened Lists
  import opened Borders
  import ExportEdges

  const REPORT_PERIOD_SIM_SECONDS := 60.0
  const SLOTS: nat := 5
  const HISTOGRAM_BUCKETS: nat := 8
  const STALE_AFTER_TICKS: int := 2400
  const PRUNE_FROM: nat := 64

  /** Which bands, outer sides and quarters an organism was last seen in. */
  datatype Observation = Observation(inBand: set<Edge>, beyond: set<Edge>, inQuarter: set<Edge>, lastSeenTick: int)

  const UNSEEN := Observation({}, {}, {}, 0)

  /** One report line of each series. */
  datatype StripLine = StripLine(edge: Edge, stripEntries: int, crossings: int)

  datatype CrowdLine = CrowdLine(edge: Edge, inQuarter: int, arrivals: int)

  function EdgeAt(slot: int): Edge {
    if slot == 1 then N else if slot == 2 then S else if slot == 3 then E else if slot == 4 then W else NoEdge
  }

  // ---- the recount ---------------------------------------------------------------------

  /** The organisms last seen in the quarter of `edge`. */
  ghost function Holders(obs: map<int, Observation>, edge: Edge): set<int> {
    set id | id in obs && edge in obs[id].inQuarter
  }

  ghost function Recount(obs: map<int, Observation>, edge: Edge): nat {
    |Holders(obs, edge)|
  }

  function Bit(edge: Edge, edges: set<Edge>): int {
    if edge in edges then 1 else 0
  }

  function Last(obs: map<int, Observation>, id: int): Observation {
    if id in obs then obs[id] else UNSEEN
  }

  lemma HoldersUpdate(obs: map<int, Observation>, id: int, now: Observation, edge: Edge)
    ensures Holders(obs[id := now], edge)
         == if edge in now.inQuarter then Holders(obs, edge) + {id} else Holders(obs, edge) - {id}
  {
  }

  /** A new observation moves the recount by what changed for this organism. */
  lemma RecountUpdate(obs: map<int, Observation>, id: int, now: Observation, edge: Edge)
    ensures Recount(obs[id := now], edge)
         == Recount(obs, edge) + Bit(edge, now.inQuarter) - Bit(edge, Last(obs, id).inQuarter)
  {
    HoldersUpdate(obs, id, now, edge);
    assert id in Holders(obs, edge) <==> edge in Last(obs, id).inQuarter;
  }

  lemma RecountRemove(obs: map<int, Observation>, id: int, edge: Edge)
    ensures Recount(obs - {id}, edge) == Recount(obs, edge) - Bit(edge, Last(obs, id).inQuarter)
  {
    assert Holders(obs - {id}, edge) == Holders(obs, edge) - {id};
  }

  /** So a counter that equals the recount is positive whenever it is about to be decremented:
      the `> 0` guard in Release never decides anything. */
  lemma GuardNeverMatters(obs: map<int, Observation>, id: int, edge: Edge)
    requires id in obs && edge in obs[id].inQuarter
    ensures Recount(obs, edge) > 0
  {
    assert id in Holders(obs, edge);
  }

  lemma EmptyRecount(obs: map<int, Observation>)
    requires obs == map[]
    ensures forall e: Edge :: Recount(obs, e) == 0
  {
    forall e: Edge ensures Recount(obs, e) == 0 {
      assert Holders(obs, e) == {};
    }
  }

  // ---- what the reports say ------------------------------------------------------------

  /** One line an edge, in the given order, from the five counters of each kind. */
  function StripLines(edges: seq<Edge>, strips: seq<int>, crossings: seq<int>): (lines: seq<StripLine>)
    requires |strips| == |crossings| == SLOTS
    ensures |lines| == |edges|
  {
    seq(|edges|, i requires 0 <= i < |edges| =>
      StripLine(edges[i], strips[Index(edges[i])], crossings[Index(edges[i])]))
  }

  function CrowdLines(edges: seq<Edge>, quarters: seq<int>, arrivals: seq<int>): (lines: seq<CrowdLine>)
    requires |quarters| == |arrivals| == SLOTS
    ensures |lines| == |edges|
  {
    seq(|edges|, i requires 0 <= i < |edges| =>
      CrowdLine(edges[i], quarters[Index(edges[i])], arrivals[Index(edges[i])]))
  }

  lemma NextCrowdLine(log: seq<CrowdLine>, edges: seq<Edge>, i: nat, quarters: seq<int>, arrivals: seq<int>)
    requires |quarters| == |arrivals| == SLOTS && i < |edges|
    ensures log + CrowdLines(edges[..i + 1], quarters, arrivals)
         == log + CrowdLines(edges[..i], quarters, arrivals)
              + [CrowdLine(edges[i], quarters[Index(edges[i])], arrivals[Index(edges[i])])]
  {
  }

  lemma NextStripLine(log: seq<StripLine>, edges: seq<Edge>, i: nat, strips: seq<int>, crossings: seq<int>)
    requires |strips| == |crossings| == SLOTS && i < |edges|
    ensures log + StripLines(edges[..i + 1], strips, crossings)
         == log + StripLines(edges[..i], strips, crossings)
              + [StripLine(edges[i], strips[Index(edges[i])], crossings[Index(edges[i])])]
  {
  }

  /** Closing one more edge's window: the counters are zero for the edges done, and as they were
      for the others. */
  ghost predicate ClosedUpTo(edges: seq<Edge>, i: nat, start: seq<int>, now: seq<int>) {
    i <= |edges| && |start| == |now| == SLOTS
    && forall e: Edge :: now[Index(e)] == if e in edges[..i] then 0 else start[Index(e)]
  }

  lemma OneMoreClosed(edges: seq<Edge>, i: nat, start: seq<int>, before: seq<int>, now: seq<int>)
    requires i < |edges| && ClosedUpTo(edges, i, start, before) && |now| == SLOTS
    requires forall e: Edge :: now[Index(e)] == if e == edges[i] then 0 else before[Index(e)]
    ensures ClosedUpTo(edges, i + 1, start, now)
  {
    assert edges[..i + 1] == edges[..i] + [edges[i]];
  }

  /** An edge that is still to come has its window as it was. */
  lemma StillOpen(edges: seq<Edge>, i: nat, start: seq<int>, now: seq<int>)
    requires Distinct(edges) && i < |edges| && ClosedUpTo(edges, i, start, now)
    ensures now[Index(edges[i])] == start[Index(edges[i])]
  {
    assert edges[i] !in edges[..i];
  }

  lemma AllClosed(edges: seq<Edge>, start: seq<int>, now: seq<int>)
    requires ClosedUpTo(edges, |edges|, start, now)
    ensures forall e | e in edges :: now[Index(e)] == 0
  {
    assert edges[..|edges|] == edges;
  }

  lemma RankedIsDistinct(edges: seq<Edge>)
    requires ExportEdges.RankSorted(edges)
    ensures Distinct(edges)
  {
  }

  // ---- what the reports add up to ------------------------------------------------------

  /** What the report lines of one edge add up to. */
  function ReportedStrips(log: seq<StripLine>, edge: Edge): int {
    if log == [] then 0
    else ReportedStrips(log[..|log| - 1], edge) + if log[|log| - 1].edge == edge then log[|log| - 1].stripEntries else 0
  }

  function ReportedCrossings(log: seq<StripLine>, edge: Edge): int {
    if log == [] then 0
    else ReportedCrossings(log[..|log| - 1], edge) + if log[|log| - 1].edge == edge then log[|log| - 1].crossings else 0
  }

  function ReportedArrivals(log: seq<CrowdLine>, edge: Edge): int {
    if log == [] then 0
    else ReportedArrivals(log[..|log| - 1], edge) + if log[|log| - 1].edge == edge then log[|log| - 1].arrivals else 0
  }

  lemma StripReported(log: seq<StripLine>, line: StripLine)
    ensures forall e: Edge ::
      ReportedStrips(log + [line], e) == ReportedStrips(log, e) + if e == line.edge then line.stripEntries else 0
    ensures forall e: Edge ::
      ReportedCrossings(log + [line], e) == ReportedCrossings(log, e) + if e == line.edge then line.crossings else 0
  {
    assert (log + [line])[..|log|] == log;
  }

  lemma CrowdReported(log: seq<CrowdLine>, line: CrowdLine)
    ensures forall e: Edge ::
      ReportedArrivals(log + [line], e) == ReportedArrivals(log, e) + if e == line.edge then line.arrivals else 0
  {
    assert (log + [line])[..|log|] == log;
  }

  /** Closing a reported window moves its count from the window to the reports. */
  lemma CrowdBalance(log: seq<CrowdLine>, line: CrowdLine, before: seq<int>, after: seq<int>, totals: seq<int>)
    requires |before| == |after| == |totals| == SLOTS && line.arrivals == before[Index(line.edge)]
    requires forall e: Edge :: totals[Index(e)] == ReportedArrivals(log, e) + before[Index(e)]
    requires forall e: Edge :: after[Index(e)] == if e == line.edge then 0 else before[Index(e)]
    ensures forall e: Edge :: totals[Index(e)] == ReportedArrivals(log + [line], e) + after[Index(e)]
  {
    CrowdReported(log, line);
  }

  lemma NonemptyHas(s: set<int>)
    requires s != {}
    ensures exists id :: id in s
  {
    assert (forall id :: id !in s) ==> s == {};
  }

  function Bucket(entryPosition: real): (b: nat)
    ensures b < HISTOGRAM_BUCKETS
  {
    var b := (Clamp01(entryPosition) * (HISTOGRAM_BUCKETS as real)).Floor;
    if b > HISTOGRAM_BUCKETS - 1 then HISTOGRAM_BUCKETS - 1 else b
  }

  /** Eight equal buckets from end to end, the last one with its end; what lies outside goes to the
      nearest. */
  lemma BucketMeans(t: real)
    ensures 0.0 <= t < 1.0 ==> Bucket(t) as real <= 8.0 * t < Bucket(t) as real + 1.0
    ensures t < 0.0 ==> Bucket(t) == 0
    ensures t >= 1.0 ==> Bucket(t) == 7
  {
    assert 0.0 <= t < 1.0 ==> 0.0 <= t * 8.0 < 8.0;
  }

  ghost function Five(a: array<int>): int
    requires a.Length == SLOTS
    reads a
  {
    a[0] + a[1] + a[2] + a[3] + a[4]
  }

  ghost function RowSum(h: array2<int>, slot: nat): int
    requires h.Length0 == SLOTS && h.Length1 == HISTOGRAM_BUCKETS && slot < SLOTS
    reads h
  {
    h[slot, 0] + h[slot, 1] + h[slot, 2] + h[slot, 3] + h[slot, 4] + h[slot, 5] + h[slot, 6] + h[slot, 7]
  }

  // ---- the object ----------------------------------------------------------------------

  class CrossingStats {
    var observations: map<int, Observation>
    const windowStripEntries: array<int>
    const windowCrossings: array<int>
    const totalStripEntries: array<int>
    const totalCrossings: array<int>
    const quarterCount: array<int>
    const windowArrivals: array<int>
    const totalArrivals: array<int>
    const windowHistogram: array2<int>
    var windowStartSimTime: real
    var grandStripEntries: int
    var grandCrossings: int
    var crossingLog: seq<StripLine>
    var crowdingLog: seq<CrowdLine>
    const exports: seq<Edge>

    ghost predicate Shape()
      reads this
    {
      && windowStripEntries.Length == windowCrossings.Length == SLOTS
      && totalStripEntries.Length == totalCrossings.Length == SLOTS
      && quarterCount.Length == windowArrivals.Length == totalArrivals.Length == SLOTS
      && windowHistogram.Length0 == SLOTS && windowHistogram.Length1 == HISTOGRAM_BUCKETS
      && windowStripEntries != windowCrossings && windowStripEntries != totalStripEntries
      && windowStripEntries != totalCrossings && windowCrossings != totalStripEntries
      && windowCrossings != totalCrossings && totalStripEntries != totalCrossings
      && quarterCount != windowStripEntries && quarterCount != windowCrossings && quarterCount != totalStripEntries
      && quarterCount != totalCrossings && quarterCount != windowArrivals && quarterCount != totalArrivals
      && windowArrivals != windowStripEntries && windowArrivals != windowCrossings
      && windowArrivals != totalStripEntries && windowArrivals != totalCrossings && windowArrivals != totalArrivals
      && totalArrivals != windowStripEntries && totalArrivals != windowCrossings && totalArrivals != totalStripEntries
      && totalArrivals != totalCrossings
      && NoEdge !in exports && ExportEdges.RankSorted(exports)
    }

    /** Every live count is what counting the stored observations again would give. */
    ghost predicate QuartersOk()
      requires Shape()
      reads this, quarterCount
    {
      forall e: Edge :: quarterCount[Index(e)] == Recount(observations, e)
    }

    /** Each open window's histogram sums to its arrivals. */
    ghost predicate HistogramsOk()
      requires Shape()
      reads this, windowArrivals, windowHistogram
    {
      forall e: Edge :: windowArrivals[Index(e)] == RowSum(windowHistogram, Index(e))
    }

    /** Each total is all the windows reported so far plus the open one. */
    ghost predicate StripsOk()
      requires Shape()
      reads this, windowStripEntries, windowCrossings, totalStripEntries, totalCrossings
    {
      && (forall e: Edge ::
            totalStripEntries[Index(e)] == ReportedStrips(crossingLog, e) + windowStripEntries[Index(e)])
      && (forall e: Edge :: totalCrossings[Index(e)] == ReportedCrossings(crossingLog, e) + windowCrossings[Index(e)])
    }

    ghost predicate ArrivalsOk()
      requires Shape()
      reads this, windowArrivals, totalArrivals
    {
      forall e: Edge :: totalArrivals[Index(e)] == ReportedArrivals(crowdingLog, e) + windowArrivals[Index(e)]
    }

    /** The grand totals are the sums over the edges. */
    ghost predicate GrandOk()
      requires Shape()
      reads this, totalStripEntries, totalCrossings
    {
      grandStripEntries == Five(totalStripEntries) && grandCrossings == Five(totalCrossings)
    }

    ghost function Arrays(): set<object>
      reads this
    {
      {windowStripEntries, windowCrossings, totalStripEntries, totalCrossings, quarterCount, windowArrivals,
        totalArrivals, windowHistogram}
    }

    ghost predicate Valid()
      reads this, Arrays()
    {
      Shape() && QuartersOk() && HistogramsOk() && StripsOk() && ArrivalsOk() && GrandOk()
    }

    constructor (exports: seq<Edge>, now: real)
      requires NoEdge !in exports && ExportEdges.RankSorted(exports)
      ensures
        && Valid()
        && fresh(Arrays())
        && observations == map[]
        && crossingLog == []
        && crowdingLog == []
        && this.exports == exports
    {
      windowStripEntries := new int[5];
      windowCrossings := new int[5];
      totalStripEntries := new int[5];
      totalCrossings := new int[5];
      quarterCount := new int[5];
      windowArrivals := new int[5];
      totalArrivals := new int[5];
      windowHistogram := new int[5, 8];
      this.exports := exports;
      new;
      Reset(now);
    }

    /** A new session counts from nothing; the two logs are the session's report lines. */
    method Reset(now: real)
      requires Shape()
      modifies this, Arrays()
      ensures Valid() && observations == map[] && crossingLog == [] && crowdingLog == []
    {
      observations := map[];
      windowStartSimTime := now;
      crossingLog := [];
      crowdingLog := [];
      grandStripEntries := 0;
      grandCrossings := 0;
      var slot := 0;
      while slot < SLOTS
        invariant 0 <= slot <= SLOTS
        invariant forall k: nat | k < slot :: ZeroAt(k)
        modifies Arrays()
      {
        ClearSlot(slot);
        slot := slot + 1;
      }
      ZeroIsValid();
    }

    ghost predicate ZeroAt(k: nat)
      requires Shape()
      reads this, Arrays()
    {
      k < SLOTS
      && windowStripEntries[k] == 0 && windowCrossings[k] == 0 && totalStripEntries[k] == 0 && totalCrossings[k] == 0
      && quarterCount[k] == 0 && windowArrivals[k] == 0 && totalArrivals[k] == 0
      && forall b | 0 <= b < HISTOGRAM_BUCKETS :: windowHistogram[k, b] == 0
    }

    lemma ZeroIsValid()
      requires
        && Shape()
        && observations == map[]
        && crossingLog == []
        && crowdingLog == []
        && grandStripEntries == 0
        && grandCrossings == 0
      requires forall k: nat | k < SLOTS :: ZeroAt(k)
      ensures Valid()
    {
      EmptyRecount(observations);
      assert ZeroAt(0) && ZeroAt(1) && ZeroAt(2) && ZeroAt(3) && ZeroAt(4);
    }

    method ClearSlot(slot: nat)
      requires Shape() && slot < SLOTS
      modifies Arrays()
      ensures ZeroAt(slot) && forall k: nat | k != slot && old(ZeroAt(k)) :: ZeroAt(k)
    {
      windowStripEntries[slot] := 0;
      windowCrossings[slot] := 0;
      totalStripEntries[slot] := 0;
      totalCrossings[slot] := 0;
      quarterCount[slot] := 0;
      windowArrivals[slot] := 0;
      totalArrivals[slot] := 0;
      ClearRow(slot);
    }

    method ClearRow(slot: nat)
      requires Shape() && slot < SLOTS
      modifies windowHistogram
      ensures forall b | 0 <= b < HISTOGRAM_BUCKETS :: windowHistogram[slot, b] == 0
      ensures forall k, b | 0 <= k < SLOTS && k != slot && 0 <= b < HISTOGRAM_BUCKETS ::
        windowHistogram[k, b] == old(windowHistogram[k, b])
      ensures RowSum(windowHistogram, slot) == 0
      ensures forall k: nat | k < SLOTS && k != slot :: RowSum(windowHistogram, k) == old(RowSum(windowHistogram, k))
    {
      var bucket := 0;
      while bucket < HISTOGRAM_BUCKETS
        invariant 0 <= bucket <= HISTOGRAM_BUCKETS
        invariant forall b | 0 <= b < bucket :: windowHistogram[slot, b] == 0
        invariant forall k, b | 0 <= k < SLOTS && k != slot && 0 <= b < HISTOGRAM_BUCKETS ::
          windowHistogram[k, b] == old(windowHistogram[k, b])
      {
        windowHistogram[slot, bucket] := 0;
        bucket := bucket + 1;
      }
    }

    /** What an organism at `position` is in. */
    function Seen(g: Geometry, position: Vec, tick: int): Observation
      reads this
    {
      Observation((set e | e in exports && g.InCaptureBand(e, position)),
                  (set e | e in exports && g.Beyond(e, position)),
                  (set e | e in ALL_EDGES && g.InEntryQuarter(e, position)), tick)
    }

    /** An organism is in a declared edge's band, over a declared edge's line, and in the quarter of
        any edge. */
    lemma SeenMeans(g: Geometry, p: Vec, tick: int)
      ensures var o := Seen(g, p, tick); var w, s := g.size - g.Width(), g.size;
        && (N in o.inBand <==> N in exports && p.y >= w) && (S in o.inBand <==> S in exports && p.y <= -w)
        && (E in o.inBand <==> E in exports && p.x >= w) && (W in o.inBand <==> W in exports && p.x <= -w)
        && (N in o.beyond <==> N in exports && p.y > s) && (S in o.beyond <==> S in exports && p.y < -s)
        && (E in o.beyond <==> E in exports && p.x > s) && (W in o.beyond <==> W in exports && p.x < -s)
        && (N in o.inQuarter <==> 2.0 * p.y >= s) && (S in o.inQuarter <==> 2.0 * p.y <= -s)
        && (E in o.inQuarter <==> 2.0 * p.x >= s) && (W in o.inQuarter <==> 2.0 * p.x <= -s)
        && NoEdge !in o.inQuarter && o.lastSeenTick == tick
    {
      SidesMean(g, p);
      assert N in ALL_EDGES && S in ALL_EDGES && E in ALL_EDGES && W in ALL_EDGES;
    }

    /** Count the transitions into the band and over the line, edge by edge. */
    method CountTransitions(previous: Observation, now: Observation)
      requires Shape() && now.inBand <= (set e | e in exports) && now.beyond <= (set e | e in exports)
      modifies this`grandStripEntries, this`grandCrossings, windowStripEntries, windowCrossings, totalStripEntries,
        totalCrossings
      ensures forall e: Edge ::
        windowStripEntries[Index(e)] == old(windowStripEntries[Index(e)]) + Bit(e, now.inBand - previous.inBand)
      ensures forall e: Edge ::
        totalStripEntries[Index(e)] == old(totalStripEntries[Index(e)]) + Bit(e, now.inBand - previous.inBand)
      ensures forall e: Edge ::
        windowCrossings[Index(e)] == old(windowCrossings[Index(e)]) + Bit(e, now.beyond - previous.beyond)
      ensures forall e: Edge ::
        totalCrossings[Index(e)] == old(totalCrossings[Index(e)]) + Bit(e, now.beyond - previous.beyond)
      ensures grandStripEntries - old(grandStripEntries) == Five(totalStripEntries) - old(Five(totalStripEntries))
      ensures grandCrossings - old(grandCrossings) == Five(totalCrossings) - old(Five(totalCrossings))
    {
      var i := 0;
      while i < |exports|
        invariant 0 <= i <= |exports|
        invariant forall e: Edge ::
          windowStripEntries[Index(e)]
            == old(windowStripEntries[Index(e)]) + Counted(e, i, now.inBand - previous.inBand)
        invariant forall e: Edge ::
          totalStripEntries[Index(e)] == old(totalStripEntries[Index(e)]) + Counted(e, i, now.inBand - previous.inBand)
        invariant forall e: Edge ::
          windowCrossings[Index(e)] == old(windowCrossings[Index(e)]) + Counted(e, i, now.beyond - previous.beyond)
        invariant forall e: Edge ::
          totalCrossings[Index(e)] == old(totalCrossings[Index(e)]) + Counted(e, i, now.beyond - previous.beyond)
        invariant grandStripEntries - old(grandStripEntries) == Five(totalStripEntries) - old(Five(totalStripEntries))
        invariant grandCrossings - old(grandCrossings) == Five(totalCrossings) - old(Five(totalCrossings))
      {
        var edge := exports[i];
        CountedNext(i, now.inBand - previous.inBand);
        CountedNext(i, now.beyond - previous.beyond);
        CountEdge(edge, edge in now.inBand && edge !in previous.inBand, edge in now.beyond && edge !in previous.beyond);
        i := i + 1;
      }
      assert exports[..i] == exports;
    }

    method CountEdge(edge: Edge, entered: bool, crossed: bool)
      requires Shape()
      modifies this`grandStripEntries, this`grandCrossings
      modifies windowStripEntries, windowCrossings, totalStripEntries, totalCrossings
      ensures forall e: Edge ::
        windowStripEntries[Index(e)] == old(windowStripEntries[Index(e)]) + (if e == edge && entered then 1 else 0)
      ensures forall e: Edge ::
        totalStripEntries[Index(e)] == old(totalStripEntries[Index(e)]) + (if e == edge && entered then 1 else 0)
      ensures forall e: Edge ::
        windowCrossings[Index(e)] == old(windowCrossings[Index(e)]) + (if e == edge && crossed then 1 else 0)
      ensures forall e: Edge ::
        totalCrossings[Index(e)] == old(totalCrossings[Index(e)]) + (if e == edge && crossed then 1 else 0)
      ensures grandStripEntries - old(grandStripEntries) == Five(totalStripEntries) - old(Five(totalStripEntries))
      ensures grandCrossings - old(grandCrossings) == Five(totalCrossings) - old(Five(totalCrossings))
    {
      CountStripEntry(edge, entered);
      CountCrossing(edge, crossed);
    }

    method CountStripEntry(edge: Edge, entered: bool)
      requires Shape()
      modifies this`grandStripEntries, windowStripEntries, totalStripEntries
      ensures forall e: Edge ::
        windowStripEntries[Index(e)] == old(windowStripEntries[Index(e)]) + (if e == edge && entered then 1 else 0)
      ensures forall e: Edge ::
        totalStripEntries[Index(e)] == old(totalStripEntries[Index(e)]) + (if e == edge && entered then 1 else 0)
      ensures grandStripEntries - old(grandStripEntries) == Five(totalStripEntries) - old(Five(totalStripEntries))
    {
      if entered {
        CountOne(Index(edge), windowStripEntries, totalStripEntries);
        grandStripEntries := grandStripEntries + 1;
      }
    }

    method CountCrossing(edge: Edge, crossed: bool)
      requires Shape()
      modifies this`grandCrossings, windowCrossings, totalCrossings
      ensures forall e: Edge ::
        windowCrossings[Index(e)] == old(windowCrossings[Index(e)]) + (if e == edge && crossed then 1 else 0)
      ensures forall e: Edge ::
        totalCrossings[Index(e)] == old(totalCrossings[Index(e)]) + (if e == edge && crossed then 1 else 0)
      ensures grandCrossings - old(grandCrossings) == Five(totalCrossings) - old(Five(totalCrossings))
    {
      if crossed {
        CountOne(Index(edge), windowCrossings, totalCrossings);
        grandCrossings := grandCrossings + 1;
      }
    }

    /** One more in the window and in the total of a slot. */
    static method CountOne(slot: nat, window: array<int>, total: array<int>)
      requires window.Length == total.Length == SLOTS && window != total && slot < SLOTS
      modifies window, total
      ensures forall k | 0 <= k < SLOTS :: window[k] == old(window[k]) + if k == slot then 1 else 0
      ensures forall k | 0 <= k < SLOTS :: total[k] == old(total[k]) + if k == slot then 1 else 0
      ensures Five(total) == old(Five(total)) + 1
    {
      window[slot] := window[slot] + 1;
      total[slot] := total[slot] + 1;
    }

    ghost function Counted(edge: Edge, i: nat, moved: set<Edge>): int
      requires i <= |exports|
      reads this
    {
      if edge in exports[..i] then Bit(edge, moved) else 0
    }

    lemma CountedNext(i: nat, moved: set<Edge>)
      requires Shape() && i < |exports|
      ensures forall e: Edge ::
        Counted(e, i + 1, moved) == Counted(e, i, moved) + if e == exports[i] then Bit(e, moved) else 0
    {
      assert exports[..i + 1] == exports[..i] + [exports[i]];
    }

    /** Move the live counts by what changed, border edge by border edge. */
    method MoveQuarters(previous: set<Edge>, now: set<Edge>)
      requires Shape() && NoEdge !in previous && NoEdge !in now
      modifies quarterCount
      ensures forall e: Edge :: quarterCount[Index(e)] == old(quarterCount[Index(e)]) + Bit(e, now) - Bit(e, previous)
    {
      var i := 0;
      while i < |ALL_EDGES|
        invariant 0 <= i <= |ALL_EDGES|
        invariant forall e: Edge ::
          quarterCount[Index(e)]
            == old(quarterCount[Index(e)]) + if e in ALL_EDGES[..i] then Bit(e, now) - Bit(e, previous) else 0
      {
        var edge := ALL_EDGES[i];
        assert ALL_EDGES[..i + 1] == ALL_EDGES[..i] + [edge];
        assert edge !in ALL_EDGES[..i];
        if edge in now && edge !in previous {
          quarterCount[Index(edge)] := quarterCount[Index(edge)] + 1;
        } else if edge !in now && edge in previous {
          quarterCount[Index(edge)] := quarterCount[Index(edge)] - 1;
        }
        i := i + 1;
      }
      assert ALL_EDGES[..i] == ALL_EDGES;
      assert forall e: Edge :: e in ALL_EDGES || e == NoEdge;
    }

    /** No stored observation names the enumeration's `None`. */
    ghost predicate Stored()
      reads this
    {
      forall id | id in observations :: NoEdge !in observations[id].inQuarter
    }

    /** A strip entry is a tick in the band after a tick not in it, and first sight inside counts
        as one; likewise for the line. Loitering counts once. */
    method Observe(entityId: int, g: Geometry, position: Vec, simTick: int)
      requires Valid() && Stored()
      modifies this`observations, this`grandStripEntries, this`grandCrossings
      modifies windowStripEntries, windowCrossings, totalStripEntries, totalCrossings, quarterCount
      ensures Valid() && Stored()
      ensures observations == old(observations)[entityId := Seen(g, position, simTick)]
      ensures var entered := Seen(g, position, simTick).inBand - Last(old(observations), entityId).inBand;
        forall e: Edge :: totalStripEntries[Index(e)] == old(totalStripEntries[Index(e)]) + Bit(e, entered)
      ensures var crossed := Seen(g, position, simTick).beyond - Last(old(observations), entityId).beyond;
        forall e: Edge :: totalCrossings[Index(e)] == old(totalCrossings[Index(e)]) + Bit(e, crossed)
    {
      var now := Seen(g, position, simTick);
      var previous := if entityId in observations then observations[entityId] else UNSEEN;
      ghost var was := observations;
      CountTransitions(previous, now);
      MoveQuarters(previous.inQuarter, now.inQuarter);
      observations := observations[entityId := now];
      forall e: Edge ensures quarterCount[Index(e)] == Recount(observations, e) {
        RecountUpdate(was, entityId, now, e);
      }
    }

    /** Leave every live count; the guard is the code's, and it never decides. */
    method Release(entityId: int)
      requires Shape() && QuartersOk() && Stored() && entityId in observations
      modifies quarterCount
      ensures forall e: Edge :: quarterCount[Index(e)] == Recount(observations - {entityId}, e)
    {
      var o := observations[entityId];
      forall e: Edge ensures Recount(observations - {entityId}, e) == Recount(observations, e) - Bit(e, o.inQuarter) {
        RecountRemove(observations, entityId, e);
      }
      if o.inQuarter == {} {
        return;
      }
      var slot := 0;
      while slot < SLOTS
        invariant 0 <= slot <= SLOTS
        invariant forall e: Edge ::
          quarterCount[Index(e)] == Recount(observations, e) - if Index(e) < slot then Bit(e, o.inQuarter) else 0
      {
        assert Index(EdgeAt(slot)) == slot;
        if EdgeAt(slot) in o.inQuarter {
          GuardNeverMatters(observations, entityId, EdgeAt(slot));
          if quarterCount[slot] > 0 {
            quarterCount[slot] := quarterCount[slot] - 1;
          }
        }
        slot := slot + 1;
      }
    }

    method Forget(entityId: int)
      requires Valid() && Stored()
      modifies this`observations, quarterCount
      ensures Valid() && Stored() && observations == old(observations) - {entityId}
    {
      if entityId in observations {
        Release(entityId);
        observations := observations - {entityId};
      }
    }

    /** One more in one bucket of one row. */
    method CountInBucket(slot: nat, bucket: nat)
      requires Shape() && slot < SLOTS && bucket < HISTOGRAM_BUCKETS
      modifies windowHistogram
      ensures windowHistogram[slot, bucket] == old(windowHistogram[slot, bucket]) + 1
      ensures forall k, b | 0 <= k < SLOTS && 0 <= b < HISTOGRAM_BUCKETS && (k != slot || b != bucket) ::
        windowHistogram[k, b] == old(windowHistogram[k, b])
      ensures RowSum(windowHistogram, slot) == old(RowSum(windowHistogram, slot)) + 1
      ensures forall k: nat | k < SLOTS && k != slot :: RowSum(windowHistogram, k) == old(RowSum(windowHistogram, k))
    {
      windowHistogram[slot, bucket] := windowHistogram[slot, bucket] + 1;
    }

    /** One arrival: one in its edge's window and total, one in the bucket of where it landed. */
    method NoteArrival(entryEdge: Edge, entryPosition: real)
      requires Valid()
      modifies windowArrivals, totalArrivals, windowHistogram
      ensures Valid()
      ensures forall e: Edge ::
        totalArrivals[Index(e)] == old(totalArrivals[Index(e)]) + if e == entryEdge && e != NoEdge then 1 else 0
      ensures entryEdge != NoEdge ==>
        windowHistogram[Index(entryEdge), Bucket(entryPosition)]
          == old(windowHistogram[Index(entryEdge), Bucket(entryPosition)]) + 1
    {
      if entryEdge == NoEdge {
        return;
      }
      var slot := Index(entryEdge);
      var bucket := Bucket(entryPosition);
      CountArrival(slot, bucket);
    }

    method CountArrival(slot: nat, bucket: nat)
      requires Shape() && HistogramsOk() && slot < SLOTS && bucket < HISTOGRAM_BUCKETS
      modifies windowArrivals, totalArrivals, windowHistogram
      ensures HistogramsOk() && windowHistogram[slot, bucket] == old(windowHistogram[slot, bucket]) + 1
      ensures forall k | 0 <= k < SLOTS :: windowArrivals[k] == old(windowArrivals[k]) + if k == slot then 1 else 0
      ensures forall k | 0 <= k < SLOTS :: totalArrivals[k] == old(totalArrivals[k]) + if k == slot then 1 else 0
    {
      CountInBucket(slot, bucket);
      CountOne(slot, windowArrivals, totalArrivals);
    }

    ghost predicate Stale(id: int, simTick: int)
      reads this
    {
      id in observations && simTick - observations[id].lastSeenTick > STALE_AFTER_TICKS
    }

    /** The organisms that stopped ticking leave, but only once there are many observations. */
    method Prune(simTick: int)
      requires Valid() && Stored()
      modifies this`observations, quarterCount
      ensures Valid() && Stored()
      ensures observations == if |old(observations)| < PRUNE_FROM then old(observations)
        else map id | id in old(observations) && !old(Stale(id, simTick)) :: old(observations)[id]
    {
      if |observations| < PRUNE_FROM {
        return;
      }
      ghost var was := observations;
      var scratch := set id | id in observations && simTick - observations[id].lastSeenTick > STALE_AFTER_TICKS;
      var left := scratch;
      while left != {}
        invariant left <= scratch
        invariant observations == map id | id in was && (id !in scratch || id in left) :: was[id]
        invariant Valid() && Stored()
        decreases left
      {
        NonemptyHas(left);
        var id :| id in left;
        Release(id);
        left := left - {id};
        observations := observations - {id};
      }
    }

    /** Report one export edge's window and close it. */
    method ReportStrip(edge: Edge)
      requires Shape() && StripsOk()
      modifies this`crossingLog, windowStripEntries, windowCrossings
      ensures StripsOk()
      ensures crossingLog
        == old(crossingLog) + [StripLine(edge, old(windowStripEntries[Index(edge)]), old(windowCrossings[Index(edge)]))]
      ensures forall e: Edge ::
        windowStripEntries[Index(e)] == if e == edge then 0 else old(windowStripEntries[Index(e)])
      ensures forall e: Edge :: windowCrossings[Index(e)] == if e == edge then 0 else old(windowCrossings[Index(e)])
    {
      var slot := Index(edge);
      var line := StripLine(edge, windowStripEntries[slot], windowCrossings[slot]);
      StripReported(crossingLog, line);
      crossingLog := crossingLog + [line];
      CloseStrip(edge);
    }

    method CloseStrip(edge: Edge)
      requires Shape()
      modifies windowStripEntries, windowCrossings
      ensures forall e: Edge ::
        windowStripEntries[Index(e)] == if e == edge then 0 else old(windowStripEntries[Index(e)])
      ensures forall e: Edge :: windowCrossings[Index(e)] == if e == edge then 0 else old(windowCrossings[Index(e)])
    {
      windowStripEntries[Index(edge)] := 0;
      windowCrossings[Index(edge)] := 0;
    }

    /** Report one border edge's window and close it. */
    method ReportCrowd(edge: Edge)
      requires Shape() && ArrivalsOk() && HistogramsOk()
      modifies this`crowdingLog, windowArrivals, windowHistogram
      ensures ArrivalsOk() && HistogramsOk()
      ensures crowdingLog
        == old(crowdingLog) + [CrowdLine(edge, quarterCount[Index(edge)], old(windowArrivals[Index(edge)]))]
      ensures forall e: Edge :: windowArrivals[Index(e)] == if e == edge then 0 else old(windowArrivals[Index(e)])
    {
      var slot := Index(edge);
      var line := CrowdLine(edge, quarterCount[slot], windowArrivals[slot]);
      ghost var before, totals := windowArrivals[..], totalArrivals[..];
      CloseCrowd(edge);
      CrowdBalance(crowdingLog, line, before, windowArrivals[..], totals);
      crowdingLog := crowdingLog + [line];
    }

    method CloseCrowd(edge: Edge)
      requires Shape() && HistogramsOk()
      modifies windowArrivals, windowHistogram
      ensures HistogramsOk()
      ensures forall e: Edge :: windowArrivals[Index(e)] == if e == edge then 0 else old(windowArrivals[Index(e)])
    {
      windowArrivals[Index(edge)] := 0;
      ClearRow(Index(edge));
    }

    method ReportStrips(edges: seq<Edge>)
      requires Shape() && StripsOk() && Distinct(edges)
      modifies this`crossingLog, windowStripEntries, windowCrossings
      ensures StripsOk()
      ensures crossingLog ==
              old(crossingLog) + StripLines(edges, old(windowStripEntries[..]), old(windowCrossings[..]))
      ensures forall e | e in edges :: windowStripEntries[Index(e)] == 0 && windowCrossings[Index(e)] == 0
    {
      ghost var strips, crossings := windowStripEntries[..], windowCrossings[..];
      var i := 0;
      while i < |edges|
        invariant 0 <= i <= |edges| && StripsOk()
        invariant crossingLog == old(crossingLog) + StripLines(edges[..i], strips, crossings)
        invariant ClosedUpTo(edges, i, strips, windowStripEntries[..])
        invariant ClosedUpTo(edges, i, crossings, windowCrossings[..])
      {
        NextStripLine(old(crossingLog), edges, i, strips, crossings);
        ghost var openStrips, openCrossings := windowStripEntries[..], windowCrossings[..];
        StillOpen(edges, i, strips, openStrips);
        StillOpen(edges, i, crossings, openCrossings);
        ReportStrip(edges[i]);
        OneMoreClosed(edges, i, strips, openStrips, windowStripEntries[..]);
        OneMoreClosed(edges, i, crossings, openCrossings, windowCrossings[..]);
        i := i + 1;
      }
      assert edges[..i] == edges;
      AllClosed(edges, strips, windowStripEntries[..]);
      AllClosed(edges, crossings, windowCrossings[..]);
    }

    method ReportCrowds(edges: seq<Edge>)
      requires Shape() && ArrivalsOk() && HistogramsOk() && Distinct(edges)
      modifies this`crowdingLog, windowArrivals, windowHistogram
      ensures ArrivalsOk() && HistogramsOk()
      ensures crowdingLog == old(crowdingLog) + CrowdLines(edges, quarterCount[..], old(windowArrivals[..]))
      ensures forall e | e in edges :: windowArrivals[Index(e)] == 0
    {
      ghost var quarters, arrivals := quarterCount[..], windowArrivals[..];
      var i := 0;
      while i < |edges|
        invariant 0 <= i <= |edges| && ArrivalsOk() && HistogramsOk()
        invariant crowdingLog == old(crowdingLog) + CrowdLines(edges[..i], quarters, arrivals)
        invariant ClosedUpTo(edges, i, arrivals, windowArrivals[..])
      {
        NextCrowdLine(old(crowdingLog), edges, i, quarters, arrivals);
        ghost var open := windowArrivals[..];
        StillOpen(edges, i, arrivals, open);
        ReportCrowd(edges[i]);
        OneMoreClosed(edges, i, arrivals, open, windowArrivals[..]);
        i := i + 1;
      }
      assert edges[..i] == edges;
      AllClosed(edges, arrivals, windowArrivals[..]);
    }

    /** Every declared edge reports its window and closes it, once, in declared order, and then
        every border edge does. */
    method CloseWindow(now: real)
      requires Shape() && StripsOk() && ArrivalsOk() && HistogramsOk()
      modifies this`crossingLog, this`crowdingLog, this`windowStartSimTime
      modifies windowStripEntries, windowCrossings, windowArrivals, windowHistogram
      ensures StripsOk() && ArrivalsOk() && HistogramsOk() && windowStartSimTime == now
      ensures crossingLog ==
              old(crossingLog) + StripLines(exports, old(windowStripEntries[..]), old(windowCrossings[..]))
      ensures crowdingLog == old(crowdingLog) + CrowdLines(ALL_EDGES, quarterCount[..], old(windowArrivals[..]))
      ensures forall e | e in exports :: windowStripEntries[Index(e)] == 0 && windowCrossings[Index(e)] == 0
      ensures forall e | e in ALL_EDGES :: windowArrivals[Index(e)] == 0
    {
      RankedIsDistinct(exports);
      ReportStrips(exports);
      ReportCrowds(ALL_EDGES);
      windowStartSimTime := now;
    }

    /** A window shorter than a simulated minute stays open; otherwise it is reported and closed. */
    method Tick(now: real, simTick: int)
      requires Valid() && Stored()
      modifies this`crossingLog, this`crowdingLog, this`windowStartSimTime, this`observations, quarterCount
      modifies windowStripEntries, windowCrossings, windowArrivals, windowHistogram
      ensures Valid() && Stored()
      ensures now - old(windowStartSimTime) < REPORT_PERIOD_SIM_SECONDS ==>
        && crossingLog == old(crossingLog) && crowdingLog == old(crowdingLog)
        && windowStartSimTime == old(windowStartSimTime)
      ensures now - old(windowStartSimTime) >= REPORT_PERIOD_SIM_SECONDS ==>
        && windowStartSimTime == now
        && crossingLog == old(crossingLog) + StripLines(exports, old(windowStripEntries[..]), old(windowCrossings[..]))
        && crowdingLog == old(crowdingLog) + CrowdLines(ALL_EDGES, old(quarterCount[..]), old(windowArrivals[..]))
        && (forall e | e in exports :: windowStripEntries[Index(e)] == 0 && windowCrossings[Index(e)] == 0)
        && (forall e | e in ALL_EDGES :: windowArrivals[Index(e)] == 0)
    {
      if now - windowStartSimTime >= REPORT_PERIOD_SIM_SECONDS {
        CloseWindow(now);
      }
      Prune(simTick);
    }
  }
}
