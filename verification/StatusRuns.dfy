/** What a connection's EDGE_STATUS traffic adds up to, in any order and with any repetition. */
module StatusRuns {
  import opened ContractA
  import opened EdgeStatus

  /** What can happen to the gate within one connection. */
  datatype Event = Status(frame: StatusFrame) | LocalClose(edge: Edge, why: Reason)

  function Step(g: Gate, e: Event, declared: seq<Edge>, size: real): (r: Gate)
    requires WellSized(g.states)
    ensures WellSized(r.states)
  {
    match e
    case Status(f) => ApplyStatus(g, f, declared, size)
    case LocalClose(edge, why) => CloseEdge(g, edge, declared, why)
  }

  /** The gate after a sequence of events on a fresh connection. */
  function Play(events: seq<Event>, declared: seq<Edge>, size: real): (r: Gate)
    ensures WellSized(r.states)
  {
    if events == [] then Fresh(declared)
    else Step(Play(events[..|events| - 1], declared, size), events[|events| - 1], declared, size)
  }

  // ---- which frame decides -------------------------------------------------------------

  predicate Counts(e: Event) {
    e.Status? && Effective(e.frame) && e.frame.epoch.value > 0
  }

  /** Position `b` holds the deciding frame: its epoch is the highest, and it was first. */
  ghost predicate Decides(events: seq<Event>, b: nat) {
    && b < |events| && Counts(events[b])
    && (forall k | 0 <= k < |events| && Counts(events[k]) :: events[k].frame.epoch.value <= events[b].frame.epoch.value)
    && (forall k | 0 <= k < b && Counts(events[k]) :: events[k].frame.epoch.value < events[b].frame.epoch.value)
  }

  function Snap(f: StatusFrame, declared: seq<Edge>, size: real): (s: Snapshot)
    requires Effective(f)
    ensures WellSized(s)
  {
    SnapshotOf(f.epoch.value, f.edges.value, declared, size)
  }

  ghost predicate ClosedSince(events: seq<Event>, b: nat, edge: Edge) {
    exists k :: b < k < |events| && events[k].LocalClose? && events[k].edge == edge
  }

  /** The gate while the frame at `b` decides: its epoch, its snapshot, less the edges closed
      locally since. */
  ghost predicate DecidedBy(g: Gate, events: seq<Event>, b: nat, declared: seq<Edge>, size: real)
    requires b < |events| && Counts(events[b]) && WellSized(g.states)
  {
    var f := events[b].frame;
    && g.lastEpoch == f.epoch.value && g.states.epoch == f.epoch.value
    && (forall edge: Edge :: edge != NoEdge ==>
          (IsOpen(g.states, edge) <==> IsOpen(Snap(f, declared, size), edge) && !ClosedSince(events, b, edge)))
    && ((forall k | b < k < |events| :: events[k].Status?) ==> g.states == Snap(f, declared, size))
  }

  lemma DecidesExtends(events: seq<Event>, e: Event, b: nat)
    requires Decides(events, b)
    ensures !(Counts(e) && e.frame.epoch.value > events[b].frame.epoch.value) ==> Decides(events + [e], b)
    ensures Counts(e) && e.frame.epoch.value > events[b].frame.epoch.value ==> Decides(events + [e], |events|)
  {
  }

  lemma CloseDecides(g: Gate, events: seq<Event>, b: nat, e: Event, declared: seq<Edge>, size: real)
    requires b < |events| && Counts(events[b]) && WellSized(g.states) && e.LocalClose?
    requires DecidedBy(g, events, b, declared, size)
    ensures DecidedBy(Step(g, e, declared, size), events + [e], b, declared, size)
  {
    var g', all := Step(g, e, declared, size), events + [e];
    assert all[|events|] == e;
    forall edge: Edge | edge != NoEdge
      ensures IsOpen(g'.states, edge)
        <==> IsOpen(Snap(events[b].frame, declared, size), edge) && !ClosedSince(all, b, edge)
    {
      if ClosedSince(events, b, edge) {
        var k :| b < k < |events| && events[k].LocalClose? && events[k].edge == edge;
        assert all[k] == events[k];
      }
      if edge == e.edge {
        assert ClosedSince(all, b, edge);
      } else if ClosedSince(all, b, edge) {
        var k :| b < k < |all| && all[k].LocalClose? && all[k].edge == edge;
        assert events[k] == all[k];
      }
    }
  }

  lemma StaleDecides(g: Gate, events: seq<Event>, b: nat, e: Event, declared: seq<Edge>, size: real)
    requires b < |events| && Counts(events[b]) && WellSized(g.states) && e.Status?
    requires DecidedBy(g, events, b, declared, size)
    ensures DecidedBy(g, events + [e], b, declared, size)
  {
    var all := events + [e];
    forall edge: Edge ensures ClosedSince(all, b, edge) <==> ClosedSince(events, b, edge) {
      if ClosedSince(events, b, edge) {
        var k :| b < k < |events| && events[k].LocalClose? && events[k].edge == edge;
        assert all[k] == events[k];
      }
      if ClosedSince(all, b, edge) {
        var k :| b < k < |all| && all[k].LocalClose? && all[k].edge == edge;
        assert events[k] == all[k];
      }
    }
    if forall k | b < k < |all| :: all[k].Status? {
      forall k | b < k < |events| ensures events[k].Status? { assert all[k] == events[k]; }
    }
  }

  lemma NewDecides(events: seq<Event>, e: Event, declared: seq<Edge>, size: real)
    requires Counts(e)
    ensures var f := e.frame;
      DecidedBy(Gate(f.epoch.value, Snap(f, declared, size)), events + [e], |events|, declared, size)
  {
  }

  /** Over any traffic of one connection the frame with the highest epoch decides, wherever in
      the traffic it came: an edge is open exactly when that frame opens it and no refusal has
      closed it locally since; with no such frame every edge is closed. */
  lemma {:induction false} HighestEpochDecides(events: seq<Event>, declared: seq<Edge>, size: real)
    returns (b: Option<nat>)
    ensures b.Some? ==>
      Decides(events, b.value) && DecidedBy(Play(events, declared, size), events, b.value, declared, size)
    ensures b.None? ==>
      (forall k | 0 <= k < |events| :: !Counts(events[k])) && Play(events, declared, size) == Fresh(declared)
  {
    if events == [] {
      b := None;
    } else {
      var n := |events| - 1;
      var init, e := events[..n], events[n];
      assert events == init + [e];
      var c := HighestEpochDecides(init, declared, size);
      var g := Play(init, declared, size);
      if c.None? {
        if Counts(e) {
          b := Some(n);
          forall k | 0 <= k < n ensures !Counts(events[k]) { assert init[k] == events[k]; }
          NewDecides(init, e, declared, size);
        } else {
          b := None;
          forall k | 0 <= k < |events| ensures !Counts(events[k]) { if k < n { assert init[k] == events[k]; } }
        }
      } else {
        DecidesExtends(init, e, c.value);
        if e.LocalClose? {
          b := c;
          CloseDecides(g, init, c.value, e, declared, size);
        } else if Counts(e) && e.frame.epoch.value > g.lastEpoch {
          b := Some(n);
          NewDecides(init, e, declared, size);
        } else {
          b := c;
          StaleDecides(g, init, c.value, e, declared, size);
        }
      }
    }
  }

  // ---- confluence ----------------------------------------------------------------------

  ghost predicate OnlyFrames(events: seq<Event>) {
    forall k | 0 <= k < |events| :: events[k].Status?
  }

  /** A frame of the traffic whose epoch no other frame of it exceeds. */
  ghost predicate Highest(events: seq<Event>, f: StatusFrame) {
    && Status(f) in events && Counts(Status(f))
    && forall k | 0 <= k < |events| && Counts(events[k]) :: events[k].frame.epoch.value <= f.epoch.value
  }

  ghost predicate SameEvents(a: seq<Event>, b: seq<Event>) {
    forall e :: e in a <==> e in b
  }

  /** The frames that share the highest epoch agree on what it says. */
  ghost predicate Consistent(events: seq<Event>, declared: seq<Edge>, size: real) {
    forall f, g | Highest(events, f) && Highest(events, g) :: Snap(f, declared, size) == Snap(g, declared, size)
  }

  lemma HighestWins(events: seq<Event>, declared: seq<Edge>, size: real, f: StatusFrame)
    requires OnlyFrames(events) && Consistent(events, declared, size) && Highest(events, f)
    ensures Play(events, declared, size) == Gate(f.epoch.value, Snap(f, declared, size))
  {
    var b := HighestEpochDecides(events, declared, size);
    if b.Some? {
      var g := events[b.value].frame;
      assert Status(g) in events;
      var k :| 0 <= k < |events| && events[k] == Status(f);
      assert Highest(events, g);
    }
  }

  /** EDGE_STATUS is confluent: any two traffics with the same frames, in any order and with any
      repetition, end in the same gate, the snapshot of the highest epoch. */
  lemma Confluent(a: seq<Event>, b: seq<Event>, declared: seq<Edge>, size: real)
    requires OnlyFrames(a) && SameEvents(a, b) && Consistent(a, declared, size)
    ensures Play(a, declared, size) == Play(b, declared, size)
  {
    forall k | 0 <= k < |b| ensures b[k].Status? {
      assert b[k] in a;
    }
    SameHighest(a, b);
    SameHighest(b, a);
    var x := HighestEpochDecides(a, declared, size);
    var y := HighestEpochDecides(b, declared, size);
    if x.Some? {
      var f := a[x.value].frame;
      assert Status(f) in a && Highest(a, f);
      HighestWins(a, declared, size, f);
      HighestWins(b, declared, size, f);
    } else {
      NothingCounts(a, b);
    }
  }

  lemma NothingCounts(a: seq<Event>, b: seq<Event>)
    requires SameEvents(a, b) && forall k | 0 <= k < |a| :: !Counts(a[k])
    ensures forall k | 0 <= k < |b| :: !Counts(b[k])
  {
    forall k | 0 <= k < |b| ensures !Counts(b[k]) {
      assert b[k] in a;
      var j :| 0 <= j < |a| && a[j] == b[k];
    }
  }

  lemma SameHighest(a: seq<Event>, b: seq<Event>)
    requires SameEvents(a, b)
    ensures forall f | Highest(a, f) :: Highest(b, f)
  {
    forall f | Highest(a, f) ensures Highest(b, f) {
      forall k | 0 <= k < |b| && Counts(b[k]) ensures b[k].frame.epoch.value <= f.epoch.value {
        assert b[k] in a;
        var j :| 0 <= j < |a| && a[j] == b[k];
      }
    }
  }

  /** The agreement of equal epochs is needed: for given frames, every order and repetition ends
      in one gate exactly when the frames of the highest epoch agree. */
  lemma ConfluentIff(a: seq<Event>, declared: seq<Edge>, size: real)
    requires OnlyFrames(a)
    ensures Consistent(a, declared, size) <==>
      forall b | SameEvents(a, b) :: Play(b, declared, size) == Play(a, declared, size)
  {
    if Consistent(a, declared, size) {
      forall b | SameEvents(a, b) ensures Play(b, declared, size) == Play(a, declared, size) {
        Confluent(a, b, declared, size);
      }
    }
    if forall b | SameEvents(a, b) :: Play(b, declared, size) == Play(a, declared, size) {
      forall f, g | Highest(a, f) && Highest(a, g) ensures Snap(f, declared, size) == Snap(g, declared, size) {
        FirstWins(a, f, declared, size);
        FirstWins(a, g, declared, size);
        assert SameEvents(a, [Status(f)] + a) && SameEvents(a, [Status(g)] + a);
      }
    }
  }

  lemma FirstWins(a: seq<Event>, f: StatusFrame, declared: seq<Edge>, size: real)
    requires OnlyFrames(a) && Highest(a, f)
    ensures Play([Status(f)] + a, declared, size) == Gate(f.epoch.value, Snap(f, declared, size))
  {
    var all := [Status(f)] + a;
    var b := HighestEpochDecides(all, declared, size);
    assert all[0] == Status(f);
    forall k | 0 <= k < |all| && Counts(all[k]) ensures all[k].frame.epoch.value <= f.epoch.value {
      if k > 0 { assert all[k] == a[k - 1]; }
    }
    forall k | 0 <= k < |all| ensures all[k].Status? {
      if k > 0 { assert all[k] == a[k - 1]; }
    }
    assert b.Some? && b.value == 0;
  }

  // ---- what an open edge means ---------------------------------------------------------

  /** Element `i` is the first to speak about `edge`. */
  ghost predicate SpeaksFirst(entries: seq<Entry>, edge: Edge, i: nat) {
    i < |entries| && EdgeOf(entries[i]) == Some(edge) && forall j | 0 <= j < i :: EdgeOf(entries[j]) != Some(edge)
  }

  lemma {:induction false} FirstEntryIs(entries: seq<Entry>, edge: Edge)
    ensures FirstEntry(entries, edge).Some? ==>
      exists i: nat :: SpeaksFirst(entries, edge, i) && FirstEntry(entries, edge) == Some(entries[i])
    ensures FirstEntry(entries, edge).None? ==> forall i | 0 <= i < |entries| :: EdgeOf(entries[i]) != Some(edge)
  {
    if entries != [] {
      if EdgeOf(entries[0]) == Some(edge) {
        assert SpeaksFirst(entries, edge, 0);
      } else {
        var rest := entries[1..];
        FirstEntryIs(rest, edge);
        if FirstEntry(rest, edge).Some? {
          var i: nat :| SpeaksFirst(rest, edge, i) && FirstEntry(rest, edge) == Some(rest[i]);
          forall j | 0 <= j < i + 1 ensures EdgeOf(entries[j]) != Some(edge) {
            if j > 0 { assert entries[j] == rest[j - 1]; }
          }
          assert SpeaksFirst(entries, edge, i + 1);
        } else {
          forall i | 0 <= i < |entries| ensures EdgeOf(entries[i]) != Some(edge) {
            if i > 0 { assert entries[i] == rest[i - 1]; }
          }
        }
      }
    }
  }

  ghost predicate OpensFirst(entries: seq<Entry>, edge: Edge, i: nat, size: real) {
    && SpeaksFirst(entries, edge, i)
    && entries[i].open == Some(true)
    && (entries[i].peerSize.Some? ==> SimulationSizeEqual(entries[i].peerSize.value, size))
  }

  /** In the snapshot of a frame an edge is open exactly when it is declared and the first
      element that speaks about it is open with no peer-size mismatch. */
  lemma OpenMeans(epoch: int, entries: seq<Entry>, declared: seq<Edge>, size: real, edge: Edge)
    requires edge != NoEdge
    ensures IsOpen(SnapshotOf(epoch, entries, declared, size), edge) <==>
      edge in declared && exists i: nat :: OpensFirst(entries, edge, i, size)
  {
    FirstEntryIs(entries, edge);
    match FirstEntry(entries, edge)
    case Some(e) =>
      var k: nat :| SpeaksFirst(entries, edge, k) && e == entries[k];
      forall j: nat | SpeaksFirst(entries, edge, j) ensures j == k {
        assert !(j < k) && !(k < j);
      }
      assert IsOpen(SnapshotOf(epoch, entries, declared, size), edge)
        <==> edge in declared && OpensFirst(entries, edge, k, size);
    case None =>
      forall i: nat ensures !SpeaksFirst(entries, edge, i) {}
  }

  /** Everything the snapshot of a frame says about an edge: what the first element about it says,
      a stated peer size that disagrees overriding both "open" and the stated reason. */
  lemma SlotMeans(epoch: int, entries: seq<Entry>, declared: seq<Edge>, size: real, edge: Edge, i: nat)
    requires edge != NoEdge
    ensures var slot := SnapshotOf(epoch, entries, declared, size).slots[Index(edge)];
      && (edge !in declared ==> slot == Slot(false, None, false, 0.0))
      && (edge in declared && (forall k | 0 <= k < |entries| :: EdgeOf(entries[k]) != Some(edge)) ==>
            slot == Slot(false, Some(NoPeer), false, 0.0))
      && (edge in declared && SpeaksFirst(entries, edge, i) ==>
            var e := entries[i];
            var mismatch := e.open == Some(true) && e.peerSize.Some? && !SimulationSizeEqual(e.peerSize.value, size);
            && slot.open == (e.open == Some(true) && !mismatch)
            && slot.sizeKnown == e.peerSize.Some?
            && slot.size == (if e.peerSize.Some? then e.peerSize.value else 0.0)
            && (mismatch ==> slot.reason == Some(SimSizeMismatch))
            && (!mismatch && e.reason.Some? ==> slot.reason == Some(Stated(e.reason.value)))
            && (!mismatch && e.reason.None? ==> slot.reason == Some(if slot.open then PeerLive else NoPeer)))
  {
    FirstEntryIs(entries, edge);
    if FirstEntry(entries, edge).Some? {
      var k: nat :| SpeaksFirst(entries, edge, k) && FirstEntry(entries, edge) == Some(entries[k]);
      if SpeaksFirst(entries, edge, i) { assert !(i < k) && !(k < i); }
    }
  }

  /** Two half-extents agree when the larger exceeds the smaller by at most a millionth of it. */
  lemma SizesAgreeIff(a: real, b: real)
    requires 1.0 <= a <= b
    ensures SimulationSizeEqual(a, b) <==> (b - a) * 1000000.0 <= b
    ensures SimulationSizeEqual(b, a) <==> SimulationSizeEqual(a, b)
  {
  }

  /** A connection starts with every declared edge closed for want of a peer. */
  lemma FreshMeans(declared: seq<Edge>, edge: Edge)
    ensures Fresh(declared).lastEpoch == 0 && Fresh(declared).states.epoch == 0
    ensures Fresh(declared).states.slots[Index(edge)]
         == Slot(false, if edge in declared then Some(NoPeer) else None, false, 0.0)
  {
  }

  /** A local close changes one slot, and only if its edge is declared and open. */
  lemma CloseMeans(g: Gate, edge: Edge, declared: seq<Edge>, why: Reason, other: Edge)
    requires WellSized(g.states) && edge != NoEdge
    ensures var r := CloseEdge(g, edge, declared, why);
      && WellSized(r.states) && r.lastEpoch == g.lastEpoch && r.states.epoch == g.states.epoch
      && r.states.slots[Index(other)]
         == if other == edge && edge in declared && g.states.slots[Index(edge)].open
            then Slot(false, Some(why), false, 0.0) else g.states.slots[Index(other)]
  {
  }
}
