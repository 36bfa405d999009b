/** EDGE_STATUS: the applied state of every export edge as one published snapshot, and the
    frames and local closes that replace it (bibites-mod/src/EdgeStates.cs and the EDGE_STATUS
    part of bibites-mod/src/MultiverseClient.cs). */
module EdgeStatus {
  import opened ContractA

  datatype Reason = NoPeer | PeerLive | SimSizeMismatch | Stated(text: string)

  datatype Slot = Slot(open: bool, reason: Option<Reason>, sizeKnown: bool, size: real)

  const CLOSED := Slot(false, None, false, 0.0)

  datatype Snapshot = Snapshot(epoch: int, slots: seq<Slot>)

  /** One element of `edges`: `NotAnObject`, or an object whose fields may be missing. */
  datatype Entry =
    | NotAnObject
    | Entry(edge: Option<string>, open: Option<bool>, reason: Option<string>, peerSize: Option<real>)

  datatype StatusFrame = StatusFrame(epoch: Option<int>, edges: Option<seq<Entry>>)

  predicate WellSized(s: Snapshot) {
    |s.slots| == 5
  }

  predicate IsOpen(s: Snapshot, edge: Edge)
    requires WellSized(s)
  {
    s.slots[Index(edge)].open
  }

  // ---- the specification ---------------------------------------------------------------

  /** Which edge an element speaks about, if any. */
  function EdgeOf(e: Entry): Option<Edge> {
    if e.NotAnObject? || e.edge.None? then None else TryParseEdge(e.edge.value)
  }

  /** The slot an entry describes: open only if it says so and a stated peer size agrees. */
  function SlotOf(e: Entry, size: real): Slot
    requires e.Entry?
  {
    var open := e.open == Some(true);
    var peer := if e.peerSize.Some? then e.peerSize.value else 0.0;
    if open && e.peerSize.Some? && !SimulationSizeEqual(peer, size) then
      Slot(false, Some(SimSizeMismatch), true, peer)
    else
      var reason := if e.reason.Some? then Stated(e.reason.value) else if open then PeerLive else NoPeer;
      Slot(open, Some(reason), e.peerSize.Some?, peer)
  }

  /** The first element that speaks about `edge`. */
  function FirstEntry(entries: seq<Entry>, edge: Edge): Option<Entry> {
    if entries == [] then None
    else if EdgeOf(entries[0]) == Some(edge) then Some(entries[0])
    else FirstEntry(entries[1..], edge)
  }

  /** Full state: a declared edge takes its first entry, or is closed for want of one. */
  function SlotIn(frame: seq<Entry>, declared: seq<Edge>, size: real, edge: Edge): Slot {
    if edge !in declared then CLOSED
    else
      match FirstEntry(frame, edge)
      case None => CLOSED.(reason := Some(NoPeer))
      case Some(e) => if e.Entry? then SlotOf(e, size) else CLOSED
  }

  function SnapshotOf(epoch: int, frame: seq<Entry>, declared: seq<Edge>, size: real): (s: Snapshot)
    ensures WellSized(s)
  {
    Snapshot(epoch, [CLOSED, SlotIn(frame, declared, size, N), SlotIn(frame, declared, size, S),
                     SlotIn(frame, declared, size, E), SlotIn(frame, declared, size, W)])
  }

  function ClosedSlot(declared: seq<Edge>, edge: Edge, why: Reason): Slot {
    if edge in declared then CLOSED.(reason := Some(why)) else CLOSED
  }

  function AllClosed(declared: seq<Edge>, epoch: int, why: Reason): (s: Snapshot)
    ensures WellSized(s)
  {
    Snapshot(epoch, [ClosedSlot(declared, NoEdge, why), ClosedSlot(declared, N, why), ClosedSlot(declared, S, why),
                     ClosedSlot(declared, E, why), ClosedSlot(declared, W, why)])
  }

  function WithEdgeClosed(s: Snapshot, edge: Edge, why: Reason): (r: Snapshot)
    requires WellSized(s)
    ensures WellSized(r)
  {
    s.(slots := s.slots[Index(edge) := Slot(false, Some(why), false, 0.0)])
  }

  /** The part of the client that EDGE_STATUS and local closes change. */
  datatype Gate = Gate(lastEpoch: int, states: Snapshot)

  /** A frame that can take effect at all. */
  predicate Effective(f: StatusFrame) {
    f.epoch.Some? && f.edges.Some?
  }

  function ApplyStatus(g: Gate, f: StatusFrame, declared: seq<Edge>, size: real): Gate {
    if f.epoch.None? || f.epoch.value <= g.lastEpoch || f.edges.None? then g
    else Gate(f.epoch.value, SnapshotOf(f.epoch.value, f.edges.value, declared, size))
  }

  function CloseEdge(g: Gate, edge: Edge, declared: seq<Edge>, why: Reason): Gate
    requires WellSized(g.states)
  {
    if edge == NoEdge || edge !in declared || !IsOpen(g.states, edge) then g
    else g.(states := WithEdgeClosed(g.states, edge, why))
  }

  function Fresh(declared: seq<Edge>): Gate {
    Gate(0, AllClosed(declared, 0, NoPeer))
  }

  // ---- the objects ---------------------------------------------------------------------

  class EdgeStates {
    var epoch: int
    const open: array<bool>
    const reason: array<Option<Reason>>
    const peerSizeKnown: array<bool>
    const peerSize: array<real>

    ghost predicate Valid()
      reads this
    {
      && open.Length == reason.Length == peerSizeKnown.Length == peerSize.Length == 5
      && open != peerSizeKnown
    }

    ghost function View(): (s: Snapshot)
      requires Valid()
      reads this, open, reason, peerSizeKnown, peerSize
      ensures WellSized(s)
    {
      Snapshot(epoch, seq(5, i requires 0 <= i < 5 reads this, open, reason, peerSizeKnown, peerSize =>
        Slot(open[i], reason[i], peerSizeKnown[i], peerSize[i])))
    }

    /** Every declared edge closed for the reason given. */
    constructor (declared: seq<Edge>, epoch: int, why: Reason)
      requires NoEdge !in declared
      ensures Valid() && fresh(open) && fresh(reason) && fresh(peerSizeKnown) && fresh(peerSize)
      ensures View() == AllClosed(declared, epoch, why)
    {
      this.epoch := epoch;
      open := new bool[5](_ => false);
      reason := new Option<Reason>[5](_ => None);
      peerSizeKnown := new bool[5](_ => false);
      peerSize := new real[5](_ => 0.0);
      new;
      StateReasons(declared, why);
      EverySlot(View(), AllClosed(declared, epoch, why));
    }

    method StateReasons(declared: seq<Edge>, why: Reason)
      requires Valid() && forall e: Edge :: reason[Index(e)] == None
      modifies reason
      ensures forall e: Edge :: reason[Index(e)] == if e in declared then Some(why) else None
    {
      var i := 0;
      while i < |declared|
        invariant 0 <= i <= |declared|
        invariant forall e: Edge :: reason[Index(e)] == if e in declared[..i] then Some(why) else None
      {
        reason[Index(declared[i])] := Some(why);
        assert declared[..i + 1] == declared[..i] + [declared[i]];
        i := i + 1;
      }
      assert declared[..i] == declared;
    }

    /** Fill one edge of a snapshot that is still being built. */
    method Set(edge: Edge, isOpen: bool, why: Reason, sizeKnown: bool, size: real)
      requires Valid()
      modifies open, reason, peerSizeKnown, peerSize
      ensures Valid()
      ensures View()
        == old(View()).(slots := old(View()).slots[Index(edge) := Slot(isOpen, Some(why), sizeKnown, size)])
    {
      var slot := Index(edge);
      open[slot] := isOpen;
      reason[slot] := Some(why);
      peerSizeKnown[slot] := sizeKnown;
      peerSize[slot] := size;
    }

    /** A copy with one edge forced closed; the published snapshot itself never changes. */
    method CopyWithEdgeClosed(edge: Edge, why: Reason) returns (copy: EdgeStates)
      requires Valid()
      ensures
        && copy.Valid()
        && fresh(copy)
        && fresh(copy.open)
        && fresh(copy.reason)
        && fresh(copy.peerSizeKnown)
        && fresh(copy.peerSize)
      ensures copy.View() == WithEdgeClosed(View(), edge, why)
    {
      copy := new EdgeStates([], epoch, why);
      var slot := 0;
      while slot < 5
        invariant 0 <= slot <= 5
        invariant copy.Valid() && copy.epoch == epoch
        invariant forall k | 0 <= k < slot ::
          && copy.open[k] == open[k]
          && copy.reason[k] == reason[k]
          && copy.peerSizeKnown[k] == peerSizeKnown[k]
          && copy.peerSize[k] == peerSize[k]
        modifies copy.open, copy.reason, copy.peerSizeKnown, copy.peerSize
      {
        copy.open[slot] := open[slot];
        copy.reason[slot] := reason[slot];
        copy.peerSizeKnown[slot] := peerSizeKnown[slot];
        copy.peerSize[slot] := peerSize[slot];
        slot := slot + 1;
      }
      EverySlot(copy.View(), View());
      copy.Set(edge, false, why, false, 0.0);
    }
  }

  /** Two snapshots with the same epoch and the same five slots are the same. */
  lemma EverySlot(a: Snapshot, b: Snapshot)
    requires WellSized(a) && WellSized(b) && a.epoch == b.epoch
    requires forall k | 0 <= k < 5 :: a.slots[k] == b.slots[k]
    ensures a == b
  {
    assert a.slots == b.slots;
  }

  /** The client's gate: what DrainTransport applies EDGE_STATUS to. */
  class EdgeGate {
    var lastEdgeStatusEpoch: int
    var edgeStates: EdgeStates
    const declared: seq<Edge>

    ghost predicate Valid()
      reads this, edgeStates
    {
      NoEdge !in declared && edgeStates.Valid()
    }

    ghost function View(): Gate
      requires Valid()
      reads this, edgeStates, edgeStates.open, edgeStates.reason, edgeStates.peerSizeKnown, edgeStates.peerSize
    {
      Gate(lastEdgeStatusEpoch, edgeStates.View())
    }

    constructor (declared: seq<Edge>)
      requires NoEdge !in declared
      ensures Valid() && this.declared == declared && View() == Fresh(declared)
    {
      this.declared := declared;
      lastEdgeStatusEpoch := 0;
      edgeStates := new EdgeStates(declared, 0, NoPeer);
    }

    /** A new connection starts over: nothing applied, every edge closed. */
    method OnConnected()
      requires Valid()
      modifies this
      ensures Valid() && View() == Fresh(declared)
    {
      lastEdgeStatusEpoch := 0;
      edgeStates := new EdgeStates(declared, 0, NoPeer);
    }

    /** One element that speaks about a declared edge not seen before. */
    method FillFrom(next: EdgeStates, entry: Entry, edge: Edge, size: real)
      requires next.Valid() && entry.Entry?
      modifies next.open, next.reason, next.peerSizeKnown, next.peerSize
      ensures next.Valid()
      ensures next.View() == old(next.View()).(slots := old(next.View()).slots[Index(edge) := SlotOf(entry, size)])
    {
      var open := entry.open == Some(true);
      var reason := if entry.reason.Some? then Stated(entry.reason.value) else if open then PeerLive else NoPeer;
      var peer := if entry.peerSize.Some? then entry.peerSize.value else 0.0;
      if open && entry.peerSize.Some? && !SimulationSizeEqual(peer, size) {
        open := false;
        reason := SimSizeMismatch;
      }
      next.Set(edge, open, reason, entry.peerSize.Some?, peer);
    }

    /** One element: skipped unless it is the first about a declared edge. */
    method ReadEntry(next: EdgeStates, entries: seq<Entry>, i: nat, seen: set<Edge>, size: real)
      returns (now: set<Edge>)
      requires next.Valid() && i < |entries|
      requires forall e: Edge :: e in seen <==> e in declared && FirstEntry(entries[..i], e).Some?
      requires Filled(next.View(), entries[..i], declared, size)
      modifies next.open, next.reason, next.peerSizeKnown, next.peerSize
      ensures next.Valid()
      ensures forall e: Edge :: e in now <==> e in declared && FirstEntry(entries[..i + 1], e).Some?
      ensures Filled(next.View(), entries[..i + 1], declared, size)
    {
      var edge := EdgeOf(entries[i]);
      ghost var before := next.View();
      if edge.None? || edge.value !in declared || edge.value in seen {
        FilledSkip(before, entries, i, declared, size);
        return seen;
      }
      FillFrom(next, entries[i], edge.value, size);
      FilledNext(before, entries, i, edge.value, declared, size);
      return seen + {edge.value};
    }

    /** The whole frame into one snapshot that starts all closed. */
    method Build(epoch: int, entries: seq<Entry>, size: real) returns (next: EdgeStates)
      requires Valid()
      ensures
        && next.Valid()
        && fresh(next)
        && fresh(next.open)
        && fresh(next.reason)
        && fresh(next.peerSizeKnown)
        && fresh(next.peerSize)
      ensures next.View() == SnapshotOf(epoch, entries, declared, size)
    {
      next := new EdgeStates(declared, epoch, NoPeer);
      var seen: set<Edge> := {};
      var i := 0;
      while i < |entries|
        invariant 0 <= i <= |entries|
        invariant next.Valid() && next.epoch == epoch
        invariant forall e: Edge :: e in seen <==> e in declared && FirstEntry(entries[..i], e).Some?
        invariant Filled(next.View(), entries[..i], declared, size)
        modifies next.open, next.reason, next.peerSizeKnown, next.peerSize
      {
        seen := ReadEntry(next, entries, i, seen, size);
        i := i + 1;
      }
      assert entries[..i] == entries;
      SlotsMatch(next.View(), epoch, entries, declared, size);
    }

    method OnStatus(f: StatusFrame, size: real)
      requires Valid()
      modifies this
      ensures Valid() && View() == ApplyStatus(old(View()), f, declared, size)
    {
      if f.epoch.None? {
        return;
      }
      if f.epoch.value <= lastEdgeStatusEpoch {
        return;
      }
      if f.edges.None? {
        return;
      }
      lastEdgeStatusEpoch := f.epoch.value;
      edgeStates := Build(f.epoch.value, f.edges.value, size);
    }

    method CloseEdgeUntilNextStatus(edge: Edge, why: Reason)
      requires Valid()
      modifies this
      ensures Valid() && View() == CloseEdge(old(View()), edge, declared, why)
    {
      if edge == NoEdge || edge !in declared {
        return;
      }
      if !edgeStates.open[Index(edge)] {
        return;
      }
      edgeStates := edgeStates.CopyWithEdgeClosed(edge, why);
    }
  }

  /** The snapshot under construction is what the elements read so far describe. */
  ghost predicate Filled(s: Snapshot, entries: seq<Entry>, declared: seq<Edge>, size: real)
    requires WellSized(s)
  {
    forall e: Edge :: s.slots[Index(e)] == SlotIn(entries, declared, size, e)
  }

  lemma {:induction false} FirstEntryGrowsFor(entries: seq<Entry>, i: nat, edge: Edge)
    requires i < |entries|
    ensures FirstEntry(entries[..i + 1], edge)
         == if FirstEntry(entries[..i], edge).Some? then FirstEntry(entries[..i], edge)
            else if EdgeOf(entries[i]) == Some(edge) then Some(entries[i]) else None
  {
    if i > 0 {
      FirstEntryGrowsFor(entries[1..], i - 1, edge);
      assert entries[..i + 1][1..] == entries[1..][..i];
      assert entries[..i][1..] == entries[1..][..i - 1];
    } else {
      assert entries[..1][1..] == [];
    }
  }

  lemma FilledSkip(s: Snapshot, entries: seq<Entry>, i: nat, declared: seq<Edge>, size: real)
    requires i < |entries| && WellSized(s) && Filled(s, entries[..i], declared, size)
    requires EdgeOf(entries[i]).Some? ==>
      EdgeOf(entries[i]).value !in declared || FirstEntry(entries[..i], EdgeOf(entries[i]).value).Some?
    ensures Filled(s, entries[..i + 1], declared, size)
    ensures forall e: Edge | e in declared ::
      FirstEntry(entries[..i + 1], e).Some? <==> FirstEntry(entries[..i], e).Some?
  {
    forall e: Edge
      ensures s.slots[Index(e)] == SlotIn(entries[..i + 1], declared, size, e)
      ensures e in declared ==> (FirstEntry(entries[..i + 1], e).Some? <==> FirstEntry(entries[..i], e).Some?)
    {
      FirstEntryGrowsFor(entries, i, e);
    }
  }

  lemma FilledNext(s: Snapshot, entries: seq<Entry>, i: nat, edge: Edge, declared: seq<Edge>, size: real)
    requires i < |entries| && WellSized(s) && Filled(s, entries[..i], declared, size)
    requires EdgeOf(entries[i]) == Some(edge) && edge in declared && FirstEntry(entries[..i], edge).None?
    ensures Filled(s.(slots := s.slots[Index(edge) := SlotOf(entries[i], size)]), entries[..i + 1], declared, size)
    ensures forall e: Edge :: FirstEntry(entries[..i + 1], e).Some? <==> e == edge || FirstEntry(entries[..i], e).Some?
  {
    forall e: Edge
      ensures s.slots[Index(edge) := SlotOf(entries[i], size)][Index(e)] == SlotIn(entries[..i + 1], declared, size, e)
      ensures FirstEntry(entries[..i + 1], e).Some? <==> e == edge || FirstEntry(entries[..i], e).Some?
    {
      FirstEntryGrowsFor(entries, i, e);
    }
  }

  lemma SlotsMatch(s: Snapshot, epoch: int, entries: seq<Entry>, declared: seq<Edge>, size: real)
    requires WellSized(s) && s.epoch == epoch && NoEdge !in declared && Filled(s, entries, declared, size)
    ensures s == SnapshotOf(epoch, entries, declared, size)
  {
    assert s.slots[Index(NoEdge)] == CLOSED;
    var t := SnapshotOf(epoch, entries, declared, size);
    forall k | 0 <= k < 5 ensures s.slots[k] == t.slots[k] {
      assert k == Index(NoEdge) || k == Index(N) || k == Index(S) || k == Index(E) || k == Index(W);
    }
    EverySlot(s, t);
  }
}
