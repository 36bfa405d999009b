/** Which edge an organism leaves by: the corner rule of OnBodyTick in
    bibites-mod/src/MultiverseClient.cs. */
module CornerRule {
  import opened ContractA
  import opened Borders
  import opened EdgeStatus
  import ExportEdges

  /** What one tick sees: the geometry, the snapshot it read once, and the organism's motion. */
  datatype Sight = Sight(geometry: Geometry, states: Snapshot, connected: bool, position: Vec, velocity: Vec)

  predicate Candidate(s: Sight, edge: Edge)
    requires WellSized(s.states)
  {
    && s.geometry.InCaptureBand(edge, s.position)
    && OutwardComponent(edge, s.velocity) > 0.0
    && s.connected && IsOpen(s.states, edge)
  }

  /** Better is more outward; on an exact tie, earlier in the order E, N, W, S. */
  predicate AtLeastAsGood(s: Sight, a: Edge, b: Edge) {
    var x, y := OutwardComponent(a, s.velocity), OutwardComponent(b, s.velocity);
    x > y || (x == y && EdgeRank(a) <= EdgeRank(b))
  }

  /** The corner rule, as the contract states it. */
  ghost predicate IsChosen(s: Sight, declared: set<Edge>, chosen: Edge)
    requires WellSized(s.states)
  {
    if chosen == NoEdge then forall e | e in declared :: !Candidate(s, e)
    else
      && chosen in declared && Candidate(s, chosen)
      && forall e | e in declared && Candidate(s, e) :: AtLeastAsGood(s, chosen, e)
  }

  /** The rule leaves exactly one answer. */
  lemma ChosenIsUnique(s: Sight, declared: set<Edge>, a: Edge, b: Edge)
    requires WellSized(s.states) && IsChosen(s, declared, a) && IsChosen(s, declared, b)
    ensures a == b
  {
    if a != NoEdge && b != NoEdge {
      assert AtLeastAsGood(s, a, b) && AtLeastAsGood(s, b, a);
      assert EdgeRank(a) == EdgeRank(b);
    }
  }

  function Members(edges: seq<Edge>): set<Edge> {
    set e | e in edges
  }

  /** The capture loop. It looks at every declared edge and never stops at the first match. */
  method ChooseEdge(s: Sight, edges: seq<Edge>) returns (chosen: Edge)
    requires WellSized(s.states) && NoEdge !in edges && ExportEdges.RankSorted(edges)
    ensures IsChosen(s, Members(edges), chosen)
  {
    chosen := NoEdge;
    var best := 0.0;
    var i := 0;
    while i < |edges|
      invariant 0 <= i <= |edges|
      invariant chosen != NoEdge ==>
        chosen in edges[..i] && Candidate(s, chosen) && best == OutwardComponent(chosen, s.velocity)
      invariant forall k | 0 <= k < i && Candidate(s, edges[k]) ::
        chosen != NoEdge && AtLeastAsGood(s, chosen, edges[k])
    {
      var edge := edges[i];
      i := i + 1;
      if !s.geometry.InCaptureBand(edge, s.position) {
        continue;
      }
      var outward := OutwardComponent(edge, s.velocity);
      if outward <= 0.0 {
        continue;
      }
      if !(IsOpen(s.states, edge) && s.connected) {
        continue;
      }
      if chosen == NoEdge || outward > best {
        chosen := edge;
        best := outward;
      }
    }
  }

  /** The answer as a function of the declared set: the first edge in canonical order that the
      rule accepts. */
  ghost function Choice(s: Sight, declared: set<Edge>): Edge
    requires WellSized(s.states)
  {
    if NoEdge in declared then NoEdge
    else if IsChosen(s, declared, E) then E
    else if IsChosen(s, declared, N) then N
    else if IsChosen(s, declared, W) then W
    else if IsChosen(s, declared, S) then S
    else NoEdge
  }

  /** The rule always has an answer, and `Choice` is it. */
  lemma ChoiceIsChosen(s: Sight, declared: set<Edge>)
    requires WellSized(s.states) && NoEdge !in declared
    ensures IsChosen(s, declared, Choice(s, declared))
  {
    BetterIsTotal(s);
    if Choice(s, declared) == NoEdge {
      assert
        && !IsChosen(s, declared, E)
        && !IsChosen(s, declared, N)
        && !IsChosen(s, declared, W)
        && !IsChosen(s, declared, S);
    }
  }

  lemma BetterIsTotal(s: Sight)
    ensures forall a: Edge, b: Edge :: AtLeastAsGood(s, a, b) || AtLeastAsGood(s, b, a)
    ensures forall a: Edge, b: Edge, c: Edge ::
      AtLeastAsGood(s, a, b) && AtLeastAsGood(s, b, c) ==> AtLeastAsGood(s, a, c)
  {
  }

  /** However many bands it stands in, an organism has at most two candidates, and never two
      opposite ones: the direction test alone excludes them, whatever the strip's width. */
  lemma AtMostTwoCandidates(s: Sight, a: Edge, b: Edge, c: Edge)
    requires WellSized(s.states) && Candidate(s, a) && Candidate(s, b) && Candidate(s, c)
    ensures b != Opposite(a)
    ensures a == b || b == c || a == c
  {
    NoBoomerang(a, s.velocity);
    NoBoomerang(b, s.velocity);
    NoBoomerang(c, s.velocity);
    assert a != NoEdge && b != NoEdge && c != NoEdge;
  }

  /** In the north-east corner, with both lanes open: east exactly when vx >= vy. */
  lemma EastTakesTheTie(s: Sight, declared: set<Edge>)
    requires WellSized(s.states) && NoEdge !in declared && {E, N} <= declared && Candidate(s, E) && Candidate(s, N)
    ensures Choice(s, declared) == if s.velocity.x >= s.velocity.y then E else N
  {
    ChoiceIsChosen(s, declared);
    var c := Choice(s, declared);
    assert c != NoEdge;
    AtMostTwoCandidates(s, E, N, c);
    assert AtLeastAsGood(s, c, E) && AtLeastAsGood(s, c, N);
  }

  /** An edge that is closed never keeps an organism from an open one. */
  lemma ClosedLanesDoNotPin(s: Sight, declared: set<Edge>, open: Edge)
    requires WellSized(s.states) && NoEdge !in declared && open in declared && Candidate(s, open)
    ensures Choice(s, declared) != NoEdge && Candidate(s, Choice(s, declared))
  {
    ChoiceIsChosen(s, declared);
  }

  /** The answer does not depend on the order somebody typed the edges in. */
  lemma ChoiceIgnoresTyping(s: Sight, a: string, b: string)
    requires WellSized(s.states)
    requires ExportEdges.Keyword(Trim(a)).None? && ExportEdges.Keyword(Trim(b)).None?
    requires multiset(ExportEdges.SplitFrom(Trim(a), [])) == multiset(ExportEdges.SplitFrom(Trim(b), []))
    ensures Choice(s, Members(ExportEdges.ExportEdgesOf(a))) == Choice(s, Members(ExportEdges.ExportEdgesOf(b)))
    ensures NoEdge !in Members(ExportEdges.ExportEdgesOf(a)) && ExportEdges.RankSorted(ExportEdges.ExportEdgesOf(a))
  {
    ExportEdges.SettingOrderDoesNotMatter(a, b);
    ExportEdges.DeclaredIsRankSorted(a);
  }
}
