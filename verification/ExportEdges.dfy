/** The declared export set: how the edge text is read and put into canonical order
    (ParseExportEdges in bibites-mod/src/MultiverseConfig.cs). */
module ExportEdges {
  import opened ContractA
  import opened Lists

  predicate IsSeparator(c: char) {
    c == ',' || c == ';' || c == ' ' || c == '\t'
  }

  /** `String.Split` on the separators, empty entries removed; `current` is the part being read. */
  function SplitFrom(text: string, current: string): seq<string> {
    if text == [] then (if current == [] then [] else [current])
    else if IsSeparator(text[0]) then (if current == [] then [] else [current]) + SplitFrom(text[1..], [])
    else SplitFrom(text[1..], current + [text[0]])
  }

  predicate IsWord(text: string, word: string) {
    Fold(text) == Fold(word)
  }

  // ---- the specification ---------------------------------------------------------------

  predicate AllEdgesNamed(parts: seq<string>) {
    forall p | p in parts :: TryParseEdge(p).Some?
  }

  /** The edges named. */
  function Named(parts: seq<string>): set<Edge> {
    set p | p in parts && TryParseEdge(p).Some? :: TryParseEdge(p).value
  }

  predicate NoneTwice(parts: seq<string>) {
    forall i, j | 0 <= i < j < |parts| :: TryParseEdge(parts[i]) != TryParseEdge(parts[j])
  }

  /** The named edges in the order E, N, W, S. */
  function Canonical(named: set<Edge>): seq<Edge> {
    (if E in named then [E] else []) + (if N in named then [N] else []) + (if W in named then [W] else [])
      + (if S in named then [S] else [])
  }

  /** A list of parts declares its edges only if every part is an edge and none comes twice. */
  function Declared(parts: seq<string>): seq<Edge> {
    if AllEdgesNamed(parts) && NoneTwice(parts) then Canonical(Named(parts)) else []
  }

  /** A whole-text keyword: `Some(edges)` is what it declares. */
  function Keyword(trimmed: string): Option<seq<Edge>> {
    if trimmed == [] then Some(ALL_EDGES)
    else if IsWord(trimmed, "none") || IsWord(trimmed, "off") then Some([])
    else if IsWord(trimmed, "all") || IsWord(trimmed, "*") then Some(ALL_EDGES)
    else None
  }

  function ExportEdgesOf(text: string): seq<Edge> {
    var trimmed := Trim(text);
    match Keyword(trimmed)
    case Some(edges) => edges
    case None => Declared(SplitFrom(trimmed, []))
  }

  // ---- the configuration object --------------------------------------------------------

  predicate RankSorted(s: seq<Edge>) {
    forall i, j | 0 <= i < j < |s| :: EdgeRank(s[i]) < EdgeRank(s[j])
  }

  class MultiverseConfig {
    var exportEdges: seq<Edge>
    var borderEdges: seq<Edge>
    var enabled: bool

    constructor ()
    {
      exportEdges, borderEdges, enabled := [], [], false;
    }

    method ParseExportEdges(text: string)
      modifies this
      ensures exportEdges == ExportEdgesOf(text)
      ensures borderEdges == ALL_EDGES
      ensures enabled <==> exportEdges != []
      ensures forall e :: Exports(e) ==> Declares(e)
    {
      exportEdges := [];
      borderEdges := ALL_EDGES;
      enabled := false;
      var trimmed := Trim(text);
      if |trimmed| == 0 {
        exportEdges := ALL_EDGES;
        enabled := true;
        return;
      }
      if IsWord(trimmed, "none") || IsWord(trimmed, "off") {
        return;
      }
      if IsWord(trimmed, "all") || IsWord(trimmed, "*") {
        exportEdges := ALL_EDGES;
        enabled := true;
        return;
      }
      var parts := SplitFrom(trimmed, []);
      exportEdges := ReadParts(parts);
      if |exportEdges| == 0 {
        return;
      }
      enabled := true;
    }

    predicate Exports(edge: Edge)
      reads this
    {
      edge != NoEdge && edge in exportEdges
    }

    predicate Declares(edge: Edge)
      reads this
    {
      edge != NoEdge && edge in borderEdges
    }
  }

  /** The first `i` parts read are these edges, each of them new. */
  ghost predicate ReadSoFar(parts: seq<string>, i: nat, edges: seq<Edge>) {
    && |edges| == i <= |parts| && Distinct(edges)
    && forall k | 0 <= k < i :: TryParseEdge(parts[k]) == Some(edges[k])
  }

  /** One part: an edge not read yet joins the list; anything else declares nothing at all. */
  method ReadPart(parts: seq<string>, i: nat, edges: seq<Edge>) returns (ok: bool, more: seq<Edge>)
    requires i < |parts| && ReadSoFar(parts, i, edges)
    ensures if ok then ReadSoFar(parts, i + 1, more) else Declared(parts) == []
  {
    var edge := TryParseEdge(parts[i]);
    if edge.None? {
      assert parts[i] in parts;
      return false, [];
    }
    if edge.value in edges {
      var k :| 0 <= k < |edges| && edges[k] == edge.value;
      assert TryParseEdge(parts[k]) == TryParseEdge(parts[i]);
      return false, [];
    }
    return true, edges + [edge.value];
  }

  /** Read the parts in turn, then sort by rank. */
  method ReadParts(parts: seq<string>) returns (edges: seq<Edge>)
    ensures edges == Declared(parts)
  {
    edges := [];
    var i := 0;
    while i < |parts|
      invariant 0 <= i <= |parts|
      invariant ReadSoFar(parts, i, edges)
    {
      var ok, more := ReadPart(parts, i, edges);
      if !ok {
        return [];
      }
      edges := more;
      i := i + 1;
    }
    ReadAll(parts, edges);
    edges := SortByRank(edges);
    CanonicalOrder(Named(parts));
    NoEdgeIsNeverNamed(parts);
    SortedIsUnique(edges, Canonical(Named(parts)));
  }

  lemma ReadAll(parts: seq<string>, edges: seq<Edge>)
    requires ReadSoFar(parts, |parts|, edges)
    ensures AllEdgesNamed(parts) && NoneTwice(parts)
    ensures forall e :: e in edges <==> e in Named(parts)
  {
    forall e | e in edges ensures e in Named(parts) {
      var k :| 0 <= k < |edges| && edges[k] == e;
      assert parts[k] in parts;
    }
    forall e | e in Named(parts) ensures e in edges {
      var p :| p in parts && TryParseEdge(p) == Some(e);
      var k :| 0 <= k < |parts| && parts[k] == p;
    }
  }

  lemma NoEdgeIsNeverNamed(parts: seq<string>)
    ensures NoEdge !in Named(parts)
  {
  }

  lemma InsertKeepsOrder(r: seq<Edge>, at: nat, e: Edge)
    requires RankSorted(r) && at <= |r| && e !in r
    requires forall k | 0 <= k < at :: EdgeRank(r[k]) <= EdgeRank(e)
    requires at < |r| ==> EdgeRank(e) < EdgeRank(r[at])
    ensures RankSorted(r[..at] + [e] + r[at..])
    ensures forall x :: x in r[..at] + [e] + r[at..] <==> x == e || x in r
  {
    forall k | 0 <= k < at ensures EdgeRank(r[k]) < EdgeRank(e) {
      assert r[k] in r;
    }
    assert r == r[..at] + r[at..];
  }

  method PlaceFor(r: seq<Edge>, e: Edge) returns (at: nat)
    ensures at <= |r|
    ensures forall k | 0 <= k < at :: EdgeRank(r[k]) <= EdgeRank(e)
    ensures at < |r| ==> EdgeRank(e) < EdgeRank(r[at])
  {
    at := 0;
    while at < |r| && EdgeRank(r[at]) <= EdgeRank(e)
      invariant 0 <= at <= |r|
      invariant forall k | 0 <= k < at :: EdgeRank(r[k]) <= EdgeRank(e)
    {
      at := at + 1;
    }
  }

  /** `List.Sort` by rank. */
  method SortByRank(s: seq<Edge>) returns (r: seq<Edge>)
    requires Distinct(s)
    ensures RankSorted(r)
    ensures forall e :: e in r <==> e in s
  {
    r := [];
    var i := 0;
    while i < |s|
      invariant 0 <= i <= |s|
      invariant RankSorted(r)
      invariant forall e :: e in r <==> e in s[..i]
    {
      var at := PlaceFor(r, s[i]);
      assert s[i] !in s[..i];
      InsertKeepsOrder(r, at, s[i]);
      assert s[..i + 1] == s[..i] + [s[i]];
      r := r[..at] + [s[i]] + r[at..];
      i := i + 1;
    }
    assert s[..i] == s;
  }

  /** A strictly rank-sorted list is determined by its members. */
  lemma {:induction false} SortedIsUnique(a: seq<Edge>, b: seq<Edge>)
    requires RankSorted(a) && RankSorted(b)
    requires forall e: Edge :: e in a <==> e in b
    ensures a == b
  {
    if a != [] {
      assert a[0] in b && b != [];
      assert b[0] in a;
      assert a[0] == b[0];
      forall e: Edge ensures e in a[1..] <==> e in b[1..] {
        TailMembers(a, e);
        TailMembers(b, e);
      }
      SortedIsUnique(a[1..], b[1..]);
      assert a == [a[0]] + a[1..] && b == [b[0]] + b[1..];
    } else {
      EmptyIff(b);
    }
  }

  lemma TailMembers(a: seq<Edge>, e: Edge)
    requires a != [] && RankSorted(a)
    ensures e in a[1..] <==> e in a && e != a[0]
  {
    if e in a && e != a[0] {
      var i :| 0 <= i < |a| && a[i] == e;
      assert a[1..][i - 1] == e;
    }
  }

  // ---- what the declared set is --------------------------------------------------------

  /** Canonical order is strict rank order, and holds exactly the named edges. */
  lemma CanonicalOrder(named: set<Edge>)
    ensures RankSorted(Canonical(named))
    ensures forall e: Edge :: e in Canonical(named) <==> e != NoEdge && e in named
  {
  }

  lemma OneMore(s: set<Edge>, e: Edge)
    ensures |s + {e}| == |s| + if e in s then 0 else 1
  {
    if e in s { assert s + {e} == s; }
  }

  /** No edge comes twice exactly when there are as many edges as parts. */
  lemma {:induction false} NoneTwiceIff(parts: seq<string>)
    requires AllEdgesNamed(parts)
    ensures |Named(parts)| <= |parts|
    ensures NoneTwice(parts) <==> |Named(parts)| == |parts|
  {
    if parts != [] {
      var n := |parts| - 1;
      var init, last := parts[..n], TryParseEdge(parts[n]).value;
      LastPart(parts, last);
      NoneTwiceIff(init);
      OneMore(Named(init), last);
    }
  }

  lemma LastPart(parts: seq<string>, last: Edge)
    requires parts != [] && TryParseEdge(parts[|parts| - 1]) == Some(last)
    ensures var init := parts[..|parts| - 1];
      && Named(parts) == Named(init) + {last}
      && (NoneTwice(parts) <==> NoneTwice(init) && last !in Named(init))
      && (AllEdgesNamed(parts) <==> AllEdgesNamed(init))
  {
    var n := |parts| - 1;
    assert parts == parts[..n] + [parts[n]];
    LastIsNew(parts[..n], last);
  }

  lemma LastIsNew(parts: seq<string>, e: Edge)
    ensures e !in Named(parts) <==> forall k | 0 <= k < |parts| :: TryParseEdge(parts[k]) != Some(e)
  {
    forall k | 0 <= k < |parts| && TryParseEdge(parts[k]) == Some(e) ensures e in Named(parts) {
      assert parts[k] in parts;
    }
  }

  /** The answer does not depend on the order the parts were typed in. */
  lemma OrderDoesNotMatter(p: seq<string>, q: seq<string>)
    requires multiset(p) == multiset(q)
    ensures Declared(p) == Declared(q)
  {
    SameMembers(p, q);
    assert |p| == |multiset(p)| && |q| == |multiset(q)|;
    if AllEdgesNamed(p) {
      NoneTwiceIff(p);
      NoneTwiceIff(q);
    }
  }

  lemma SameMembers(p: seq<string>, q: seq<string>)
    requires multiset(p) == multiset(q)
    ensures AllEdgesNamed(p) <==> AllEdgesNamed(q)
    ensures Named(p) == Named(q)
  {
    forall x ensures x in p <==> x in q {
      assert x in multiset(p) <==> x in multiset(q);
    }
  }

  /** Two settings that are no keyword and list the same parts, in any order and with any
      separators between them, declare the same edges; and every setting declares them in rank
      order, which is what the corner rule's tie-break relies on. */
  lemma SettingOrderDoesNotMatter(a: string, b: string)
    requires Keyword(Trim(a)).None? && Keyword(Trim(b)).None?
    requires multiset(SplitFrom(Trim(a), [])) == multiset(SplitFrom(Trim(b), []))
    ensures ExportEdgesOf(a) == ExportEdgesOf(b)
  {
    OrderDoesNotMatter(SplitFrom(Trim(a), []), SplitFrom(Trim(b), []));
  }

  lemma DeclaredIsRankSorted(text: string)
    ensures RankSorted(ExportEdgesOf(text)) && NoEdge !in ExportEdgesOf(text)
  {
    var trimmed := Trim(text);
    match Keyword(trimmed)
    case Some(edges) => KeywordMeans(trimmed);
    case None => PartsAreRankSorted(SplitFrom(trimmed, []));
  }

  lemma PartsAreRankSorted(parts: seq<string>)
    ensures RankSorted(Declared(parts)) && NoEdge !in Declared(parts)
  {
    CanonicalOrder(Named(parts));
  }

  lemma KeywordMeans(trimmed: string)
    requires Keyword(trimmed).Some?
    ensures Keyword(trimmed).value in [[], ALL_EDGES]
  {
  }

  /** No part is empty. */
  lemma {:induction false} PartsAreNonempty(text: string, current: string)
    ensures forall p | p in SplitFrom(text, current) :: p != ""
    decreases |text|
  {
    if text != "" {
      PartsAreNonempty(text[1..], if IsSeparator(text[0]) then [] else current + [text[0]]);
    }
  }

  /** A keyword, in whatever case, is not the name of an edge. */
  lemma KeywordIsNoEdge(part: string)
    requires part != "" && Keyword(part).Some?
    ensures TryParseEdge(part).None?
  {
    var f := Fold(part);
    assert f == "none" || f == "off" || f == "all" || f == "*" by {
      assert Fold("none") == "none" && Fold("off") == "off" && Fold("all") == "all" && Fold("*") == "*";
    }
    var n := |part| - 1;
    assert !IsWhiteSpace(f[0]) && !IsWhiteSpace(f[n]) && f[0] == Lower(part[0]) && f[n] == Lower(part[n]);
    assert Trim(part) == part;
  }

  /** A keyword is a keyword only as the whole setting. As one part of several, or with a
      separator after it, it declares nothing, and nor does anything beside it. */
  lemma KeywordMustStandAlone(text: string, part: string)
    requires Keyword(Trim(text)).None?
    requires part in SplitFrom(Trim(text), []) && Keyword(part).Some?
    ensures ExportEdgesOf(text) == []
  {
    PartsAreNonempty(Trim(text), []);
    KeywordIsNoEdge(part);
  }
}
