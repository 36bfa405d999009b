/** What the text rules mean, character by character: trimming, edge letters, the parts of an
    edge setting and of an exclusion list (bibites-mod/src/ContractA.cs,
    bibites-mod/src/MultiverseConfig.cs, bibites-mod/src/MigrationExclusion.cs). */
module TextLaws {
  import opened ContractA
  import opened Lists
  import Exclusion
  import ExportEdges

  // ---- an edge letter ------------------------------------------------------------------

  ghost predicate Blank(s: string) {
    forall c | c in s :: IsWhiteSpace(c)
  }

  lemma {:induction false} TrimStartMeans(s: string) returns (a: string)
    ensures Blank(a) && s == a + TrimStart(s)
    ensures TrimStart(s) != [] ==> !IsWhiteSpace(TrimStart(s)[0])
  {
    a := [];
    if s != [] && IsWhiteSpace(s[0]) {
      var rest := TrimStartMeans(s[1..]);
      a := [s[0]] + rest;
      assert s == [s[0]] + s[1..];
    }
  }

  lemma {:induction false} TrimEndMeans(s: string) returns (b: string)
    ensures Blank(b) && s == TrimEnd(s) + b
    ensures TrimEnd(s) != [] ==> !IsWhiteSpace(TrimEnd(s)[|TrimEnd(s)| - 1])
  {
    b := [];
    if s != [] && IsWhiteSpace(s[|s| - 1]) {
      var rest := TrimEndMeans(s[..|s| - 1]);
      b := rest + [s[|s| - 1]];
      assert s == s[..|s| - 1] + [s[|s| - 1]];
    }
  }

  /** Blank characters around `t`, and none at its ends. */
  ghost predicate TrimsTo(s: string, t: string) {
    (t != [] ==> !IsWhiteSpace(t[0]) && !IsWhiteSpace(t[|t| - 1]))
    && exists a, b :: Blank(a) && Blank(b) && s == a + t + b
  }

  lemma TrimMeans(s: string)
    ensures TrimsTo(s, Trim(s))
  {
    var a := TrimStartMeans(s);
    var b := TrimEndMeans(TrimStart(s));
    Reassociate(a, Trim(s), b);
    assert s == a + Trim(s) + b;
    if Trim(s) != [] { assert TrimStart(s)[0] == Trim(s)[0]; }
  }

  lemma {:induction false} TrimStartSkips(a: string, rest: string)
    requires Blank(a)
    ensures TrimStart(a + rest) == TrimStart(rest)
  {
    if a == [] {
      assert a + rest == rest;
    } else {
      assert (a + rest)[1..] == a[1..] + rest;
      TrimStartSkips(a[1..], rest);
    }
  }

  lemma {:induction false} TrimEndSkips(front: string, b: string)
    requires Blank(b)
    ensures TrimEnd(front + b) == TrimEnd(front)
  {
    if b == [] {
      assert front + b == front;
    } else {
      assert (front + b)[..|front + b| - 1] == front + b[..|b| - 1];
      TrimEndSkips(front, b[..|b| - 1]);
    }
  }

  /** What a text trims to is unique. */
  lemma TrimIsUnique(s: string, t: string)
    requires TrimsTo(s, t)
    ensures Trim(s) == t
  {
    var a, b :| Blank(a) && Blank(b) && s == a + t + b;
    assert s == a + (t + b);
    TrimStartSkips(a, t + b);
    if t == [] {
      assert t + b == b + [];
      TrimStartSkips(b, []);
    } else {
      assert (t + b)[0] == t[0];
      TrimEndSkips(t, b);
    }
  }

  function Letters(edge: Edge): set<string> {
    match edge
    case N => {"N", "n"}
    case S => {"S", "s"}
    case E => {"E", "e"}
    case W => {"W", "w"}
    case NoEdge => {}
  }

  /** A text names an edge exactly when it is that edge's letter, in either case, with nothing but
      blanks around it. */
  lemma EdgeLetters(text: string, edge: Edge)
    ensures TryParseEdge(text) == Some(edge) <==> exists t :: t in Letters(edge) && TrimsTo(text, t)
  {
    var t := Trim(text);
    TrimMeans(text);
    if t in Letters(edge) {
      assert TryParseEdge(text) == Some(edge);
    }
    if TryParseEdge(text) == Some(edge) {
      assert t == [t[0]];
      assert t in Letters(edge);
    }
    forall u | u in Letters(edge) && TrimsTo(text, u) ensures t in Letters(edge) {
      TrimIsUnique(text, u);
    }
  }

  // ---- the parts of an edge setting ----------------------------------------------------

  predicate Separates(c: char) {
    c == ',' || c == ';' || c == ' ' || c == '\t'
  }

  /** `text[i..j]` is a part: no separator in it, and nothing next to it that could join it. */
  ghost predicate IsPart(text: string, i: int, j: int) {
    && 0 <= i < j <= |text|
    && (forall k | i <= k < j :: !Separates(text[k]))
    && (i == 0 || Separates(text[i - 1]))
    && (j == |text| || Separates(text[j]))
  }

  ghost predicate PartAt(text: string, part: string, i: int) {
    IsPart(text, i, i + |part|) && part == text[i..i + |part|]
  }

  /** The parts, each with its place, from left to right. */
  ghost predicate PartsAt(text: string, parts: seq<string>, at: seq<int>) {
    && |at| == |parts|
    && (forall k | 0 <= k < |parts| :: PartAt(text, parts[k], at[k]))
    && (forall k, l | 0 <= k < l < |at| :: at[k] < at[l])
  }

  /** No part begins at `k` or behind it but at the places given. */
  ghost predicate AllFrom(text: string, k: int, at: seq<int>) {
    && (forall m | 0 <= m < |at| :: at[m] >= k)
    && (forall a, b | IsPart(text, a, b) && a >= k :: a in at)
  }

  lemma PartBefore(text: string, part: string, k: int, parts: seq<string>, rest: seq<int>)
    requires PartAt(text, part, k) && PartsAt(text, parts, rest) && forall m | 0 <= m < |rest| :: rest[m] > k
    ensures PartsAt(text, [part] + parts, [k] + rest)
  {
  }

  lemma StartsAt(text: string, k: int, i: int, a: int, b: int)
    requires 0 <= k <= i < |text| && Separates(text[i]) && forall m | k <= m < i :: !Separates(text[m])
    requires IsPart(text, a, b) && k <= a
    ensures (a == k && k < i) || a > i
  {
  }

  /** One part ends at the separator `i`; the next cannot begin before `i + 1`. */
  lemma PartEnds(text: string, k: nat, i: nat, parts: seq<string>, rest: seq<int>) returns (at: seq<int>)
    requires k <= i < |text| && (k == 0 || Separates(text[k - 1])) && Separates(text[i])
    requires forall m | k <= m < i :: !Separates(text[m])
    requires PartsAt(text, parts, rest) && AllFrom(text, i + 1, rest)
    ensures PartsAt(text, (if k == i then [] else [text[k..i]]) + parts, at) && AllFrom(text, k, at)
  {
    if k == i {
      at := rest;
      assert [] + parts == parts;
    } else {
      at := [k] + rest;
      PartBefore(text, text[k..i], k, parts, rest);
    }
    forall a, b | IsPart(text, a, b) && a >= k ensures a in at {
      StartsAt(text, k, i, a, b);
      if a > i { assert a in rest; }
    }
  }

  lemma LastPart(text: string, k: nat) returns (at: seq<int>)
    requires k <= |text| && (k == 0 || Separates(text[k - 1]))
    requires forall m | k <= m < |text| :: !Separates(text[m])
    ensures PartsAt(text, if text[k..] == [] then [] else [text[k..]], at) && AllFrom(text, k, at)
  {
    at := if k == |text| then [] else [k];
    if k < |text| { assert PartAt(text, text[k..], k); }
    forall a, b | IsPart(text, a, b) && a >= k ensures a in at {}
  }

  /** Reading on from `i`, where the part being read began at `k`. */
  lemma {:induction false} SplitsAt(text: string, k: nat, i: nat) returns (at: seq<int>)
    requires k <= i <= |text| && (k == 0 || Separates(text[k - 1]))
    requires forall m | k <= m < i :: !Separates(text[m])
    ensures PartsAt(text, ExportEdges.SplitFrom(text[i..], text[k..i]), at) && AllFrom(text, k, at)
    decreases |text| - i
  {
    if i == |text| {
      assert text[k..i] == text[k..];
      at := LastPart(text, k);
    } else {
      assert text[i..][1..] == text[i + 1..];
      if Separates(text[i]) {
        var rest := SplitsAt(text, i + 1, i + 1);
        assert text[i + 1..i + 1] == [];
        at := PartEnds(text, k, i, ExportEdges.SplitFrom(text[i + 1..], []), rest);
        assert [] + ExportEdges.SplitFrom(text[i + 1..], []) == ExportEdges.SplitFrom(text[i + 1..], []);
      } else {
        assert text[k..i + 1] == text[k..i] + [text[i]];
        at := SplitsAt(text, k, i + 1);
      }
    }
  }

  /** Splitting yields every maximal run of characters that are not separators, once each and from
      left to right. */
  lemma SplitMeans(text: string) returns (at: seq<int>)
    ensures PartsAt(text, ExportEdges.SplitFrom(text, []), at)
    ensures forall a, b | IsPart(text, a, b) :: a in at
  {
    assert text[0..] == text && text[0..0] == [];
    at := SplitsAt(text, 0, 0);
  }

  // ---- an edge setting -----------------------------------------------------------------

  ghost predicate NamesEdge(part: string, edge: Edge) {
    exists t :: t in Letters(edge) && TrimsTo(part, t)
  }

  ghost predicate IsEdge(part: string) {
    exists edge :: NamesEdge(part, edge)
  }

  /** Every part is an edge, and no edge comes twice. */
  ghost predicate Readable(t: string) {
    && (forall i, j | IsPart(t, i, j) :: IsEdge(t[i..j]))
    && (forall i, j, k, l, e | IsPart(t, i, j) && IsPart(t, k, l) && i < k ::
          !(NamesEdge(t[i..j], e) && NamesEdge(t[k..l], e)))
  }

  ghost predicate Mentions(t: string, edge: Edge) {
    exists i, j :: IsPart(t, i, j) && NamesEdge(t[i..j], edge)
  }

  /** A part of the text and its place in the list of parts. */
  lemma PlaceOf(t: string, parts: seq<string>, at: seq<int>, i: int, j: int) returns (k: nat)
    requires PartsAt(t, parts, at) && IsPart(t, i, j) && i in at
    ensures k < |parts| && at[k] == i && parts[k] == t[i..j]
  {
    k :| k < |at| && at[k] == i;
    assert PartAt(t, parts[k], i);
    var l := i + |parts[k]|;
    assert !(l < j) && !(j < l);
  }

  lemma EdgeIs(part: string)
    ensures IsEdge(part) <==> TryParseEdge(part).Some?
    ensures forall e :: NamesEdge(part, e) <==> TryParseEdge(part) == Some(e)
  {
    forall e ensures NamesEdge(part, e) <==> TryParseEdge(part) == Some(e) { EdgeLetters(part, e); }
    if TryParseEdge(part).Some? { assert NamesEdge(part, TryParseEdge(part).value); }
  }

  lemma ReadableIsNamed(t: string, parts: seq<string>, at: seq<int>)
    requires PartsAt(t, parts, at) && Readable(t)
    ensures ExportEdges.AllEdgesNamed(parts) && ExportEdges.NoneTwice(parts)
  {
    forall k | 0 <= k < |parts| ensures TryParseEdge(parts[k]).Some? {
      assert PartAt(t, parts[k], at[k]);
      EdgeIs(parts[k]);
    }
    forall k, l | 0 <= k < l < |parts| ensures TryParseEdge(parts[k]) != TryParseEdge(parts[l]) {
      assert PartAt(t, parts[k], at[k]) && PartAt(t, parts[l], at[l]);
      EdgeIs(parts[k]);
      EdgeIs(parts[l]);
    }
  }

  lemma NamedIsReadable(t: string, parts: seq<string>, at: seq<int>)
    requires PartsAt(t, parts, at) && forall a, b | IsPart(t, a, b) :: a in at
    requires ExportEdges.AllEdgesNamed(parts) && ExportEdges.NoneTwice(parts)
    ensures Readable(t)
  {
    forall i, j | IsPart(t, i, j) ensures IsEdge(t[i..j]) {
      var k := PlaceOf(t, parts, at, i, j);
      EdgeIs(parts[k]);
    }
    forall i, j, k, l, e | IsPart(t, i, j) && IsPart(t, k, l) && i < k
      ensures !(NamesEdge(t[i..j], e) && NamesEdge(t[k..l], e))
    {
      var x := PlaceOf(t, parts, at, i, j);
      var y := PlaceOf(t, parts, at, k, l);
      EdgeIs(parts[x]);
      EdgeIs(parts[y]);
    }
  }

  lemma ReadableIff(t: string, parts: seq<string>, at: seq<int>)
    requires PartsAt(t, parts, at) && forall a, b | IsPart(t, a, b) :: a in at
    ensures Readable(t) <==> ExportEdges.AllEdgesNamed(parts) && ExportEdges.NoneTwice(parts)
  {
    if Readable(t) { ReadableIsNamed(t, parts, at); }
    if ExportEdges.AllEdgesNamed(parts) && ExportEdges.NoneTwice(parts) { NamedIsReadable(t, parts, at); }
  }

  lemma MentionedIff(t: string, parts: seq<string>, at: seq<int>, edge: Edge)
    requires PartsAt(t, parts, at) && forall a, b | IsPart(t, a, b) :: a in at
    ensures Mentions(t, edge) <==> edge in ExportEdges.Named(parts)
  {
    if Mentions(t, edge) {
      var i, j :| IsPart(t, i, j) && NamesEdge(t[i..j], edge);
      var k := PlaceOf(t, parts, at, i, j);
      EdgeIs(parts[k]);
      assert parts[k] in parts;
    }
    if edge in ExportEdges.Named(parts) {
      var p :| p in parts && TryParseEdge(p) == Some(edge);
      var k :| 0 <= k < |parts| && parts[k] == p;
      EdgeIs(p);
      assert PartAt(t, parts[k], at[k]);
    }
  }

  predicate AllWord(t: string) {
    t == "" || Fold(t) == "all" || Fold(t) == "*"
  }

  predicate NoneWord(t: string) {
    Fold(t) == "none" || Fold(t) == "off"
  }

  lemma KeywordsMean(t: string)
    ensures ExportEdges.Keyword(t) == if AllWord(t) then Some([E, N, W, S]) else if NoneWord(t) then Some([]) else None
  {
    assert Fold("none") == "none" && Fold("off") == "off" && Fold("all") == "all" && Fold("*") == "*";
  }

  /** What a setting declares. Blank around it, a blank one and the words all and `*` declare
      every edge, none and off declare nothing, in any case. Anything else declares, in the order
      E, N, W, S, the edges its parts name, provided every part names one and none comes twice;
      otherwise nothing. */
  lemma SettingMeans(text: string, t: string)
    requires TrimsTo(text, t)
    ensures AllWord(t) ==> ExportEdges.ExportEdgesOf(text) == [E, N, W, S]
    ensures NoneWord(t) ==> ExportEdges.ExportEdgesOf(text) == []
    ensures !AllWord(t) && !NoneWord(t) ==>
      && ExportEdges.RankSorted(ExportEdges.ExportEdgesOf(text))
      && forall e :: e in ExportEdges.ExportEdgesOf(text) <==> Readable(t) && Mentions(t, e)
  {
    TrimIsUnique(text, t);
    KeywordsMean(t);
    if !AllWord(t) && !NoneWord(t) {
      var parts := ExportEdges.SplitFrom(t, []);
      var at := SplitMeans(t);
      ReadableIff(t, parts, at);
      ExportEdges.DeclaredIsRankSorted(text);
      ExportEdges.CanonicalOrder(ExportEdges.Named(parts));
      forall e ensures e in ExportEdges.Declared(parts) <==> Readable(t) && Mentions(t, e) {
        MentionedIff(t, parts, at, e);
      }
    }
  }

  // ---- the entries of an exclusion list ------------------------------------------------

  /** The parts with a comma between each two. */
  function WithCommas(parts: seq<string>): string {
    if parts == [] then "" else if |parts| == 1 then parts[0] else parts[0] + "," + WithCommas(parts[1..])
  }

  ghost predicate NoComma(parts: seq<string>) {
    forall p | p in parts :: ',' !in p
  }

  lemma WithCommasFirst(c: char, parts: seq<string>)
    requires parts != []
    ensures WithCommas([[c] + parts[0]] + parts[1..]) == [c] + WithCommas(parts)
  {
    if |parts| > 1 {
      assert ([[c] + parts[0]] + parts[1..])[1..] == parts[1..];
      Reassociate([c], parts[0], ",");
      Reassociate([c], parts[0] + ",", WithCommas(parts[1..]));
    }
  }

  lemma {:induction false} SplitJoins(text: string)
    ensures NoComma(Exclusion.SplitComma(text)) && WithCommas(Exclusion.SplitComma(text)) == text
  {
    if text != "" {
      var rest := Exclusion.SplitComma(text[1..]);
      SplitJoins(text[1..]);
      assert text == [text[0]] + text[1..];
      if text[0] == ',' {
        assert ([""] + rest)[1..] == rest;
        assert WithCommas([""] + rest) == "" + "," + WithCommas(rest);
      } else {
        WithCommasFirst(text[0], rest);
        assert rest[0] in rest && forall p | p in rest[1..] :: p in rest;
      }
    }
  }

  lemma {:induction false} JoinSplits(parts: seq<string>)
    requires parts != [] && NoComma(parts)
    ensures Exclusion.SplitComma(WithCommas(parts)) == parts
    decreases |WithCommas(parts)|, |parts|
  {
    var text, p := WithCommas(parts), parts[0];
    assert p in parts;
    if p != "" {
      var fewer := [p[1..]] + parts[1..];
      assert [p[0]] + p[1..] == p && [[p[0]] + fewer[0]] + fewer[1..] == parts;
      WithCommasFirst(p[0], fewer);
      assert text[0] in p;
      assert text[1..] == WithCommas(fewer);
      assert forall q | q in parts[1..] :: q in parts;
      JoinSplits(fewer);
    } else if |parts| > 1 {
      assert text[1..] == WithCommas(parts[1..]);
      assert forall q | q in parts[1..] :: q in parts;
      JoinSplits(parts[1..]);
      assert parts == [""] + parts[1..];
    } else {
      assert parts == [""];
    }
  }

  /** Splitting at commas and joining with commas undo each other, so the entries of the list are
      exactly the comma-free texts that make it up. */
  lemma SplitCommaIff(text: string, parts: seq<string>)
    ensures Exclusion.SplitComma(text) == parts <==> parts != [] && NoComma(parts) && WithCommas(parts) == text
  {
    SplitJoins(text);
    if parts != [] && NoComma(parts) { JoinSplits(parts); }
  }
}
