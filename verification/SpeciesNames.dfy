/** The equality of species names: whitespace normalization, and the exclusion list that is
    matched through it (bibites-mod/src/ContractA.cs, bibites-mod/src/MigrationExclusion.cs). */
module SpeciesNames {
  import opened ContractA
  import opened Lists

  // ---- words ---------------------------------------------------------------------------

  predicate IsWord(w: string) {
    w != "" && forall i | 0 <= i < |w| :: !IsWhiteSpace(w[i])
  }

  /** The length of the run of non-space characters at the front. */
  function WordEnd(s: string): (e: nat)
    ensures e <= |s|
    ensures forall i | 0 <= i < e :: !IsWhiteSpace(s[i])
    ensures e < |s| ==> IsWhiteSpace(s[e])
  {
    if s == "" || IsWhiteSpace(s[0]) then 0 else 1 + WordEnd(s[1..])
  }

  /** The maximal runs of non-space characters, in order. */
  function Words(s: string): (ws: seq<string>)
    ensures forall w | w in ws :: IsWord(w)
    decreases |s|
  {
    if s == "" then []
    else if IsWhiteSpace(s[0]) then Words(s[1..])
    else [s[..WordEnd(s)]] + Words(s[WordEnd(s)..])
  }

  /** The words with one U+0020 between each two. */
  function Join(ws: seq<string>): string {
    if ws == [] then ""
    else if |ws| == 1 then ws[0]
    else Join(ws[..|ws| - 1]) + " " + ws[|ws| - 1]
  }

  function Normalized(s: string): string {
    Join(Words(s))
  }

  lemma WordEndIs(s: string, e: nat)
    requires e <= |s| && forall i | 0 <= i < e :: !IsWhiteSpace(s[i])
    requires e == |s| || IsWhiteSpace(s[e])
    ensures WordEnd(s) == e
  {
  }

  lemma WordsFront(a: string, b: string, e: nat)
    requires 0 < e <= |a| && forall i | 0 <= i < e :: !IsWhiteSpace(a[i])
    requires e == |a + b| || IsWhiteSpace((a + b)[e])
    ensures Words(a + b) == [a[..e]] + Words(a[e..] + b)
  {
    WordEndIs(a + b, e);
    assert (a + b)[..e] == a[..e];
    assert (a + b)[e..] == a[e..] + b;
  }

  lemma SpaceFront(a: string, b: string)
    requires a != "" && IsWhiteSpace(a[0])
    ensures Words(a) == Words(a[1..]) && Words(a + b) == Words(a[1..] + b)
  {
    assert (a + b)[0] == a[0] && (a + b)[1..] == a[1..] + b;
  }

  /** Words do not run across a space. */
  lemma {:induction false} WordsConcat(a: string, b: string)
    requires a == "" || b == "" || IsWhiteSpace(a[|a| - 1]) || IsWhiteSpace(b[0])
    ensures Words(a + b) == Words(a) + Words(b)
    decreases |a|
  {
    if a == "" {
      assert a + b == b;
    } else if IsWhiteSpace(a[0]) {
      SpaceFront(a, b);
      WordsConcat(a[1..], b);
    } else {
      var e := WordEnd(a);
      WordsFront(a, b, e);
      WordsConcat(a[e..], b);
      Reassociate([a[..e]], Words(a[e..]), Words(b));
    }
  }

  /** A character right behind a word belongs to it. */
  lemma {:induction false} WordGrows(s: string, c: char)
    requires s != "" && !IsWhiteSpace(s[|s| - 1]) && !IsWhiteSpace(c)
    ensures Words(s) != []
    ensures var n := |Words(s)| - 1; Words(s + [c]) == Words(s)[..n] + [Words(s)[n] + [c]]
    decreases |s|
  {
    if IsWhiteSpace(s[0]) {
      assert (s + [c])[1..] == s[1..] + [c];
      WordGrows(s[1..], c);
    } else if WordEnd(s) == |s| {
      OneWord(s);
      OneWord(s + [c]);
    } else {
      var e := WordEnd(s);
      WordsFront(s, "", e);
      WordsFront(s, [c], e);
      assert s + "" == s && s[e..] + "" == s[e..];
      WordGrows(s[e..], c);
      LastGrows(s[..e], Words(s[e..]), c);
    }
  }

  lemma LastGrows(front: string, rest: seq<string>, c: char)
    requires rest != []
    ensures var ws := [front] + rest; var n, m := |ws| - 1, |rest| - 1;
      ws[..n] + [ws[n] + [c]] == [front] + (rest[..m] + [rest[m] + [c]])
  {
  }

  lemma OneWord(w: string)
    requires IsWord(w)
    ensures Words(w) == [w]
  {
    WordEndIs(w, |w|);
    assert w[..|w|] == w && w[|w|..] == "";
  }

  lemma {:induction false} BlankHasNoWords(s: string)
    requires forall i | 0 <= i < |s| :: IsWhiteSpace(s[i])
    ensures Words(s) == []
  {
    if s != "" { BlankHasNoWords(s[1..]); }
  }

  /** A run of other characters with a space or an end on either side is a word, and the words in
      front of it and behind it are the others, in that order. */
  lemma WordsAround(a: string, w: string, b: string)
    requires IsWord(w)
    requires a != "" ==> IsWhiteSpace(a[|a| - 1])
    requires b != "" ==> IsWhiteSpace(b[0])
    ensures Words(a + w + b) == Words(a) + [w] + Words(b)
  {
    WordsConcat(a, w);
    OneWord(w);
    WordsConcat(a + w, b);
  }

  lemma JoinSnoc(ws: seq<string>, w: string)
    requires ws != []
    ensures Join(ws + [w]) == Join(ws) + " " + w
  {
    assert (ws + [w])[..|ws|] == ws;
  }

  lemma {:induction false} JoinIsEmptyIff(ws: seq<string>)
    requires forall w | w in ws :: IsWord(w)
    ensures Join(ws) == "" <==> ws == []
  {
    if |ws| == 1 { assert IsWord(ws[0]); }
  }

  lemma {:induction false} JoinGrows(ws: seq<string>, c: char)
    requires ws != []
    ensures Join(ws[..|ws| - 1] + [ws[|ws| - 1] + [c]]) == Join(ws) + [c]
  {
    var n := |ws| - 1;
    if n > 0 {
      JoinSnoc(ws[..n], ws[n] + [c]);
      assert Join(ws) == Join(ws[..n]) + " " + ws[n];
    }
  }

  // ---- the loop ------------------------------------------------------------------------

  /** What the loop holds after reading `s`. */
  ghost predicate ReadSoFar(s: string, builder: string, pendingSpace: bool) {
    && builder == Normalized(s)
    && (pendingSpace <==> s != "" && IsWhiteSpace(s[|s| - 1]) && Words(s) != [])
  }

  lemma ReadsSpace(s: string, builder: string, pendingSpace: bool, c: char)
    requires ReadSoFar(s, builder, pendingSpace) && IsWhiteSpace(c)
    ensures ReadSoFar(s + [c], builder, |builder| > 0)
  {
    WordsConcat(s, [c]);
    assert Words([c]) == [] by { assert [c][1..] == ""; }
    assert Words(s + [c]) == Words(s);
    JoinIsEmptyIff(Words(s));
  }

  lemma ReadsLetter(s: string, builder: string, pendingSpace: bool, c: char)
    requires ReadSoFar(s, builder, pendingSpace) && !IsWhiteSpace(c)
    ensures ReadSoFar(s + [c], if pendingSpace then builder + [' '] + [c] else builder + [c], false)
  {
    var ws := Words(s);
    if s == "" || IsWhiteSpace(s[|s| - 1]) {
      WordsConcat(s, [c]);
      OneWord([c]);
      if ws == [] {
        assert [] + [[c]] == [[c]];
      } else {
        JoinSnoc(ws, [c]);
        assert builder + " " + [c] == builder + [' '] + [c];
      }
    } else {
      WordGrows(s, c);
      JoinGrows(ws, c);
    }
  }

  method NormalizeSpeciesWhitespace(value: Option<string>) returns (normalized: Option<string>)
    ensures normalized == if value.None? then None else Some(Normalized(value.value))
  {
    if value.None? {
      return None;
    }
    var s := value.value;
    var builder := "";
    var pendingSpace := false;
    var i := 0;
    while i < |s|
      invariant 0 <= i <= |s|
      invariant ReadSoFar(s[..i], builder, pendingSpace)
    {
      var c := s[i];
      assert s[..i + 1] == s[..i] + [c];
      i := i + 1;
      if IsWhiteSpace(c) {
        ReadsSpace(s[..i - 1], builder, pendingSpace, c);
        pendingSpace := |builder| > 0;
        continue;
      }
      ReadsLetter(s[..i - 1], builder, pendingSpace, c);
      if pendingSpace {
        builder := builder + [' '];
        pendingSpace := false;
      }
      builder := builder + [c];
    }
    assert s[..i] == s;
    normalized := Some(builder);
  }

  // ---- the equality --------------------------------------------------------------------

  /** Splitting what was joined gives the words back. */
  lemma {:induction false} WordsOfJoin(ws: seq<string>)
    requires forall w | w in ws :: IsWord(w)
    ensures Words(Join(ws)) == ws
  {
    if |ws| == 1 {
      OneWord(ws[0]);
      assert ws == [ws[0]];
    } else if |ws| > 1 {
      var n := |ws| - 1;
      WordsOfJoin(ws[..n]);
      OneWord(ws[n]);
      FullNameWords(Join(ws[..n]), ws[n]);
      assert ws == ws[..n] + [ws[n]];
    }
  }

  /** Normalization keeps the words and nothing else, so it is idempotent. */
  lemma NormalizedKeepsWords(s: string)
    ensures Words(Normalized(s)) == Words(s)
    ensures Normalized(Normalized(s)) == Normalized(s)
  {
    WordsOfJoin(Words(s));
  }

  /** Two names normalize alike exactly when they have the same words. */
  lemma NormalizeAlikeIff(a: string, b: string)
    ensures Normalized(a) == Normalized(b) <==> Words(a) == Words(b)
  {
    NormalizedKeepsWords(a);
    NormalizedKeepsWords(b);
  }

  /** A name is already in normal form exactly when it has no space at either end and no two in
      a row, and every space in it is U+0020. */
  predicate Tidy(s: string) {
    && (s != "" ==> !IsWhiteSpace(s[0]) && !IsWhiteSpace(s[|s| - 1]))
    && (forall i | 0 <= i < |s| && IsWhiteSpace(s[i]) :: s[i] == ' ')
    && (forall i | 0 <= i < |s| - 1 && IsWhiteSpace(s[i]) :: !IsWhiteSpace(s[i + 1]))
  }

  lemma {:induction false} JoinIsTidy(ws: seq<string>)
    requires forall w | w in ws :: IsWord(w)
    ensures Tidy(Join(ws))
  {
    if |ws| == 1 {
      assert IsWord(ws[0]);
    } else if |ws| > 1 {
      var n := |ws| - 1;
      JoinIsTidy(ws[..n]);
      JoinIsEmptyIff(ws[..n]);
      assert IsWord(ws[n]);
      TidyJoin(Join(ws[..n]), ws[n]);
    }
  }

  lemma TidyJoin(a: string, w: string)
    requires Tidy(a) && a != "" && IsWord(w)
    ensures Tidy(a + " " + w)
  {
    var s := a + " " + w;
    assert forall i | |a| < i < |s| :: s[i] == w[i - |a| - 1];
    assert forall i | 0 <= i < |a| :: s[i] == a[i];
    assert s[|a|] == ' ' && s[|a| + 1] == w[0];
  }

  lemma NewWord(a: string, c: char)
    requires Normalized(a) == a && a != "" && !IsWhiteSpace(c)
    ensures Normalized(a + " " + [c]) == a + " " + [c]
  {
    WordsConcat(a, " ");
    assert Words(" ") == [];
    WordsConcat(a + " ", [c]);
    OneWord([c]);
    assert Words(a + " " + [c]) == Words(a) + [[c]];
    JoinIsEmptyIff(Words(a));
    JoinSnoc(Words(a), [c]);
  }

  lemma SameWord(a: string, c: char)
    requires Normalized(a) == a && a != "" && !IsWhiteSpace(a[|a| - 1]) && !IsWhiteSpace(c)
    ensures Normalized(a + [c]) == a + [c]
  {
    WordGrows(a, c);
    JoinGrows(Words(a), c);
  }

  lemma TidyPrefix(s: string, n: nat)
    requires Tidy(s) && n <= |s| && (n == 0 || !IsWhiteSpace(s[n - 1]))
    ensures Tidy(s[..n])
  {
    assert forall i | 0 <= i < n :: s[..n][i] == s[i];
  }

  lemma {:induction false} TidyIsNormal(s: string)
    requires Tidy(s)
    ensures Normalized(s) == s
    decreases |s|
  {
    if s != "" {
      var n := |s| - 1;
      if n == 0 {
        OneWord(s);
      } else if IsWhiteSpace(s[n - 1]) {
        TidyPrefix(s, n - 1);
        TidyIsNormal(s[..n - 1]);
        assert s == s[..n - 1] + " " + [s[n]];
        NewWord(s[..n - 1], s[n]);
      } else {
        TidyPrefix(s, n);
        TidyIsNormal(s[..n]);
        assert s == s[..n] + [s[n]];
        SameWord(s[..n], s[n]);
      }
    }
  }

  lemma NormalIffTidy(s: string)
    ensures Normalized(s) == s <==> Tidy(s)
  {
    JoinIsTidy(Words(s));
    if Tidy(s) { TidyIsNormal(s); }
  }

  lemma {:induction false} JoinConcat(p: seq<string>, q: seq<string>)
    requires p != [] && q != []
    ensures Join(p + q) == Join(p) + " " + Join(q)
  {
    var n := |q| - 1;
    if n == 0 {
      assert q == [q[0]];
      JoinSnoc(p, q[0]);
    } else {
      JoinConcat(p, q[..n]);
      assert p + q == (p + q[..n]) + [q[n]];
      JoinSnoc(p + q[..n], q[n]);
      assert Join(p) + " " + (Join(q[..n]) + " " + q[n]) == Join(p) + " " + Join(q[..n]) + " " + q[n];
    }
  }

  lemma FullNameWords(generic: string, specific: string)
    ensures Words(generic + " " + specific) == Words(generic) + Words(specific)
  {
    WordsConcat(generic, " ");
    assert Words(" ") == [];
    WordsConcat(generic + " ", specific);
    assert Words(generic) + [] == Words(generic);
  }

  /** Normalizing the two halves and joining them is normalizing the full name, exactly when
      neither half normalizes to nothing. */
  lemma HalvesJoinIff(generic: string, specific: string)
    ensures Normalized(generic) + " " + Normalized(specific) == Normalized(generic + " " + specific)
       <==> Normalized(generic) != "" && Normalized(specific) != ""
  {
    var g, s := Words(generic), Words(specific);
    FullNameWords(generic, specific);
    JoinIsEmptyIff(g);
    JoinIsEmptyIff(s);
    if g != [] && s != [] {
      JoinConcat(g, s);
    } else {
      JoinIsTidy(g + s);
      assert !Tidy(Join(g) + " " + Join(s));
    }
  }

  // ---- the wire rule -------------------------------------------------------------------

  const MAX_SPECIES_NAME_BYTES: nat := 64

  function Utf8Width(c: char): nat {
    if c < '\U{0080}' then 1 else if c < '\U{0800}' then 2 else if c < '\U{10000}' then 3 else 4
  }

  function Utf8Bytes(s: string): nat {
    if s == "" then 0
    else Utf8Bytes(s[..|s| - 1]) + Utf8Width(s[|s| - 1])
  }

  /** One half of a name as the wire admits it: never repaired, only refused. */
  predicate IsValidSpeciesNameHalf(half: Option<string>) {
    && half.Some? && half.value != ""
    && !IsWhiteSpace(half.value[0]) && !IsWhiteSpace(half.value[|half.value| - 1])
    && Utf8Bytes(half.value) <= MAX_SPECIES_NAME_BYTES
  }

  /** After normalization only two things can still keep a half off the wire. */
  lemma NormalizedHalfIsValidIff(half: string)
    ensures IsValidSpeciesNameHalf(Some(Normalized(half)))
       <==> Words(half) != [] && Utf8Bytes(Normalized(half)) <= MAX_SPECIES_NAME_BYTES
  {
    JoinIsTidy(Words(half));
    JoinIsEmptyIff(Words(half));
  }

  /** A name exported by this mod arrives in normal form. */
  lemma ExportedNameIsTidy(generic: string, specific: string)
    requires IsValidSpeciesNameHalf(Some(Normalized(generic))) && IsValidSpeciesNameHalf(Some(Normalized(specific)))
    ensures Tidy(Normalized(generic) + " " + Normalized(specific))
  {
    HalvesJoinIff(generic, specific);
    NormalizedKeepsWords(generic + " " + specific);
    NormalIffTidy(Normalized(generic + " " + specific));
  }

  /** The wire rule alone does not give that: it looks at the ends of a half only. */
  lemma WireAdmitsRawNames()
    ensures IsValidSpeciesNameHalf(Some("b  c")) && !Tidy("A" + " " + "b  c")
  {
    var half := "b  c";
    assert half[..3] == "b  " && half[..3][..2] == "b " && half[..3][..2][..1] == "b" && half[..3][..2][..1][..0] == "";
    assert Utf8Bytes("b") == 1 && Utf8Bytes("b ") == 2 && Utf8Bytes("b  ") == 3;
    var name := "A" + " " + half;
    assert name[3] == ' ' && name[4] == ' ';
  }
}
