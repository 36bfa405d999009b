/** The exclusion list: which species never leave this world
    (bibites-mod/src/MigrationExclusion.cs). */
module Exclusion {
  import opened ContractA
  import opened SpeciesNames

  type SpeciesRef = nat

  /** The two halves of a stored name; a record's own fields may be null. */
  datatype Halves = Halves(generic: Option<string>, specific: Option<string>)

  const MAX_LOGGED_ORGANISMS: nat := 4096

  // ---- the specification ---------------------------------------------------------------

  /** `text.Split(',')`: always at least one part. */
  function SplitComma(text: string): (parts: seq<string>)
    ensures parts != []
  {
    if text == "" then [""]
    else
      var rest := SplitComma(text[1..]);
      if text[0] == ',' then [""] + rest else [[text[0]] + rest[0]] + rest[1..]
  }

  /** The normalized parts, without the empty ones, each at its first occurrence. */
  function Configured(parts: seq<string>): (names: seq<string>)
    ensures forall n :: n in names <==> n != "" && exists p :: p in parts && Normalized(p) == n
    ensures forall i, j | 0 <= i < j < |names| :: names[i] != names[j]
  {
    if parts == [] then []
    else
      var n := |parts| - 1;
      var before := Configured(parts[..n]);
      assert parts == parts[..n] + [parts[n]];
      var name := Normalized(parts[n]);
      if name == "" || name in before then before else before + [name]
  }

  /** Part `i` is the first with these words. */
  ghost predicate FirstPart(parts: seq<string>, name: string, i: nat) {
    i < |parts| && Normalized(parts[i]) == name && forall k | 0 <= k < i :: Normalized(parts[k]) != name
  }

  /** The names, each with the place it first came at, in the order of the places. */
  ghost predicate FirstAt(parts: seq<string>, names: seq<string>, at: seq<nat>) {
    && |at| == |names|
    && (forall i | 0 <= i < |at| :: FirstPart(parts, names[i], at[i]))
    && (forall i, j | 0 <= i < j < |at| :: at[i] < at[j])
  }

  lemma FirstAtGrows(parts: seq<string>, names: seq<string>, at: seq<nat>, part: string)
    requires FirstAt(parts, names, at)
    ensures FirstAt(parts + [part], names, at)
    ensures FirstPart(parts + [part], Normalized(part), |parts|) ==>
      FirstAt(parts + [part], names + [Normalized(part)], at + [|parts|])
  {
    forall i | 0 <= i < |at| ensures FirstPart(parts + [part], names[i], at[i]) {
      assert FirstPart(parts, names[i], at[i]);
    }
  }

  /** The names keep the order in which they first came. */
  lemma {:induction false} ConfiguredInOrder(parts: seq<string>) returns (at: seq<nat>)
    ensures FirstAt(parts, Configured(parts), at)
  {
    at := [];
    if parts != [] {
      var n := |parts| - 1;
      at := ConfiguredInOrder(parts[..n]);
      FirstAtGrows(parts[..n], Configured(parts[..n]), at, parts[n]);
      assert parts == parts[..n] + [parts[n]];
      if Configured(parts) != Configured(parts[..n]) {
        forall k | 0 <= k < n ensures Normalized(parts[k]) != Normalized(parts[n]) { assert parts[k] in parts[..n]; }
        at := at + [n];
      }
    }
  }

  function ConfiguredList(text: string): seq<string> {
    if text == "" then [] else Configured(SplitComma(text))
  }

  function FullName(h: Halves): Option<string> {
    if h.generic.None? || h.specific.None? then None
    else
      var g, s := Normalized(h.generic.value), Normalized(h.specific.value);
      if g == "" || s == "" then None else Some(g + " " + s)
  }

  predicate Matches(names: set<string>, h: Halves) {
    FullName(h).Some? && FullName(h).value in names
  }

  predicate HasWords(text: Option<string>) {
    text.Some? && Words(text.value) != []
  }

  /** Does some entry of the list have, word for word, this full name? */
  ghost predicate Names(text: string, name: string) {
    exists p :: p in SplitComma(text) && Words(p) == Words(name)
  }

  /** A species is excluded exactly when both halves have words and some entry of the operator's
      list has, word for word, the full name the game shows for it. */
  lemma MatchesIffListed(text: string, h: Halves)
    ensures Matches((set n | n in ConfiguredList(text)), h)
       <==> HasWords(h.generic) && HasWords(h.specific) && Names(text, h.generic.value + " " + h.specific.value)
  {
    if h.generic.Some? && h.specific.Some? {
      var g, s := h.generic.value, h.specific.value;
      JoinIsEmptyIff(Words(g));
      JoinIsEmptyIff(Words(s));
      if HasWords(h.generic) && HasWords(h.specific) {
        var name := g + " " + s;
        HalvesJoinIff(g, s);
        assert FullName(h) == Some(Normalized(name));
        ListedIff(text, name);
      }
    }
  }

  lemma ListedIff(text: string, name: string)
    requires Normalized(name) != ""
    ensures Normalized(name) in ConfiguredList(text) <==> Names(text, name)
  {
    if text == "" {
      assert Words(name) != [];
      assert Words("") == [];
    } else {
      forall p ensures Normalized(p) == Normalized(name) <==> Words(p) == Words(name) {
        NormalizeAlikeIff(p, name);
      }
    }
  }

  // ---- the object ----------------------------------------------------------------------

  class MigrationExclusion {
    var names: set<string>
    var ordered: seq<string>
    var verdicts: map<SpeciesRef, bool>
    var allowed: set<int>
    var logged: set<int>
    var organismsLogged: nat
    var refusals: nat

    ghost predicate Valid()
      reads this
    {
      names == (set n | n in ordered) && |logged| <= MAX_LOGGED_ORGANISMS
    }

    /** Every remembered verdict is the one a fresh look at the record would give; this is what
        a rename inside a running world breaks until the next world is loaded. */
    ghost predicate UpToDate(table: map<SpeciesRef, Halves>)
      reads this
    {
      forall s | s in verdicts :: s in table && verdicts[s] == Matches(names, table[s])
    }

    /** What the object holds against a species: the remembered verdict, or a fresh one. */
    function Verdict(species: SpeciesRef, h: Halves): bool
      reads this
    {
      if species in verdicts then verdicts[species] else Matches(names, h)
    }

    constructor ()
      ensures Valid() && ordered == [] && verdicts == map[]
    {
      names, ordered, verdicts, allowed, logged, organismsLogged, refusals := {}, [], map[], {}, {}, 0, 0;
    }

    method Reset()
      modifies this
      ensures names == old(names) && ordered == old(ordered)
      ensures verdicts == map[] && allowed == {} && logged == {} && organismsLogged == 0 && refusals == 0
    {
      verdicts := map[];
      logged := {};
      allowed := {};
      organismsLogged := 0;
      refusals := 0;
    }

    /** The published list is the list the comparison uses, in configured order, once each. */
    method Configure(text: string)
      modifies this
      ensures Valid() && ordered == ConfiguredList(text)
      ensures allowed == {} && logged == {} && verdicts == map[]
    {
      names := {};
      ordered := [];
      Reset();
      if text == "" {
        return;
      }
      var parts := SplitComma(text);
      var i := 0;
      while i < |parts|
        invariant 0 <= i <= |parts|
        invariant ordered == Configured(parts[..i]) && names == (set n | n in ordered)
        invariant verdicts == map[] && allowed == {} && logged == {}
      {
        assert parts[..i + 1][..i] == parts[..i];
        var name := NormalizeSpeciesWhitespace(Some(parts[i]));
        i := i + 1;
        if name.value == "" {
          continue;
        }
        if name.value !in names {
          names := names + {name.value};
          ordered := ordered + [name.value];
        }
      }
      assert parts[..i] == parts;
    }

    method Decide(h: Halves) returns (matches: bool)
      ensures matches == Matches(names, h)
    {
      var generic := NormalizeSpeciesWhitespace(h.generic);
      var specific := NormalizeSpeciesWhitespace(h.specific);
      if generic.None? || generic.value == "" || specific.None? || specific.value == "" {
        return false;
      }
      matches := generic.value + " " + specific.value in names;
    }

    /** An organism is refused on the verdict about its species, which is remembered from then on;
        only one the rig exempted and one whose species cannot be read escape it. Unless a species
        was renamed since, the verdict is the one a fresh comparison would give. */
    method Excludes(species: Option<SpeciesRef>, entityId: int, table: map<SpeciesRef, Halves>) returns (excluded: bool)
      requires Valid() && (species.Some? ==> species.value in table)
      modifies this`verdicts, this`refusals, this`logged, this`organismsLogged
      ensures Valid()
      ensures var consulted := names != {} && entityId !in allowed && species.Some?;
        && (excluded <==> consulted && old(Verdict(species.value, table[species.value])))
        && verdicts ==
           if consulted then old(verdicts)[species.value := old(Verdict(species.value, table[species.value]))]
           else old(verdicts)
      ensures old(UpToDate(table)) ==>
        UpToDate(table)
        && (excluded <==> entityId !in allowed && species.Some? && Matches(names, table[species.value]))
      ensures refusals == old(refusals) + (if excluded then 1 else 0)
      ensures logged ==
              if excluded && |old(logged)| < MAX_LOGGED_ORGANISMS then old(logged) + {entityId} else old(logged)
      ensures organismsLogged == old(organismsLogged) + (if logged == old(logged) then 0 else 1)
    {
      if |names| == 0 {
        return false;
      }
      if entityId in allowed {
        return false;
      }
      if species.None? {
        return false;
      }
      if species.value !in verdicts {
        var matches := Decide(table[species.value]);
        verdicts := verdicts[species.value := matches];
      }
      excluded := verdicts[species.value];
      if !excluded {
        return;
      }
      refusals := refusals + 1;
      Note(entityId);
    }

    method Note(entityId: int)
      requires |logged| <= MAX_LOGGED_ORGANISMS
      modifies this`logged, this`organismsLogged
      ensures |logged| <= MAX_LOGGED_ORGANISMS
      ensures logged == if |old(logged)| < MAX_LOGGED_ORGANISMS then old(logged) + {entityId} else old(logged)
      ensures organismsLogged == old(organismsLogged) + (if logged == old(logged) then 0 else 1)
    {
      if |logged| >= MAX_LOGGED_ORGANISMS {
        return;
      }
      if entityId in logged {
        assert logged == logged + {entityId};
        return;
      }
      logged := logged + {entityId};
      organismsLogged := organismsLogged + 1;
    }

    method AllowOnce(entityId: int)
      modifies this`allowed
      ensures allowed == if names == {} then old(allowed) else old(allowed) + {entityId}
    {
      if |names| > 0 {
        allowed := allowed + {entityId};
      }
    }

    method Forget(entityId: int)
      modifies this`allowed, this`logged
      ensures allowed == old(allowed) - {entityId} && logged == old(logged) - {entityId}
    {
      logged := logged - {entityId};
      allowed := allowed - {entityId};
    }
  }
}
