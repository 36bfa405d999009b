/** The species registry an arrival is resolved against: two ordered lists, the parent forest,
    and the per-tick cache (bibites-mod/src/SpeciesRegistry.cs). */
module Registry {
  import opened ContractA
  import opened Lists
  import opened SpeciesNames
  import Worlds

  type Ref = Worlds.Handle

  datatype Species = Species(id: nat, generic: string, specific: string, parent: Option<Ref>, root: Option<Ref>,
    children: seq<Ref>) {
    /** The name the game shows. */
    function Name(): string {
      generic + " " + specific
    }
  }

  /** What a species block says: the two halves, and the parent's when it has one. */
  datatype Identity = Identity(generic: string, specific: string, parent: Option<(string, string)>) {
    function Name(): string {
      generic + " " + specific
    }
  }

  datatype Roster = Roster(species: map<Ref, Species>, recorded: seq<Ref>, active: seq<Ref>, nextId: nat)

  datatype Book = Book(roster: Roster, cache: map<string, Ref>, tick: int)

  // ---- lists ---------------------------------------------------------------------------

  /** `List.IndexOf`. */
  function IndexOf(s: seq<Ref>, h: Ref): (i: int)
    ensures -1 <= i < |s|
    ensures i >= 0 ==> s[i] == h
    ensures i < 0 ==> h !in s
    ensures h in s ==> i >= 0
  {
    if s == [] then -1
    else if s[0] == h then 0
    else if IndexOf(s[1..], h) < 0 then -1 else 1 + IndexOf(s[1..], h)
  }

  function InsertAt(s: seq<Ref>, i: nat, h: Ref): (r: seq<Ref>)
    requires i <= |s|
    ensures |r| == |s| + 1 && r[i] == h
  {
    s[..i] + [h] + s[i..]
  }

  /** Where a species with `index` in `recorded` goes in `active`. */
  function Place(recorded: seq<Ref>, active: seq<Ref>, index: int): (p: nat)
    ensures p <= |active|
    ensures forall i | 0 <= i < p :: IndexOf(recorded, active[i]) <= index
    ensures p < |active| ==> IndexOf(recorded, active[p]) > index
  {
    if active == [] || IndexOf(recorded, active[0]) > index then 0 else 1 + Place(recorded, active[1..], index)
  }

  // ---- operations ----------------------------------------------------------------------

  predicate AlikeTo(l: Roster, h: Ref, name: string) {
    h in l.species && Normalized(l.species[h].Name()) == Normalized(name)
  }

  /** The recorded species whose name normalizes like `name`, in order. */
  function Alike(l: Roster, list: seq<Ref>, name: string): seq<Ref> {
    if list == [] then []
    else Alike(l, list[..|list| - 1], name) + (if AlikeTo(l, list[|list| - 1], name) then [list[|list| - 1]] else [])
  }

  /** The first of them that carries the name byte for byte. */
  function FirstExact(l: Roster, list: seq<Ref>, name: string): Option<Ref> {
    if list == [] then None
    else
      var before := FirstExact(l, list[..|list| - 1], name);
      var last := list[|list| - 1];
      if before.Some? then before
      else if AlikeTo(l, last, name) && l.species[last].Name() == name then Some(last) else None
  }

  function Find(l: Roster, name: string): Option<Ref> {
    var exact := FirstExact(l, l.recorded, name);
    var alike := Alike(l, l.recorded, name);
    if exact.Some? then exact else if alike == [] then None else Some(alike[0])
  }

  function Reactivated(l: Roster, h: Ref): Roster {
    if h in l.active then l
    else l.(active := InsertAt(l.active, Place(l.recorded, l.active, IndexOf(l.recorded, h)), h))
  }

  function Newborn(l: Roster, identity: Identity, newborn: Ref, parent: Option<Ref>): Species
    requires parent.Some? ==> parent.value in l.species
  {
    var root := if parent.None? then newborn
                else if l.species[parent.value].root.Some? then l.species[parent.value].root.value
                else parent.value;
    Species(l.nextId, identity.generic, identity.specific, parent, Some(root), [])
  }

  function WithChild(species: map<Ref, Species>, parent: Option<Ref>, child: Ref): map<Ref, Species> {
    if parent.Some? && parent.value in species then
      species[parent.value := species[parent.value].(children := species[parent.value].children + [child])]
    else species
  }

  /** The species with the new one among its parent's children. */
  function Grown(l: Roster, identity: Identity, newborn: Ref, parent: Option<Ref>): map<Ref, Species>
    requires newborn !in l.species && (parent.Some? ==> parent.value in l.species)
  {
    WithChild(l.species, parent, newborn)[newborn := Newborn(l, identity, newborn, parent)]
  }

  function Created(l: Roster, identity: Identity, newborn: Ref, parent: Option<Ref>): Roster
    requires newborn !in l.species && (parent.Some? ==> parent.value in l.species)
  {
    var species := Grown(l, identity, newborn, parent);
    if parent.None? then Roster(species, l.recorded + [newborn], l.active + [newborn], l.nextId + 1)
    else
      var index := IndexOf(l.recorded, parent.value) + 1;
      var recorded := InsertAt(l.recorded, index, newborn);
      Roster(species, recorded, InsertAt(l.active, Place(recorded, l.active, index), newborn), l.nextId + 1)
  }

  function RolledBack(l: Roster, created: Ref): Roster
    requires created in l.species
  {
    var c := l.species[created];
    var species := if c.parent.Some? && c.parent.value in l.species then
                     var p := l.species[c.parent.value];
                     l.species[c.parent.value := p.(children := Without(p.children, created))]
                   else l.species;
    Roster(species[created := species[created].(parent := None, root := Some(created))],
            Without(l.recorded, created), Without(l.active, created), l.nextId)
  }

  function ParentName(identity: Identity): string
    requires identity.parent.Some?
  {
    identity.parent.value.0 + " " + identity.parent.value.1
  }

  /** The species this world answers an arriving name with, and whether it had to be created. */
  function Resolved(b: Book, identity: Identity, tick: int, newborn: Ref): (Book, Ref, bool)
    requires newborn !in b.roster.species
  {
    var l := b.roster;
    var cache := if tick == b.tick then b.cache else map[];
    var key := Normalized(identity.Name());
    if key in cache then (Book(l, cache, tick), cache[key], false)
    else
      var found := Find(l, identity.Name());
      if found.Some? then (Book(Reactivated(l, found.value), cache[key := found.value], tick), found.value, false)
      else
        FindInSpecies(l, if identity.parent.Some? then ParentName(identity) else "");
        var parent := if identity.parent.Some? then Find(l, ParentName(identity)) else None;
        (Book(Created(l, identity, newborn, parent), cache[key := newborn], tick), newborn, true)
  }

  function UnregisteredBook(b: Book, created: Ref): Book
    requires created in b.roster.species
  {
    Book(RolledBack(b.roster, created), b.cache - {b.roster.species[created].Name()}, b.tick)
  }

  // ---- what finding means --------------------------------------------------------------

  lemma {:induction false} AlikeMembers(l: Roster, list: seq<Ref>, name: string)
    ensures forall h :: h in Alike(l, list, name) <==> h in list && AlikeTo(l, h, name)
  {
    if list != [] {
      AlikeMembers(l, list[..|list| - 1], name);
      assert list == list[..|list| - 1] + [list[|list| - 1]];
    }
  }

  lemma {:induction false} FirstExactMeans(l: Roster, list: seq<Ref>, name: string)
    ensures FirstExact(l, list, name).Some? ==>
      FirstExact(l, list, name).value in list && FirstExact(l, list, name).value in l.species
      && l.species[FirstExact(l, list, name).value].Name() == name
    ensures FirstExact(l, list, name).None? ==> forall h | h in list && h in l.species :: l.species[h].Name() != name
  {
    if list != [] {
      FirstExactMeans(l, list[..|list| - 1], name);
      assert list == list[..|list| - 1] + [list[|list| - 1]];
    }
  }

  lemma FindInSpecies(l: Roster, name: string)
    ensures Find(l, name).Some? ==> Find(l, name).value in l.species && Find(l, name).value in l.recorded
  {
    FirstExactMeans(l, l.recorded, name);
    AlikeMembers(l, l.recorded, name);
  }

  /** A lookup misses exactly when no recorded species has the same words; a hit has the same
      words, and is a byte-for-byte match whenever there is one. */
  lemma FindMeans(l: Roster, name: string)
    ensures Find(l, name).None?
       <==> forall h | h in l.recorded && h in l.species :: Words(l.species[h].Name()) != Words(name)
    ensures Find(l, name).Some? ==> var h := Find(l, name).value;
      && h in l.recorded && h in l.species && Words(l.species[h].Name()) == Words(name)
      && ((exists k :: k in l.recorded && k in l.species && l.species[k].Name() == name) ==>
            l.species[h].Name() == name)
  {
    FirstExactMeans(l, l.recorded, name);
    AlikeMembers(l, l.recorded, name);
    forall h | h in l.species
      ensures AlikeTo(l, h, name) <==> Words(l.species[h].Name()) == Words(name)
    {
      NormalizeAlikeIff(l.species[h].Name(), name);
    }
    var alike := Alike(l, l.recorded, name);
    if alike != [] {
      assert alike[0] in alike;
    } else {
      assert forall h | h in l.recorded && h in l.species :: h !in alike;
    }
  }

  // ---- the two lists -------------------------------------------------------------------

  ghost predicate Ascending(recorded: seq<Ref>, active: seq<Ref>) {
    forall i, j | 0 <= i < j < |active| :: IndexOf(recorded, active[i]) < IndexOf(recorded, active[j])
  }

  /** `active` lists recorded species in recorded order. */
  ghost predicate InOrder(recorded: seq<Ref>, active: seq<Ref>) {
    && (forall h | h in active :: h in recorded)
    && Ascending(recorded, active)
  }

  /** The members of `recorded` that are in `kept`, in order: what an order-preserving sublist
      is by definition. */
  ghost function Sublist(recorded: seq<Ref>, kept: set<Ref>): seq<Ref> {
    if recorded == [] then []
    else (if recorded[0] in kept then [recorded[0]] else []) + Sublist(recorded[1..], kept)
  }

  lemma IndexIs(s: seq<Ref>, i: nat)
    requires Distinct(s) && i < |s|
    ensures IndexOf(s, s[i]) == i
  {
  }

  lemma IndexOfTail(recorded: seq<Ref>, h: Ref)
    requires h in recorded && h != recorded[0]
    ensures h in recorded[1..] && IndexOf(recorded, h) == 1 + IndexOf(recorded[1..], h)
  {
  }

  lemma TailInOrder(recorded: seq<Ref>, kept: seq<Ref>)
    requires recorded != [] && Distinct(recorded) && InOrder(recorded, kept) && recorded[0] !in kept
    ensures InOrder(recorded[1..], kept)
    ensures Distinct(recorded[1..])
  {
    forall h | h in kept ensures h in recorded[1..] && IndexOf(recorded, h) == 1 + IndexOf(recorded[1..], h) {
      IndexOfTail(recorded, h);
    }
    forall i, j | 0 <= i < j < |kept| ensures IndexOf(recorded[1..], kept[i]) < IndexOf(recorded[1..], kept[j]) {
      assert kept[i] in kept && kept[j] in kept;
      assert IndexOf(recorded, kept[i]) < IndexOf(recorded, kept[j]);
    }
  }

  lemma DropFirst(recorded: seq<Ref>, active: seq<Ref>)
    requires active != [] && InOrder(recorded, active)
    ensures InOrder(recorded, active[1..]) && active[0] !in active[1..]
  {
    var rest := active[1..];
    forall i, j | 0 <= i < j < |rest| ensures IndexOf(recorded, rest[i]) < IndexOf(recorded, rest[j]) {
      assert rest[i] == active[i + 1] && rest[j] == active[j + 1];
    }
    forall i | 0 <= i < |rest| ensures rest[i] != active[0] {
      assert IndexOf(recorded, active[0]) < IndexOf(recorded, active[i + 1]);
    }
  }

  lemma InOrderIsDistinct(recorded: seq<Ref>, active: seq<Ref>)
    requires InOrder(recorded, active)
    ensures Distinct(active)
  {
    forall i, j | 0 <= i < j < |active| ensures active[i] != active[j] {
      assert IndexOf(recorded, active[i]) < IndexOf(recorded, active[j]);
    }
  }

  lemma HeadIsFirst(recorded: seq<Ref>, active: seq<Ref>)
    requires recorded != [] && InOrder(recorded, active) && recorded[0] in active
    ensures active != [] && active[0] == recorded[0]
  {
    assert forall j | 0 < j < |active| :: IndexOf(recorded, active[0]) < IndexOf(recorded, active[j]);
    assert active[0] in active;
    var i :| 0 <= i < |active| && active[i] == recorded[0];
    assert IndexOf(recorded, recorded[0]) == 0;
  }

  lemma {:induction false} SublistIgnores(recorded: seq<Ref>, kept: set<Ref>, h: Ref)
    requires h !in recorded
    ensures Sublist(recorded, kept - {h}) == Sublist(recorded, kept)
  {
    if recorded != [] { SublistIgnores(recorded[1..], kept, h); }
  }

  lemma HeadNotInTail(recorded: seq<Ref>)
    requires recorded != [] && Distinct(recorded)
    ensures recorded[0] !in recorded[1..]
  {
  }

  /** An active head of the recorded list is the head of the active one. */
  lemma HeadTaken(recorded: seq<Ref>, active: seq<Ref>)
    requires recorded != [] && Distinct(recorded) && InOrder(recorded, active) && recorded[0] in active
    ensures active != [] && active == [recorded[0]] + active[1..] && recorded[0] !in active[1..]
    ensures Distinct(recorded[1..]) && InOrder(recorded[1..], active[1..])
  {
    HeadIsFirst(recorded, active);
    DropFirst(recorded, active);
    TailInOrder(recorded, active[1..]);
  }

  /** In order means: the active list is the duplicate-free sublist of the recorded one that its
      members pick out. */
  lemma {:induction false} InOrderIsSublist(recorded: seq<Ref>, active: seq<Ref>, kept: set<Ref>)
    requires Distinct(recorded) && InOrder(recorded, active)
    requires forall h :: h in kept <==> h in active
    ensures Distinct(active) && active == Sublist(recorded, kept)
    decreases |recorded|
  {
    InOrderIsDistinct(recorded, active);
    EmptyIff(active);
    if recorded == [] {
      EmptyIff(recorded);
    } else if recorded[0] in active {
      HeadTaken(recorded, active);
      InOrderIsSublist(recorded[1..], active[1..], kept - {recorded[0]});
      HeadNotInTail(recorded);
      SublistIgnores(recorded[1..], kept, recorded[0]);
    } else {
      TailInOrder(recorded, active);
      InOrderIsSublist(recorded[1..], active, kept);
    }
  }

  lemma InsertMembers(s: seq<Ref>, p: nat, h: Ref)
    requires p <= |s|
    ensures forall k :: k in InsertAt(s, p, h) <==> k == h || k in s
  {
  }

  ghost predicate Increasing(ranks: seq<int>) {
    forall i, j | 0 <= i < j < |ranks| :: ranks[i] < ranks[j]
  }

  ghost function Ranks(recorded: seq<Ref>, active: seq<Ref>): (ranks: seq<int>)
    ensures |ranks| == |active|
  {
    seq(|active|, i requires 0 <= i < |active| => IndexOf(recorded, active[i]))
  }

  lemma AscendingIff(recorded: seq<Ref>, active: seq<Ref>)
    ensures Ascending(recorded, active) <==> Increasing(Ranks(recorded, active))
  {
    var ranks := Ranks(recorded, active);
    assert forall i | 0 <= i < |active| :: ranks[i] == IndexOf(recorded, active[i]);
  }

  lemma IncreasingWithOneMore(ranks: seq<int>, p: nat, rank: int)
    requires p <= |ranks| && Increasing(ranks)
    requires forall i | 0 <= i < p :: ranks[i] < rank
    requires forall i | p <= i < |ranks| :: ranks[i] > rank
    ensures Increasing(ranks[..p] + [rank] + ranks[p..])
  {
  }

  lemma RanksOfInsert(recorded: seq<Ref>, active: seq<Ref>, p: nat, h: Ref)
    requires p <= |active|
    ensures var ranks := Ranks(recorded, active);
      Ranks(recorded, InsertAt(active, p, h)) == ranks[..p] + [IndexOf(recorded, h)] + ranks[p..]
  {
  }

  lemma InsertBetween(recorded: seq<Ref>, active: seq<Ref>, p: nat, h: Ref)
    requires Ascending(recorded, active) && p <= |active|
    requires forall i | 0 <= i < p :: IndexOf(recorded, active[i]) < IndexOf(recorded, h)
    requires forall i | p <= i < |active| :: IndexOf(recorded, active[i]) > IndexOf(recorded, h)
    ensures Ascending(recorded, InsertAt(active, p, h))
  {
    AscendingIff(recorded, active);
    AscendingIff(recorded, InsertAt(active, p, h));
    RanksOfInsert(recorded, active, p, h);
    IncreasingWithOneMore(Ranks(recorded, active), p, IndexOf(recorded, h));
  }

  /** Inserting at `Place` keeps the order. */
  lemma InsertKeepsOrder(recorded: seq<Ref>, active: seq<Ref>, h: Ref)
    requires InOrder(recorded, active) && h in recorded && h !in active
    ensures InOrder(recorded, InsertAt(active, Place(recorded, active, IndexOf(recorded, h)), h))
  {
    var index := IndexOf(recorded, h);
    var p := Place(recorded, active, index);
    forall i | 0 <= i < |active| ensures IndexOf(recorded, active[i]) != index {
      assert active[i] in active;
    }
    forall i | p <= i < |active| ensures IndexOf(recorded, active[i]) > index {
      if i > p { assert IndexOf(recorded, active[p]) < IndexOf(recorded, active[i]); }
    }
    InsertBetween(recorded, active, p, h);
    InsertMembers(active, p, h);
  }

  lemma InsertShifts(s: seq<Ref>, at: nat, h: Ref)
    requires Distinct(s) && h !in s && at <= |s|
    ensures Distinct(InsertAt(s, at, h)) && IndexOf(InsertAt(s, at, h), h) == at
    ensures forall x | x in s :: x in InsertAt(s, at, h)
    ensures forall x | x in s :: IndexOf(InsertAt(s, at, h), x) == IndexOf(s, x) + if IndexOf(s, x) >= at then 1 else 0
  {
    var t := InsertAt(s, at, h);
    InsertDistinct(s, at, h);
    IndexIs(t, at);
    forall x | x in s ensures x in t && IndexOf(t, x) == IndexOf(s, x) + if IndexOf(s, x) >= at then 1 else 0 {
      ShiftedIndex(s, at, h, x);
    }
  }

  lemma InsertDistinct(s: seq<Ref>, at: nat, h: Ref)
    requires Distinct(s) && h !in s && at <= |s|
    ensures Distinct(InsertAt(s, at, h))
  {
    assert forall k | 0 <= k < |s| :: s[k] in s;
  }

  lemma ShiftedIndex(s: seq<Ref>, at: nat, h: Ref, x: Ref)
    requires Distinct(s) && at <= |s| && x in s && Distinct(InsertAt(s, at, h))
    ensures x in InsertAt(s, at, h)
    ensures IndexOf(InsertAt(s, at, h), x) == IndexOf(s, x) + if IndexOf(s, x) >= at then 1 else 0
  {
    var i := IndexOf(s, x);
    IndexIs(InsertAt(s, at, h), if i >= at then i + 1 else i);
  }

  /** A species inserted anywhere in `recorded` leaves the others in order. */
  lemma InsertKeepsOthers(recorded: seq<Ref>, active: seq<Ref>, at: nat, h: Ref)
    requires Distinct(recorded) && InOrder(recorded, active) && h !in recorded && at <= |recorded|
    ensures InOrder(InsertAt(recorded, at, h), active) && Distinct(InsertAt(recorded, at, h))
  {
    InsertShifts(recorded, at, h);
    forall i, j | 0 <= i < j < |active|
      ensures IndexOf(InsertAt(recorded, at, h), active[i]) < IndexOf(InsertAt(recorded, at, h), active[j])
    {
      assert active[i] in active && active[j] in active;
    }
  }

  /** `List.Remove` of what was just inserted. */
  lemma {:induction false} RemoveInserted(s: seq<Ref>, at: nat, h: Ref)
    requires h !in s && at <= |s|
    ensures Without(InsertAt(s, at, h), h) == s
    decreases at
  {
    var t := InsertAt(s, at, h);
    if at == 0 {
      assert t[1..] == s;
    } else {
      assert t[0] == s[0] && s[0] in s;
      assert t[1..] == InsertAt(s[1..], at - 1, h);
      RemoveInserted(s[1..], at - 1, h);
      assert s == [s[0]] + s[1..];
    }
  }

  lemma AppendIsInsert(s: seq<Ref>, h: Ref)
    ensures s + [h] == InsertAt(s, |s|, h)
  {
  }

  lemma PlaceIs(recorded: seq<Ref>, active: seq<Ref>, index: int, p: nat)
    requires p <= |active|
    requires forall i | 0 <= i < p :: IndexOf(recorded, active[i]) <= index
    requires p < |active| ==> IndexOf(recorded, active[p]) > index
    ensures Place(recorded, active, index) == p
  {
  }

  // ---- the object ----------------------------------------------------------------------

  class SpeciesRegistry {
    var species: map<Ref, Species>
    var recorded: seq<Ref>
    var active: seq<Ref>
    var nextId: nat
    var cache: map<string, Ref>
    var cacheTick: int

    constructor (roster: Roster)
      ensures View() == Book(roster, map[], -1)
    {
      species, recorded, active, nextId := roster.species, roster.recorded, roster.active, roster.nextId;
      cache, cacheTick := map[], -1;
    }

    ghost function View(): Book
      reads this
    {
      Book(Roster(species, recorded, active, nextId), cache, cacheTick)
    }

    method FindByName(name: string) returns (found: Option<Ref>, matches: nat)
      ensures found == Find(View().roster, name)
      ensures matches == |Alike(View().roster, recorded, name)|
    {
      ghost var l := View().roster;
      matches := 0;
      var firstExact: Option<Ref> := None;
      var firstNormalized: Option<Ref> := None;
      var target := NormalizeSpeciesWhitespace(Some(name));
      var i := 0;
      while i < |recorded|
        invariant 0 <= i <= |recorded|
        invariant firstExact == FirstExact(l, recorded[..i], name)
        invariant matches == |Alike(l, recorded[..i], name)|
        invariant firstNormalized == if matches == 0 then None else Some(Alike(l, recorded[..i], name)[0])
      {
        var candidate := recorded[i];
        assert recorded[..i + 1][..i] == recorded[..i];
        i := i + 1;
        if candidate !in species {
          continue;
        }
        var form := NormalizeSpeciesWhitespace(Some(species[candidate].Name()));
        if form != target {
          continue;
        }
        matches := matches + 1;
        if firstNormalized.None? {
          firstNormalized := Some(candidate);
        }
        if firstExact.None? && species[candidate].Name() == name {
          firstExact := Some(candidate);
        }
      }
      assert recorded[..i] == recorded;
      found := if firstExact.Some? then firstExact else firstNormalized;
    }

    /** Insert `h` where the first active species with a later index stands, or at the end. */
    method InsertActive(h: Ref, index: int)
      requires h !in active
      modifies this`active
      ensures active == InsertAt(old(active), Place(recorded, old(active), index), h)
    {
      var i := 0;
      while i < |active|
        invariant 0 <= i <= |active| && active == old(active)
        invariant forall k | 0 <= k < i :: IndexOf(recorded, active[k]) <= index
      {
        if IndexOf(recorded, active[i]) > index {
          PlaceIs(recorded, active, index, i);
          active := active[..i] + [h] + active[i..];
          break;
        }
        i := i + 1;
      }
      if h !in active {
        PlaceIs(recorded, active, index, i);
        assert active[..i] == active && active[i..] == [];
        active := active + [h];
      }
    }

    method Reactivate(h: Ref)
      modifies this`active
      ensures View() == old(View()).(roster := Reactivated(old(View().roster), h))
    {
      if h in active {
        return;
      }
      InsertActive(h, IndexOf(recorded, h));
    }

    /** The new record: under its root, and among its parent's children. */
    method AddSpecies(identity: Identity, parent: Option<Ref>, newborn: Ref)
      requires newborn !in species && (parent.Some? ==> parent.value in species)
      modifies this`species, this`nextId
      ensures species == old(Grown(View().roster, identity, newborn, parent))
      ensures nextId == old(nextId) + 1
    {
      var id := nextId;
      nextId := nextId + 1;
      if parent.Some? {
        var p := species[parent.value];
        var root := if p.root.Some? then p.root.value else parent.value;
        species := species[parent.value := p.(children := p.children + [newborn])];
        species := species[newborn := Species(id, identity.generic, identity.specific, parent, Some(root), [])];
      } else {
        species := species[newborn := Species(id, identity.generic, identity.specific, None, Some(newborn), [])];
      }
    }

    /** Into the recorded list at `index`, and into the active one where that puts it. */
    method AddAt(index: nat, newborn: Ref)
      requires index <= |recorded| && newborn !in active
      modifies this`recorded, this`active
      ensures recorded == InsertAt(old(recorded), index, newborn)
      ensures active == InsertAt(old(active), Place(recorded, old(active), index), newborn)
    {
      recorded := InsertAt(recorded, index, newborn);
      InsertActive(newborn, index);
    }

    method CreateLocal(identity: Identity, parent: Option<Ref>, newborn: Ref)
      requires newborn !in species && newborn !in active && (parent.Some? ==> parent.value in species)
      modifies this`species, this`recorded, this`active, this`nextId
      ensures View() == old(View()).(roster := Created(old(View().roster), identity, newborn, parent))
    {
      AddSpecies(identity, parent, newborn);
      if parent.Some? {
        AddAt(IndexOf(recorded, parent.value) + 1, newborn);
      } else {
        recorded := recorded + [newborn];
        active := active + [newborn];
      }
    }

    method Resolve(identity: Option<Identity>, simTick: int, newborn: Ref) returns (answer: Option<Ref>, created: bool)
      requires newborn !in species && newborn !in active
      modifies this
      ensures identity.None? ==> answer.None? && !created && View() == old(View())
      ensures identity.Some? ==>
        answer.Some? && (View(), answer.value, created) == Resolved(old(View()), identity.value, simTick, newborn)
    {
      if identity.None? {
        return None, false;
      }
      var name := identity.value.Name();
      if simTick != cacheTick {
        cache := map[];
        cacheTick := simTick;
      }
      var key := NormalizeSpeciesWhitespace(Some(name));
      if key.value in cache {
        return Some(cache[key.value]), false;
      }
      var found, _ := FindByName(name);
      if found.Some? {
        Reactivate(found.value);
        cache := cache[key.value := found.value];
        return found, false;
      }
      var parent := None;
      if identity.value.parent.Some? {
        FindInSpecies(View().roster, ParentName(identity.value));
        var p, _ := FindByName(ParentName(identity.value));
        parent := p;
      }
      CreateLocal(identity.value, parent, newborn);
      cache := cache[key.value := newborn];
      return Some(newborn), true;
    }

    method Rollback(created: Ref)
      requires created in species
      modifies this`species, this`recorded, this`active, this`cache
      ensures View() == UnregisteredBook(old(View()), created)
    {
      cache := cache - {species[created].Name()};
      active := Without(active, created);
      recorded := Without(recorded, created);
      var c := species[created];
      if c.parent.Some? && c.parent.value in species {
        var p := species[c.parent.value];
        species := species[c.parent.value := p.(children := Without(p.children, created))];
      }
      species := species[created := species[created].(parent := None)];
      species := species[created := species[created].(root := Some(created))];
    }

    /** The restored organism has bound a species: a created one it did not bind is taken out. */
    method AdoptTemplate(created: Option<Ref>, bound: Option<Ref>)
      requires created.Some? ==> created.value in species
      modifies this`species, this`recorded, this`active, this`cache
      ensures View() ==
              if created.Some? && bound != created then UnregisteredBook(old(View()), created.value) else old(View())
    {
      if created.None? {
        return;
      }
      if bound != created {
        Rollback(created.value);
      }
    }
  }
}
