/** What the registry keeps: the active list stays the recorded order, every root stays the top
    of its parent chain, a rollback undoes a create, and the per-tick cache answers what a scan
    would (bibites-mod/src/SpeciesRegistry.cs). */
module RegistryLaws {
  import opened ContractA
  import opened Lists
  import opened SpeciesNames
  import opened Registry

  // ---- the invariant -------------------------------------------------------------------

  ghost predicate ListsOk(l: Roster) {
    && Distinct(l.recorded) && InOrder(l.recorded, l.active)
    && forall h | h in l.recorded :: h in l.species
  }

  /** A child is minted after its parent, so parent chains end. */
  ghost predicate ParentOk(sp: map<Ref, Species>, h: Ref)
    requires h in sp
  {
    sp[h].parent.Some? ==> sp[h].parent.value in sp && sp[sp[h].parent.value].id < sp[h].id
  }

  ghost predicate ParentsOk(sp: map<Ref, Species>) {
    forall h | h in sp :: ParentOk(sp, h)
  }

  ghost function Top(sp: map<Ref, Species>, h: Ref): Ref
    requires ParentsOk(sp) && h in sp
    decreases sp[h].id
  {
    assert ParentOk(sp, h);
    if sp[h].parent.None? then h else Top(sp, sp[h].parent.value)
  }

  /** The recorded root is the top of the chain; only a species without a parent may lack one. */
  ghost predicate RootOk(sp: map<Ref, Species>, h: Ref)
    requires ParentsOk(sp) && h in sp
  {
    (sp[h].root.Some? ==> sp[h].root.value == Top(sp, h)) && (sp[h].root.None? ==> sp[h].parent.None?)
  }

  /** The children lists and the parent fields say the same. */
  ghost predicate ChildrenOk(sp: map<Ref, Species>, h: Ref)
    requires h in sp
  {
    && Distinct(sp[h].children)
    && (forall c | c in sp[h].children :: c in sp && sp[c].parent == Some(h))
    && (sp[h].parent.Some? && sp[h].parent.value in sp ==> h in sp[sp[h].parent.value].children)
  }

  ghost predicate ForestOk(l: Roster) {
    && ParentsOk(l.species)
    && (forall h | h in l.species :: l.species[h].id < l.nextId && RootOk(l.species, h) && ChildrenOk(l.species, h))
  }

  ghost predicate RosterOk(l: Roster) {
    ListsOk(l) && ForestOk(l)
  }

  // ---- the forest ----------------------------------------------------------------------

  /** A chain that runs through unchanged records only has the same top. */
  lemma {:induction false} TopFrame(a: map<Ref, Species>, b: map<Ref, Species>, h: Ref, except: Ref)
    requires ParentsOk(a) && ParentsOk(b) && h in a && h != except
    requires forall k | k in a && k != except :: k in b && b[k].parent == a[k].parent && b[k].id == a[k].id
    requires forall k | k in a :: a[k].parent != Some(except)
    ensures Top(a, h) == Top(b, h)
    decreases a[h].id
  {
    assert ParentOk(a, h);
    if a[h].parent.Some? {
      TopFrame(a, b, a[h].parent.value, except);
    }
  }

  /** No record names a species that is not there, as parent or as child. */
  lemma Unmentioned(l: Roster, h: Ref)
    requires ForestOk(l) && h !in l.species
    ensures forall k | k in l.species :: l.species[k].parent != Some(h) && h !in l.species[k].children
  {
    forall k | k in l.species ensures l.species[k].parent != Some(h) && h !in l.species[k].children {
      assert ParentOk(l.species, k) && ChildrenOk(l.species, k);
    }
  }

  /** `b` is `a` with one new species and, at most, longer children lists. */
  ghost predicate Extends(a: map<Ref, Species>, b: map<Ref, Species>, newborn: Ref) {
    && b.Keys == a.Keys + {newborn}
    && forall k | k in a && k != newborn :: b[k] == a[k].(children := b[k].children)
  }

  /** Where a new species goes in the recorded list. */
  function Spot(l: Roster, parent: Option<Ref>): (at: nat)
    ensures at <= |l.recorded|
  {
    if parent.None? then |l.recorded| else IndexOf(l.recorded, parent.value) + 1
  }

  lemma WithChildMeans(species: map<Ref, Species>, parent: Option<Ref>, child: Ref)
    requires child !in species && (parent.Some? ==> parent.value in species)
    ensures var b := WithChild(species, parent, child);
      b.Keys == species.Keys
      && forall k | k in species ::
        b[k] == species[k].(children := species[k].children + if parent == Some(k) then [child] else [])
  {
    forall k | k in species
      ensures WithChild(species, parent, child)[k]
        == species[k].(children := species[k].children + if parent == Some(k) then [child] else [])
    {
      assert species[k].children + [] == species[k].children;
    }
  }

  lemma GrownShape(l: Roster, identity: Identity, newborn: Ref, parent: Option<Ref>)
    requires newborn !in l.species && (parent.Some? ==> parent.value in l.species)
    ensures var sp := Grown(l, identity, newborn, parent);
      && Extends(l.species, sp, newborn) && sp[newborn] == Newborn(l, identity, newborn, parent)
      && forall k | k in l.species ::
        sp[k].children == l.species[k].children + if parent == Some(k) then [newborn] else []
  {
    WithChildMeans(l.species, parent, newborn);
  }

  lemma CreateShape(l: Roster, identity: Identity, newborn: Ref, parent: Option<Ref>)
    requires newborn !in l.species && (parent.Some? ==> parent.value in l.species)
    ensures var m := Created(l, identity, newborn, parent);
      && Extends(l.species, m.species, newborn)
      && m.species[newborn] == Newborn(l, identity, newborn, parent)
      && m.recorded == InsertAt(l.recorded, Spot(l, parent), newborn)
    ensures var m := Created(l, identity, newborn, parent);
      forall k | k in l.species ::
        m.species[k].children == l.species[k].children + if parent == Some(k) then [newborn] else []
  {
    GrownShape(l, identity, newborn, parent);
    AppendIsInsert(l.recorded, newborn);
  }

  lemma ExtendsKeepsParents(a: map<Ref, Species>, b: map<Ref, Species>, newborn: Ref)
    requires ParentsOk(a) && newborn !in a && Extends(a, b, newborn) && ParentOk(b, newborn)
    requires forall k | k in a :: a[k].parent != Some(newborn)
    ensures ParentsOk(b) && forall h | h in a :: Top(b, h) == Top(a, h)
  {
    forall h | h in b ensures ParentOk(b, h) {
      if h != newborn { assert ParentOk(a, h); }
    }
    forall h | h in a ensures Top(b, h) == Top(a, h) {
      TopFrame(a, b, h, newborn);
    }
  }

  lemma GrownParents(l: Roster, identity: Identity, newborn: Ref, parent: Option<Ref>)
    requires ForestOk(l) && newborn !in l.species && (parent.Some? ==> parent.value in l.species)
    ensures ParentsOk(Grown(l, identity, newborn, parent))
    ensures forall h | h in l.species :: Top(Grown(l, identity, newborn, parent), h) == Top(l.species, h)
  {
    GrownShape(l, identity, newborn, parent);
    Unmentioned(l, newborn);
    ExtendsKeepsParents(l.species, Grown(l, identity, newborn, parent), newborn);
  }

  lemma GrownKeepsRoots(l: Roster, identity: Identity, newborn: Ref, parent: Option<Ref>, h: Ref)
    requires ForestOk(l) && newborn !in l.species && (parent.Some? ==> parent.value in l.species)
    requires ParentsOk(Grown(l, identity, newborn, parent)) && h in Grown(l, identity, newborn, parent)
    requires forall k | k in l.species :: Top(Grown(l, identity, newborn, parent), k) == Top(l.species, k)
    ensures var sp := Grown(l, identity, newborn, parent); RootOk(sp, h) && sp[h].id < l.nextId + 1
  {
    GrownShape(l, identity, newborn, parent);
    var sp := Grown(l, identity, newborn, parent);
    if h != newborn {
      assert RootOk(l.species, h);
    } else if parent.Some? {
      assert RootOk(l.species, parent.value) && Top(sp, newborn) == Top(sp, parent.value);
    }
  }

  lemma CreateKeepsForest(l: Roster, identity: Identity, newborn: Ref, parent: Option<Ref>)
    requires ForestOk(l) && newborn !in l.species && (parent.Some? ==> parent.value in l.species)
    ensures ForestOk(Created(l, identity, newborn, parent))
  {
    var l' := Created(l, identity, newborn, parent);
    GrownParents(l, identity, newborn, parent);
    forall h | h in l'.species
      ensures RootOk(l'.species, h) && l'.species[h].id < l'.nextId && ChildrenOk(l'.species, h)
    {
      GrownKeepsRoots(l, identity, newborn, parent, h);
      GrownKeepsChildren(l, identity, newborn, parent, h);
    }
  }

  lemma GrownKeepsChildren(l: Roster, identity: Identity, newborn: Ref, parent: Option<Ref>, h: Ref)
    requires ForestOk(l) && newborn !in l.species && (parent.Some? ==> parent.value in l.species)
    requires h in Grown(l, identity, newborn, parent)
    ensures ChildrenOk(Grown(l, identity, newborn, parent), h)
  {
    GrownShape(l, identity, newborn, parent);
    Unmentioned(l, newborn);
    if h != newborn {
      assert ChildrenOk(l.species, h) && ParentOk(l.species, h);
      ExtendsKeepsChildren(l.species, Grown(l, identity, newborn, parent), newborn, parent, h);
    }
  }

  lemma ExtendsKeepsChildren(a: map<Ref, Species>, b: map<Ref, Species>, newborn: Ref, parent: Option<Ref>, h: Ref)
    requires newborn !in a && Extends(a, b, newborn) && b[newborn].parent == parent
    requires h in a && ChildrenOk(a, h) && ParentOk(a, h) && newborn !in a[h].children && a[h].parent != Some(newborn)
    requires forall k | k in a :: b[k].children == a[k].children + (if parent == Some(k) then [newborn] else [])
    ensures ChildrenOk(b, h)
  {
    if parent == Some(h) { DistinctAppend(a[h].children, newborn); }
    forall c | c in b[h].children ensures c in b && b[c].parent == Some(h) {
      if c != newborn { assert c in a[h].children; }
    }
  }

  lemma ChildlessMeans(l: Roster, h: Ref)
    requires ForestOk(l) && h in l.species && l.species[h].children == []
    ensures forall k | k in l.species :: l.species[k].parent != Some(h)
  {
    forall k | k in l.species ensures l.species[k].parent != Some(h) {
      assert ChildrenOk(l.species, k);
    }
  }

  /** `b` is `a` with one species cut loose and, at most, shorter children lists. */
  ghost predicate Cuts(a: map<Ref, Species>, b: map<Ref, Species>, created: Ref) {
    && b.Keys == a.Keys && created in a
    && b[created] == a[created].(parent := None, root := Some(created), children := b[created].children)
    && forall k | k in a && k != created :: b[k] == a[k].(children := b[k].children)
  }

  lemma CutsKeepsRoots(a: map<Ref, Species>, b: map<Ref, Species>, created: Ref)
    requires ParentsOk(a) && Cuts(a, b, created)
    requires forall k | k in a :: a[k].parent != Some(created)
    requires forall h | h in a :: RootOk(a, h)
    ensures ParentsOk(b) && forall h | h in b :: RootOk(b, h)
  {
    forall h | h in b ensures ParentOk(b, h) { assert ParentOk(a, h); }
    forall h | h in b ensures RootOk(b, h) {
      if h != created {
        TopFrame(a, b, h, created);
        assert RootOk(a, h);
      }
    }
  }

  lemma RollbackShape(l: Roster, created: Ref)
    requires created in l.species && l.species[created].parent != Some(created)
    ensures var b := RolledBack(l, created).species;
      && Cuts(l.species, b, created) && b[created].children == l.species[created].children
      && forall k | k in l.species && k != created ::
        b[k].children == if l.species[created].parent == Some(k) then Without(l.species[k].children, created)
                         else l.species[k].children
  {
  }

  lemma CutsKeepsChildren(a: map<Ref, Species>, b: map<Ref, Species>, created: Ref, h: Ref)
    requires Cuts(a, b, created) && h in a && b[created].children == [] && a[created].parent != Some(created)
    requires forall k | k in a :: ParentOk(a, k) && ChildrenOk(a, k) && a[k].parent != Some(created)
    requires forall k | k in a && k != created ::
      b[k].children == if a[created].parent == Some(k) then Without(a[k].children, created) else a[k].children
    ensures ChildrenOk(b, h)
  {
    assert ChildrenOk(a, h) && ParentOk(a, h);
    WithoutMeans(a[h].children, created);
    if h != created {
      forall c | c in b[h].children ensures c in b && b[c].parent == Some(h) {
        assert c in a[h].children && c != created;
      }
      if a[h].parent.Some? {
        var p := a[h].parent.value;
        assert ChildrenOk(a, p);
        WithoutMeans(a[p].children, created);
      }
    }
  }

  lemma ChildlessKeepsForest(l: Roster, created: Ref)
    requires ForestOk(l) && created in l.species && l.species[created].children == []
    ensures ForestOk(RolledBack(l, created))
  {
    ChildlessMeans(l, created);
    assert ParentOk(l.species, created);
    RollbackShape(l, created);
    var a, b := l.species, RolledBack(l, created).species;
    CutsKeepsRoots(a, b, created);
    forall k | k in a ensures ParentOk(a, k) { }
    forall h | h in b ensures ChildrenOk(b, h) { CutsKeepsChildren(a, b, created, h); }
  }

  lemma {:induction false} TopSame(a: map<Ref, Species>, b: map<Ref, Species>, h: Ref)
    requires ParentsOk(a) && ParentsOk(b) && h in a
    requires forall k | k in a :: k in b && b[k].parent == a[k].parent && b[k].id == a[k].id
    ensures Top(a, h) == Top(b, h)
    decreases a[h].id
  {
    assert ParentOk(a, h);
    if a[h].parent.Some? { TopSame(a, b, a[h].parent.value); }
  }

  /** Without a parent the species is its own root already, children or not. */
  lemma OrphanKeepsForest(l: Roster, created: Ref)
    requires ForestOk(l) && created in l.species && l.species[created].parent.None?
    ensures ForestOk(RolledBack(l, created))
  {
    var a, b := l.species, RolledBack(l, created).species;
    assert b == a[created := a[created].(root := Some(created))];
    forall h | h in b ensures ParentOk(b, h) { assert ParentOk(a, h); }
    forall h | h in b ensures RootOk(b, h) && ChildrenOk(b, h) {
      TopSame(a, b, h);
      assert RootOk(a, h) && ChildrenOk(a, h);
    }
  }

  lemma {:induction false} TopIsOldest(sp: map<Ref, Species>, h: Ref)
    requires ParentsOk(sp) && h in sp
    ensures Top(sp, h) in sp && sp[Top(sp, h)].id <= sp[h].id
    decreases sp[h].id
  {
    assert ParentOk(sp, h);
    if sp[h].parent.Some? { TopIsOldest(sp, sp[h].parent.value); }
  }

  /** A child keeps the root it had through the species that is cut loose, and is wrong then. */
  lemma ChildLosesRoot(l: Roster, created: Ref)
    requires ForestOk(l) && created in l.species
    requires l.species[created].children != [] && l.species[created].parent.Some?
    ensures !ForestOk(RolledBack(l, created))
  {
    var a, b, child := l.species, RolledBack(l, created).species, l.species[created].children[0];
    assert child in a[created].children;
    assert ParentOk(a, created) && ChildrenOk(a, created) && ParentOk(a, child) && RootOk(a, child);
    TopIsOldest(a, a[created].parent.value);
    assert a[child].root == Some(Top(a, created)) && Top(a, created) != created;
    RollbackShape(l, created);
    if ParentsOk(b) {
      assert Top(b, created) == created && Top(b, child) == created;
      assert !RootOk(b, child);
    }
  }

  /** Taking a species out again keeps every root right exactly when it has no children or had no
      parent: it is cut loose from its parent, and nothing is told to its descendants. */
  lemma RollbackKeepsForest(l: Roster, created: Ref)
    requires ForestOk(l) && created in l.species
    ensures ForestOk(RolledBack(l, created)) <==> l.species[created].children == [] || l.species[created].parent.None?
  {
    if l.species[created].children == [] {
      ChildlessKeepsForest(l, created);
    } else if l.species[created].parent.None? {
      OrphanKeepsForest(l, created);
    } else {
      ChildLosesRoot(l, created);
    }
  }

  // ---- the lists -----------------------------------------------------------------------

  lemma ReactivateKeeps(l: Roster, h: Ref)
    requires RosterOk(l) && h in l.recorded
    ensures RosterOk(Reactivated(l, h)) && h in Reactivated(l, h).active
  {
    if h !in l.active {
      InsertKeepsOrder(l.recorded, l.active, h);
    }
  }

  lemma CreateKeepsLists(l: Roster, identity: Identity, newborn: Ref, parent: Option<Ref>)
    requires ListsOk(l) && newborn !in l.species && (parent.Some? ==> parent.value in l.species)
    ensures ListsOk(Created(l, identity, newborn, parent))
    ensures newborn in Created(l, identity, newborn, parent).active
  {
    var l' := Created(l, identity, newborn, parent);
    var at := if parent.None? then |l.recorded| else IndexOf(l.recorded, parent.value) + 1;
    AppendIsInsert(l.recorded, newborn);
    AppendIsInsert(l.active, newborn);
    InsertShifts(l.recorded, at, newborn);
    InsertKeepsOthers(l.recorded, l.active, at, newborn);
    InsertMembers(l.recorded, at, newborn);
    if parent.None? {
      PlaceAtEnd(l'.recorded, l.active, at);
    }
    InsertKeepsOrder(l'.recorded, l.active, newborn);
  }

  lemma {:induction false} PlaceAtEnd(recorded: seq<Ref>, active: seq<Ref>, index: nat)
    requires index == |recorded| - 1
    ensures Place(recorded, active, index) == |active|
  {
  }

  /** Every registry operation keeps the lists and the forest. */
  lemma CreateKeeps(l: Roster, identity: Identity, newborn: Ref, parent: Option<Ref>)
    requires RosterOk(l) && newborn !in l.species && (parent.Some? ==> parent.value in l.species)
    ensures RosterOk(Created(l, identity, newborn, parent))
  {
    CreateKeepsLists(l, identity, newborn, parent);
    CreateKeepsForest(l, identity, newborn, parent);
  }

  /** A created species stands right behind its parent in the recorded list. */
  lemma CreatedBehindParent(l: Roster, identity: Identity, newborn: Ref, parent: Ref)
    requires RosterOk(l) && newborn !in l.species && parent in l.recorded
    ensures var r := Created(l, identity, newborn, Some(parent)).recorded;
      IndexOf(r, newborn) == IndexOf(r, parent) + 1
  {
    InsertShifts(l.recorded, IndexOf(l.recorded, parent) + 1, newborn);
  }

  /** Create, then roll back: both lists and every other species, the parent's children
      included, are exactly what they were. Only the id stays burnt. */
  lemma RollbackUndoesCreate(l: Roster, identity: Identity, newborn: Ref, parent: Option<Ref>)
    requires RosterOk(l) && newborn !in l.species && (parent.Some? ==> parent.value in l.species)
    ensures var u := RolledBack(Created(l, identity, newborn, parent), newborn);
      && u.recorded == l.recorded && u.active == l.active
      && u.species - {newborn} == l.species && u.nextId == l.nextId + 1
  {
    CreateShape(l, identity, newborn, parent);
    RemoveInserted(l.recorded, Spot(l, parent), newborn);
    UndoActive(l, identity, newborn, parent);
    UndoSpecies(l, identity, newborn, parent);
  }

  /** So the rolled-back registry is as sound as the one before. */
  lemma RollbackKeeps(l: Roster, identity: Identity, newborn: Ref, parent: Option<Ref>)
    requires RosterOk(l) && newborn !in l.species && (parent.Some? ==> parent.value in l.species)
    ensures RosterOk(RolledBack(Created(l, identity, newborn, parent), newborn))
  {
    var c := Created(l, identity, newborn, parent);
    CreateShape(l, identity, newborn, parent);
    CreateKeeps(l, identity, newborn, parent);
    RollbackUndoesCreate(l, identity, newborn, parent);
    RollbackKeepsForest(c, newborn);
    assert forall h | h in l.species :: h in RolledBack(c, newborn).species - {newborn};
  }

  lemma UndoActive(l: Roster, identity: Identity, newborn: Ref, parent: Option<Ref>)
    requires newborn !in l.species && newborn !in l.active && (parent.Some? ==> parent.value in l.species)
    ensures Without(Created(l, identity, newborn, parent).active, newborn) == l.active
  {
    if parent.None? {
      AppendIsInsert(l.active, newborn);
      RemoveInserted(l.active, |l.active|, newborn);
    } else {
      RemoveInserted(l.active, Place(InsertAt(l.recorded, Spot(l, parent), newborn), l.active, Spot(l, parent)),
        newborn);
    }
  }

  lemma UndoOne(l: Roster, identity: Identity, newborn: Ref, parent: Option<Ref>, k: Ref)
    requires ForestOk(l) && newborn !in l.species && (parent.Some? ==> parent.value in l.species) && k in l.species
    ensures var u := RolledBack(Created(l, identity, newborn, parent), newborn).species;
      k in u && u[k] == l.species[k]
  {
    CreateShape(l, identity, newborn, parent);
    RollbackShape(Created(l, identity, newborn, parent), newborn);
    Unmentioned(l, newborn);
    if parent == Some(k) {
      var children := l.species[k].children;
      AppendIsInsert(children, newborn);
      RemoveInserted(children, |children|, newborn);
    } else {
      assert l.species[k].children + [] == l.species[k].children;
    }
  }

  lemma UndoSpecies(l: Roster, identity: Identity, newborn: Ref, parent: Option<Ref>)
    requires ForestOk(l) && newborn !in l.species && (parent.Some? ==> parent.value in l.species)
    ensures RolledBack(Created(l, identity, newborn, parent), newborn).species - {newborn} == l.species
  {
    CreateShape(l, identity, newborn, parent);
    RollbackShape(Created(l, identity, newborn, parent), newborn);
    var u := RolledBack(Created(l, identity, newborn, parent), newborn).species;
    forall k | k in l.species ensures k in u && u[k] == l.species[k] {
      UndoOne(l, identity, newborn, parent, k);
    }
    WithoutNewborn(l.species, u, newborn);
  }

  lemma WithoutNewborn(a: map<Ref, Species>, u: map<Ref, Species>, newborn: Ref)
    requires newborn !in a && u.Keys == a.Keys + {newborn}
    requires forall k | k in a :: u[k] == a[k]
    ensures u - {newborn} == a
  {
  }

  // ---- the cache -----------------------------------------------------------------------

  /** Every cached answer is what a scan for its key would give, and is active. */
  ghost predicate CacheOk(b: Book) {
    forall key | key in b.cache :: Find(b.roster, key) == Some(b.cache[key]) && b.cache[key] in b.roster.active
  }

  lemma {:induction false} FindIgnoresActive(l: Roster, m: Roster, list: seq<Ref>, name: string)
    requires forall h | h in list :: AlikeTo(l, h, name) == AlikeTo(m, h, name)
    requires forall h | h in list && h in l.species :: h in m.species && m.species[h].Name() == l.species[h].Name()
    ensures Alike(l, list, name) == Alike(m, list, name) && FirstExact(l, list, name) == FirstExact(m, list, name)
  {
    if list != [] {
      assert list == list[..|list| - 1] + [list[|list| - 1]];
      FindIgnoresActive(l, m, list[..|list| - 1], name);
    }
  }

  /** A species that is not alike is invisible to the lookup, wherever it stands. */
  lemma {:induction false} FindIgnoresOthers(l: Roster, before: seq<Ref>, after: seq<Ref>, h: Ref, name: string)
    requires !AlikeTo(l, h, name)
    ensures Alike(l, before + [h] + after, name) == Alike(l, before + after, name)
    ensures FirstExact(l, before + [h] + after, name) == FirstExact(l, before + after, name)
    decreases |after|
  {
    if after == [] {
      assert (before + [h] + after)[..|before|] == before && before + after == before;
    } else {
      var n := |after| - 1;
      assert (before + [h] + after)[..|before| + 1 + n] == before + [h] + after[..n];
      assert (before + after)[..|before| + n] == before + after[..n];
      FindIgnoresOthers(l, before, after[..n], h, name);
    }
  }

  lemma ReactivateFinds(l: Roster, h: Ref, name: string)
    ensures Find(Reactivated(l, h), name) == Find(l, name)
  {
    FindIgnoresActive(l, Reactivated(l, h), l.recorded, name);
  }

  /** A newly created species is found under its own name only. */
  lemma CreateFinds(l: Roster, identity: Identity, newborn: Ref, parent: Option<Ref>, name: string)
    requires RosterOk(l) && newborn !in l.species && (parent.Some? ==> parent.value in l.species)
    requires Normalized(identity.Name()) != Normalized(name)
    ensures Find(Created(l, identity, newborn, parent), name) == Find(l, name)
  {
    CreateShape(l, identity, newborn, parent);
    ExtendedFinds(l, Created(l, identity, newborn, parent), newborn, Spot(l, parent), name);
  }

  lemma ExtendedFinds(l: Roster, m: Roster, newborn: Ref, at: nat, name: string)
    requires ListsOk(l) && newborn !in l.species && Extends(l.species, m.species, newborn)
    requires at <= |l.recorded| && m.recorded == InsertAt(l.recorded, at, newborn)
    requires Normalized(m.species[newborn].Name()) != Normalized(name)
    ensures Find(m, name) == Find(l, name)
  {
    FindIgnoresOthers(m, l.recorded[..at], l.recorded[at..], newborn, name);
    assert l.recorded[..at] + l.recorded[at..] == l.recorded;
    FindIgnoresActive(l, m, l.recorded, name);
  }

  lemma CreateIsFound(l: Roster, identity: Identity, newborn: Ref, parent: Option<Ref>)
    requires RosterOk(l) && newborn !in l.species && (parent.Some? ==> parent.value in l.species)
    requires Find(l, identity.Name()).None?
    ensures Find(Created(l, identity, newborn, parent), identity.Name()) == Some(newborn)
  {
    CreateShape(l, identity, newborn, parent);
    InsertMembers(l.recorded, Spot(l, parent), newborn);
    NewNameIsFound(l, Created(l, identity, newborn, parent), newborn);
  }

  lemma NewNameIsFound(l: Roster, m: Roster, newborn: Ref)
    requires ListsOk(l) && newborn !in l.species && Extends(l.species, m.species, newborn)
    requires forall h :: h in m.recorded <==> h == newborn || h in l.recorded
    requires Find(l, m.species[newborn].Name()).None?
    ensures Find(m, m.species[newborn].Name()) == Some(newborn)
  {
    var name := m.species[newborn].Name();
    FindMeans(l, name);
    FindMeans(m, name);
    forall h | h in m.recorded && h != newborn ensures h in m.species && Words(m.species[h].Name()) != Words(name) {
      assert h in l.recorded && m.species[h].Name() == l.species[h].Name();
    }
  }

  lemma ReactivateKeepsCache(l: Roster, cache: map<string, Ref>, tick: int, name: string)
    requires RosterOk(l) && CacheOk(Book(l, cache, tick)) && Find(l, name).Some?
    ensures var h := Find(l, name).value; var b' := Book(Reactivated(l, h), cache[name := h], tick);
      RosterOk(b'.roster) && CacheOk(b') && Find(b'.roster, name) == Some(h)
  {
    var h := Find(l, name).value;
    FindInSpecies(l, name);
    ReactivateKeeps(l, h);
    ReactivatedGrows(l, h);
    forall key ensures Find(Reactivated(l, h), key) == Find(l, key) {
      ReactivateFinds(l, h, key);
    }
    CacheGrows(l, Reactivated(l, h), cache, tick, name, h);
  }

  lemma CreateKeepsCache(l: Roster, cache: map<string, Ref>, tick: int, identity: Identity, newborn: Ref,
        parent: Option<Ref>)
    requires RosterOk(l) && CacheOk(Book(l, cache, tick)) && Find(l, identity.Name()).None?
    requires newborn !in l.species && (parent.Some? ==> parent.value in l.species)
    ensures var b' := Book(Created(l, identity, newborn, parent), cache[identity.Name() := newborn], tick);
      && RosterOk(b'.roster)
      && CacheOk(b')
      && Find(b'.roster, identity.Name()) == Some(newborn)
      && newborn in b'.roster.active
  {
    CreateKeeps(l, identity, newborn, parent);
    CreateIsFound(l, identity, newborn, parent);
    CreatedGrows(l, identity, newborn, parent);
    forall key | key in cache ensures Find(Created(l, identity, newborn, parent), key) == Find(l, key) {
      CreateFindsCached(l, cache, tick, identity, newborn, parent, key);
    }
    CacheGrows(l, Created(l, identity, newborn, parent), cache, tick, identity.Name(), newborn);
  }

  lemma CreateFindsCached(l: Roster, cache: map<string, Ref>, tick: int, identity: Identity, newborn: Ref,
        parent: Option<Ref>, key: string)
    requires RosterOk(l) && CacheOk(Book(l, cache, tick)) && Find(l, identity.Name()).None? && key in cache
    requires newborn !in l.species && (parent.Some? ==> parent.value in l.species)
    ensures Find(Created(l, identity, newborn, parent), key) == Find(l, key)
  {
    assert Find(l, key) == Some(cache[key]);
    CachedKeysAreTidy(l, key, identity.Name());
    CreateFinds(l, identity, newborn, parent, key);
  }

  lemma CacheGrows(l: Roster, m: Roster, cache: map<string, Ref>, tick: int, name: string, h: Ref)
    requires CacheOk(Book(l, cache, tick)) && (forall key | key in cache :: Find(m, key) == Find(l, key))
    requires forall k | k in l.active :: k in m.active
    requires Find(m, name) == Some(h) && h in m.active
    ensures CacheOk(Book(m, cache[name := h], tick))
  {
    forall key | key in cache[name := h]
      ensures Find(m, key) == Some(cache[name := h][key]) && cache[name := h][key] in m.active
    {
      if key != name { assert Find(l, key) == Some(cache[key]); }
    }
  }

  /** Arriving names in normal form keep the cache right. */
  lemma ResolveKeeps(b: Book, identity: Identity, tick: int, newborn: Ref)
    requires RosterOk(b.roster) && CacheOk(b) && newborn !in b.roster.species && Tidy(identity.Name())
    ensures var (b', h, created) := Resolved(b, identity, tick, newborn);
      && RosterOk(b'.roster) && CacheOk(b') && h in b'.roster.active
      && Find(b'.roster, identity.Name()) == Some(h)
  {
    var l, name := b.roster, identity.Name();
    var cache := if tick == b.tick then b.cache else map[];
    NormalIffTidy(name);
    if name !in cache {
      if Find(l, name).Some? {
        ReactivateKeepsCache(l, cache, tick, name);
      } else {
        FindInSpecies(l, if identity.parent.Some? then ParentName(identity) else "");
        CreateKeepsCache(l, cache, tick, identity, newborn,
          if identity.parent.Some? then Find(l, ParentName(identity)) else None);
      }
    }
  }

  /** A key with an answer and a name without one do not normalize alike. */
  lemma CachedKeysAreTidy(l: Roster, key: string, name: string)
    requires Find(l, key).Some? && Find(l, name).None?
    ensures Normalized(name) != Normalized(key)
  {
    FindMeans(l, key);
    FindMeans(l, name);
    NormalizeAlikeIff(name, key);
  }

  lemma ReactivatedGrows(l: Roster, h: Ref)
    ensures forall k | k in l.active :: k in Reactivated(l, h).active
  {
    if h !in l.active { InsertMembers(l.active, Place(l.recorded, l.active, IndexOf(l.recorded, h)), h); }
  }

  lemma CreatedGrows(l: Roster, identity: Identity, newborn: Ref, parent: Option<Ref>)
    requires newborn !in l.species && (parent.Some? ==> parent.value in l.species)
    ensures newborn in Created(l, identity, newborn, parent).active
    ensures forall k | k in l.active :: k in Created(l, identity, newborn, parent).active
  {
    if parent.Some? {
      var index := IndexOf(l.recorded, parent.value) + 1;
      InsertMembers(l.active, Place(InsertAt(l.recorded, index, newborn), l.active, index), newborn);
    }
  }

  // ---- what a resolve does -------------------------------------------------------------

  /** Recorded species `i` has these words. */
  ghost predicate WordsAt(l: Roster, i: int, name: string) {
    0 <= i < |l.recorded| && l.recorded[i] in l.species && Words(l.species[l.recorded[i]].Name()) == Words(name)
  }

  ghost predicate ExactAt(l: Roster, i: int, name: string) {
    0 <= i < |l.recorded| && l.recorded[i] in l.species && l.species[l.recorded[i]].Name() == name
  }

  /** The species a name means here: the first recorded one that carries it byte for byte, or else
      the first that has its words. */
  ghost predicate Means(l: Roster, name: string, h: Ref) {
    if exists i :: ExactAt(l, i, name)
    then exists i :: ExactAt(l, i, name) && l.recorded[i] == h && forall j | 0 <= j < i :: !ExactAt(l, j, name)
    else exists i :: WordsAt(l, i, name) && l.recorded[i] == h && forall j | 0 <= j < i :: !WordsAt(l, j, name)
  }

  lemma {:induction false} FirstExactIsFirst(l: Roster, n: nat, name: string)
    requires n <= |l.recorded|
    ensures var f := FirstExact(l, l.recorded[..n], name);
      if f.None? then forall i | 0 <= i < n :: !ExactAt(l, i, name)
      else exists i :: 0 <= i < n && ExactAt(l, i, name) && l.recorded[i] == f.value
                       && forall j | 0 <= j < i :: !ExactAt(l, j, name)
  {
    if n > 0 {
      assert l.recorded[..n][..n - 1] == l.recorded[..n - 1];
      FirstExactIsFirst(l, n - 1, name);
      if ExactAt(l, n - 1, name) { NormalizeAlikeIff(l.species[l.recorded[n - 1]].Name(), name); }
    }
  }

  lemma {:induction false} AlikeIsFirst(l: Roster, n: nat, name: string)
    requires n <= |l.recorded|
    ensures var alike := Alike(l, l.recorded[..n], name);
      if alike == [] then forall i | 0 <= i < n :: !WordsAt(l, i, name)
      else exists i :: 0 <= i < n && WordsAt(l, i, name) && l.recorded[i] == alike[0]
                       && forall j | 0 <= j < i :: !WordsAt(l, j, name)
  {
    if n > 0 {
      assert l.recorded[..n][..n - 1] == l.recorded[..n - 1];
      AlikeIsFirst(l, n - 1, name);
      if l.recorded[n - 1] in l.species { NormalizeAlikeIff(l.species[l.recorded[n - 1]].Name(), name); }
      assert WordsAt(l, n - 1, name) <==> AlikeTo(l, l.recorded[n - 1], name);
    }
  }

  /** The lookup finds the species the name means, and misses exactly when no recorded species has
      its words. */
  lemma FindIsFirst(l: Roster, name: string)
    ensures Find(l, name).None? <==> forall i :: !WordsAt(l, i, name)
    ensures Find(l, name).Some? ==> Means(l, name, Find(l, name).value)
  {
    FirstExactIsFirst(l, |l.recorded|, name);
    AlikeIsFirst(l, |l.recorded|, name);
    assert l.recorded[..|l.recorded|] == l.recorded;
    assert forall i :: ExactAt(l, i, name) ==> WordsAt(l, i, name);
  }

  /** An arrival founds a species exactly when its name is not cached in this tick and no recorded
      species has its words. */
  lemma CreatesIff(b: Book, identity: Identity, tick: int, newborn: Ref)
    requires newborn !in b.roster.species
    ensures Resolved(b, identity, tick, newborn).2
       <==> (tick == b.tick ==> Normalized(identity.Name()) !in b.cache)
            && forall i :: !WordsAt(b.roster, i, identity.generic + " " + identity.specific)
  {
    FindIsFirst(b.roster, identity.Name());
  }

  /** A name that is scanned for and found: the species it means is the answer. It is active then,
      in recorded order, and nothing else changes. */
  lemma FoundMeans(b: Book, identity: Identity, tick: int, newborn: Ref)
    requires RosterOk(b.roster) && newborn !in b.roster.species
    requires !Resolved(b, identity, tick, newborn).2 && (tick == b.tick ==> Normalized(identity.Name()) !in b.cache)
    ensures var (b', h, _) := Resolved(b, identity, tick, newborn); var l, m := b.roster, b'.roster;
      && Means(l, identity.generic + " " + identity.specific, h)
      && m.species == l.species && m.recorded == l.recorded && m.nextId == l.nextId
      && InOrder(m.recorded, m.active) && forall k :: k in m.active <==> k in l.active || k == h
  {
    var l, h := b.roster, Resolved(b, identity, tick, newborn).1;
    FindIsFirst(l, identity.Name());
    FindInSpecies(l, identity.Name());
    ReactivateKeeps(l, h);
    if h !in l.active { InsertMembers(l.active, Place(l.recorded, l.active, IndexOf(l.recorded, h)), h); }
  }

  /** The species of this arrival's parent, if the arrival names one and it is known here. */
  ghost predicate KnownParent(l: Roster, identity: Identity) {
    identity.parent.Some? && exists i :: WordsAt(l, i, identity.parent.value.0 + " " + identity.parent.value.1)
  }

  /** A founded species carries the arrival's two halves unchanged under the next id; no other
      species changes, but for its parent's list of children. */
  lemma FoundedMeans(b: Book, identity: Identity, tick: int, newborn: Ref)
    requires RosterOk(b.roster) && newborn !in b.roster.species && Resolved(b, identity, tick, newborn).2
    ensures var (b', h, _) := Resolved(b, identity, tick, newborn); var l, m := b.roster, b'.roster;
      && h == newborn && m.species.Keys == l.species.Keys + {newborn}
      && m.nextId == l.nextId + 1 && RosterOk(m)
      && var sp := m.species[newborn];
         && sp.generic == identity.generic && sp.specific == identity.specific && sp.id == l.nextId && sp.children == []
         && (sp.parent.Some? <==> KnownParent(l, identity))
         && (forall k | k in l.species ::
              m.species[k] == if sp.parent == Some(k) then l.species[k].(children := l.species[k].children + [newborn])
                              else l.species[k])
         && (forall k :: k in m.active <==> k in l.active || k == newborn)
  {
    var l := b.roster;
    var parent := ParentOf(l, identity);
    FindInSpecies(l, if identity.parent.Some? then ParentName(identity) else "");
    if identity.parent.Some? { FindIsFirst(l, ParentName(identity)); }
    CreateShape(l, identity, newborn, parent);
    CreateKeeps(l, identity, newborn, parent);
    if parent.Some? {
      var index := IndexOf(l.recorded, parent.value) + 1;
      InsertMembers(l.active, Place(InsertAt(l.recorded, index, newborn), l.active, index), newborn);
    }
    NoChildNothingNew(l, Created(l, identity, newborn, parent), newborn, parent);
  }

  ghost function ParentOf(l: Roster, identity: Identity): Option<Ref> {
    if identity.parent.Some? then Find(l, ParentName(identity)) else None
  }

  /** Within a tick an answer is remembered under the words of its name, and given again without a
      scan; another tick starts with nothing remembered. */
  lemma AnswerIsRemembered(b: Book, identity: Identity, tick: int, newborn: Ref)
    requires newborn !in b.roster.species
    ensures var (b', h, created) := Resolved(b, identity, tick, newborn);
      var key := Normalized(identity.generic + " " + identity.specific);
      var kept := if tick == b.tick then b.cache else map[];
      && b'.tick == tick && b'.cache == kept[key := h]
      && (key in kept ==> h == kept[key] && !created && b'.roster == b.roster)
  {
    FindInSpecies(b.roster, if identity.parent.Some? then ParentName(identity) else "");
    var kept := if tick == b.tick then b.cache else map[];
    var key := Normalized(identity.Name());
    if key in kept { assert kept[key := kept[key]] == kept; }
  }

  lemma NoChildNothingNew(l: Roster, m: Roster, newborn: Ref, parent: Option<Ref>)
    requires newborn !in l.species && Extends(l.species, m.species, newborn)
    requires forall k | k in l.species ::
      m.species[k].children == l.species[k].children + if parent == Some(k) then [newborn] else []
    ensures forall k | k in l.species ::
      m.species[k] == if parent == Some(k) then l.species[k].(children := l.species[k].children + [newborn])
                      else l.species[k]
  {
    forall k | k in l.species ensures l.species[k].children + [] == l.species[k].children {}
  }

  /** `newborn` has joined the list directly behind `p`. */
  ghost predicate JoinedBehind(before: seq<Ref>, after: seq<Ref>, p: Ref, newborn: Ref) {
    exists i :: 0 <= i < |before| && before[i] == p && after == before[..i + 1] + [newborn] + before[i + 1..]
  }

  /** The last child of `p`, under its root and directly behind it in the recorded list. */
  ghost predicate LastChildOf(l: Roster, m: Roster, p: Ref, newborn: Ref) {
    && p in l.species && p in m.species && newborn in m.species && m.species[newborn].parent == Some(p)
    && m.species[p].children == l.species[p].children + [newborn]
    && m.species[newborn].root == (if l.species[p].root.Some? then l.species[p].root else Some(p))
    && JoinedBehind(l.recorded, m.recorded, p, newborn)
  }

  lemma CreatedUnder(l: Roster, identity: Identity, newborn: Ref, p: Ref)
    requires newborn !in l.species && p in l.species && p in l.recorded
    ensures LastChildOf(l, Created(l, identity, newborn, Some(p)), p, newborn)
  {
    CreateShape(l, identity, newborn, Some(p));
    var i := IndexOf(l.recorded, p);
    assert l.recorded[i] == p;
    assert JoinedBehind(l.recorded, Created(l, identity, newborn, Some(p)).recorded, p, newborn);
  }

  /** With a parent known here, a founded species is its last child, of the species the parent's
      name means, under that one's root and directly behind it in the recorded list. */
  lemma FoundedUnderParent(b: Book, identity: Identity, tick: int, newborn: Ref)
    requires RosterOk(b.roster) && newborn !in b.roster.species && Resolved(b, identity, tick, newborn).2
    requires KnownParent(b.roster, identity)
    ensures var l, m := b.roster, Resolved(b, identity, tick, newborn).0.roster;
      && newborn in m.species && m.species[newborn].parent.Some?
      && var p := m.species[newborn].parent.value;
         Means(l, identity.parent.value.0 + " " + identity.parent.value.1, p) && LastChildOf(l, m, p, newborn)
  {
    var l := b.roster;
    FindIsFirst(l, ParentName(identity));
    FindInSpecies(l, ParentName(identity));
    CreatedUnder(l, identity, newborn, Find(l, ParentName(identity)).value);
  }

  /** Without one it is its own root, at the end of both lists. */
  lemma FoundedAlone(b: Book, identity: Identity, tick: int, newborn: Ref)
    requires RosterOk(b.roster) && newborn !in b.roster.species && Resolved(b, identity, tick, newborn).2
    requires !KnownParent(b.roster, identity)
    ensures var l, m := b.roster, Resolved(b, identity, tick, newborn).0.roster;
      && newborn in m.species && m.species[newborn].parent == None && m.species[newborn].root == Some(newborn)
      && m.recorded == l.recorded + [newborn] && m.active == l.active + [newborn]
  {
    if identity.parent.Some? { FindIsFirst(b.roster, ParentName(identity)); }
  }

  // ---- whole ticks ---------------------------------------------------------------------

  /** Whatever the name, a resolve keeps the lists and the forest. */
  lemma ResolveKeepsRoster(b: Book, identity: Identity, tick: int, newborn: Ref)
    requires RosterOk(b.roster) && newborn !in b.roster.species
    ensures RosterOk(Resolved(b, identity, tick, newborn).0.roster)
  {
    var l, name := b.roster, identity.Name();
    FindInSpecies(l, name);
    if Find(l, name).Some? {
      ReactivateKeeps(l, Find(l, name).value);
    } else {
      FindInSpecies(l, if identity.parent.Some? then ParentName(identity) else "");
      CreateKeeps(l, identity, newborn, if identity.parent.Some? then Find(l, ParentName(identity)) else None);
    }
  }

  /** One arrival in normal form gets the same species, and leaves the same registry, whether or
      not the cache is consulted. */
  lemma CacheIsTransparent(b: Book, identity: Identity, tick: int, newborn: Ref)
    requires RosterOk(b.roster) && CacheOk(b) && newborn !in b.roster.species && Tidy(identity.Name())
    ensures var cached := Resolved(b, identity, tick, newborn);
      var scanned := Resolved(b.(cache := map[]), identity, tick, newborn);
      cached.1 == scanned.1 && cached.2 == scanned.2 && cached.0.roster == scanned.0.roster
  {
    NormalIffTidy(identity.Name());
  }

  ghost predicate Below(l: Roster, bound: Ref) {
    forall h | h in l.species :: h < bound
  }

  lemma ResolveBounds(b: Book, identity: Identity, tick: int, newborn: Ref)
    requires Below(b.roster, newborn)
    ensures Below(Resolved(b, identity, tick, newborn).0.roster, newborn + 1)
  {
    var l := b.roster;
    FindInSpecies(l, if identity.parent.Some? then ParentName(identity) else "");
    var parent := if identity.parent.Some? then Find(l, ParentName(identity)) else None;
    CreateShape(l, identity, newborn, parent);
  }

  /** One arrival: the name it comes under, and whether its organism stood up in the end. */
  datatype Visit = Visit(identity: Identity, stood: bool)

  /** Resolve, and take a created species out again if the organism never stood up. */
  function Visited(b: Book, v: Visit, tick: int, nextRef: Ref): (Book, Ref)
    requires nextRef !in b.roster.species
  {
    var (b', h, created) := Resolved(b, v.identity, tick, nextRef);
    if created && !v.stood then (UnregisteredBook(b', h), h) else (b', h)
  }

  lemma VisitBounds(b: Book, v: Visit, tick: int, nextRef: Ref)
    requires Below(b.roster, nextRef)
    ensures Below(Visited(b, v, tick, nextRef).0.roster, nextRef + 1)
  {
    ResolveBounds(b, v.identity, tick, nextRef);
    var b' := Resolved(b, v.identity, tick, nextRef).0;
    if nextRef in b'.roster.species { RollbackBounds(b'.roster, nextRef, nextRef + 1); }
  }

  lemma RollbackBounds(l: Roster, created: Ref, bound: Ref)
    requires Below(l, bound) && created in l.species
    ensures RolledBack(l, created).species.Keys == l.species.Keys && Below(RolledBack(l, created), bound)
  {
  }

  /** The cache a visit starts from: the book's own, or none in a new tick. */
  function Current(b: Book, tick: int): Book {
    Book(b.roster, if tick == b.tick then b.cache else map[], tick)
  }

  /** A lookup sees the recorded species only, and a rollback leaves those as they were. */
  lemma RollbackFinds(l: Roster, identity: Identity, newborn: Ref, parent: Option<Ref>, name: string)
    requires RosterOk(l) && newborn !in l.species && (parent.Some? ==> parent.value in l.species)
    ensures Find(RolledBack(Created(l, identity, newborn, parent), newborn), name) == Find(l, name)
  {
    var u := RolledBack(Created(l, identity, newborn, parent), newborn);
    RollbackUndoesCreate(l, identity, newborn, parent);
    forall h | h in l.recorded ensures h in l.species && h in u.species && u.species[h] == l.species[h] {
      assert h in (u.species - {newborn});
    }
    FindIgnoresActive(l, u, l.recorded, name);
  }

  lemma FailedVisitKeeps(b: Book, v: Visit, tick: int, nextRef: Ref)
    requires RosterOk(b.roster) && CacheOk(b) && nextRef !in b.roster.species && Tidy(v.identity.Name())
    requires Resolved(b, v.identity, tick, nextRef).2 && !v.stood
    ensures var b' := Visited(b, v, tick, nextRef).0; RosterOk(b'.roster) && CacheOk(b')
  {
    var now, l, id := Current(b, tick), b.roster, v.identity;
    RollbackClearsCacheIff(now, id, tick, nextRef);
    FindInSpecies(l, if id.parent.Some? then ParentName(id) else "");
    var parent := if id.parent.Some? then Find(l, ParentName(id)) else None;
    RollbackKeeps(l, id, nextRef, parent);
    RollbackUndoesCreate(l, id, nextRef, parent);
    forall key | key in now.cache
      ensures Find(RolledBack(Created(l, id, nextRef, parent), nextRef), key) == Find(l, key)
    {
      RollbackFinds(l, id, nextRef, parent, key);
    }
  }

  /** A visit under a name in normal form keeps the registry sound and the cache right, whether
      or not its organism stood up. */
  lemma VisitKeeps(b: Book, v: Visit, tick: int, nextRef: Ref)
    requires RosterOk(b.roster) && CacheOk(b) && nextRef !in b.roster.species && Tidy(v.identity.Name())
    ensures var b' := Visited(b, v, tick, nextRef).0; RosterOk(b'.roster) && CacheOk(b')
  {
    if Resolved(b, v.identity, tick, nextRef).2 && !v.stood {
      FailedVisitKeeps(b, v, tick, nextRef);
    } else {
      ResolveKeeps(b, v.identity, tick, nextRef);
    }
  }

  /** A burst of arrivals in one tick: the answers, and the registry it leaves. `cached` says
      whether the cache is kept between them. Each arrival may create the species with the next
      reference. */
  ghost function Burst(b: Book, visits: seq<Visit>, tick: int, nextRef: Ref, cached: bool): (seq<Ref>, Roster)
    requires Below(b.roster, nextRef)
    decreases |visits|
  {
    if visits == [] then ([], b.roster)
    else
      var start := if cached then b else b.(cache := map[]);
      var step := Visited(start, visits[0], tick, nextRef);
      VisitBounds(start, visits[0], tick, nextRef);
      var (later, end) := Burst(step.0, visits[1..], tick, nextRef + 1, cached);
      ([step.1] + later, end)
  }

  lemma VisitIsTransparent(b: Book, v: Visit, tick: int, nextRef: Ref)
    requires RosterOk(b.roster) && CacheOk(b) && nextRef !in b.roster.species && Tidy(v.identity.Name())
    ensures var cached, scanned := Visited(b, v, tick, nextRef), Visited(b.(cache := map[]), v, tick, nextRef);
      cached.1 == scanned.1 && cached.0.roster == scanned.0.roster && cached.0.tick == scanned.0.tick
  {
    CacheIsTransparent(b, v.identity, tick, nextRef);
    TickIsSet(b, v.identity, tick, nextRef);
    TickIsSet(b.(cache := map[]), v.identity, tick, nextRef);
  }

  /** A whole burst of names in normal form, with the creates that fail rolled back in between, is
      answered, and leaves the registry, as if every one were looked up afresh. */
  lemma {:induction false} BurstIsScanned(b: Book, c: Book, visits: seq<Visit>, tick: int, nextRef: Ref)
    requires RosterOk(b.roster) && CacheOk(b) && c.roster == b.roster && c.tick == b.tick
    requires Below(b.roster, nextRef)
    requires forall v | v in visits :: Tidy(v.identity.Name())
    ensures Burst(b, visits, tick, nextRef, true) == Burst(c, visits, tick, nextRef, false)
    decreases |visits|
  {
    if visits != [] {
      var v := visits[0];
      VisitIsTransparent(b, v, tick, nextRef);
      VisitKeeps(b, v, tick, nextRef);
      VisitBounds(b, v, tick, nextRef);
      assert c.(cache := map[]) == b.(cache := map[]);
      var b', c' := Visited(b, v, tick, nextRef).0, Visited(c.(cache := map[]), v, tick, nextRef).0;
      BurstIsScanned(b', c', visits[1..], tick, nextRef + 1);
    }
  }

  lemma TickIsSet(b: Book, identity: Identity, tick: int, newborn: Ref)
    requires newborn !in b.roster.species
    ensures Resolved(b, identity, tick, newborn).0.tick == tick
  {
  }

  // ---- names that are not in normal form -----------------------------------------------

  /** Does every sound registry that has this name's key cached answer as a scan would? */
  ghost predicate AlwaysScanned(name: string) {
    forall b: Book | RosterOk(b.roster) && CacheOk(b) && Normalized(name) in b.cache ::
      Find(b.roster, name) == Some(b.cache[Normalized(name)])
  }

  function Loner(id: nat, self: Ref, generic: string, specific: string): Species {
    Species(id, generic, specific, None, Some(self), [])
  }

  /** Two spellings of one name, the second the one that will be asked for. */
  function TwinWorld(identity: Identity): Roster {
    Roster(map[0 := Loner(0, 0, identity.generic, identity.specific + " "),
               1 := Loner(1, 1, identity.generic, identity.specific)],
           [0, 1], [0, 1], 2)
  }

  lemma TwinWorldOk(identity: Identity)
    ensures RosterOk(TwinWorld(identity))
  {
    var l := TwinWorld(identity);
    assert IndexOf([1], 1) == 0 && IndexOf([0, 1], 0) == 0 && [0, 1][1..] == [1] && IndexOf([0, 1], 1) == 1;
    assert ParentsOk(l.species);
  }

  lemma TwinWorldFinds(identity: Identity)
    requires !Tidy(identity.Name())
    ensures Find(TwinWorld(identity), identity.Name()) == Some(1)
    ensures Find(TwinWorld(identity), Normalized(identity.Name())) == Some(0)
  {
    var l, n := TwinWorld(identity), identity.Name();
    var key := Normalized(n);
    var other := l.species[0].Name();
    assert other == n + " ";
    WordsConcat(n, " ");
    assert Words(" ") == [];
    NormalizedKeepsWords(n);
    NormalIffTidy(n);
    assert Words(n) + [] == Words(n);
    assert Normalized(other) == key && other != n;
    JoinIsTidy(Words(n));
    assert other != key;
    assert l.recorded == [0, 1] && [0, 1][..1] == [0] && [0][..0] == [];
    TwinLookup(l, n);
    TwinLookup(l, key);
  }

  lemma TwinLookup(l: Roster, name: string)
    requires l.recorded == [0, 1] && AlikeTo(l, 0, name) && AlikeTo(l, 1, name)
    ensures Find(l, name) == Some(if l.species[0].Name() != name && l.species[1].Name() == name then 1 else 0)
  {
    assert [0, 1][..1] == [0] && [0][..0] == [];
    assert Alike(l, [0], name) == [0];
    assert Alike(l, [0, 1], name) == [0, 1];
    assert FirstExact(l, [0], name) == if l.species[0].Name() == name then Some(0) else None;
  }

  /** The cache can be trusted for a name in every world exactly when the name arrives in normal
      form: it is filed under the normal form, and a raw spelling may be recorded as well. */
  lemma CacheIsScannedIff(identity: Identity)
    ensures AlwaysScanned(identity.Name()) <==> Tidy(identity.Name())
  {
    var n := identity.Name();
    var key := Normalized(n);
    NormalIffTidy(n);
    if !Tidy(n) {
      var b := Book(TwinWorld(identity), map[key := 0], 0);
      TwinWorldOk(identity);
      TwinWorldFinds(identity);
      assert CacheOk(b) && key in b.cache;
    }
  }

  /** Rolling back a create within the tick empties its cache slot exactly when the created name
      was in normal form. Otherwise the slot still names the species that was taken out. */
  lemma RollbackClearsCacheIff(b: Book, identity: Identity, tick: int, newborn: Ref)
    requires RosterOk(b.roster) && newborn !in b.roster.species && tick == b.tick
    requires Resolved(b, identity, tick, newborn).2
    ensures var (b', h, made) := Resolved(b, identity, tick, newborn); var u := UnregisteredBook(b', newborn);
      && h == newborn && newborn !in u.roster.recorded
      && (u.cache == b.cache <==> Tidy(identity.Name()))
      && (!Tidy(identity.Name()) ==>
            Normalized(identity.Name()) in u.cache && u.cache[Normalized(identity.Name())] == newborn)
  {
    var l, name := b.roster, identity.Name();
    NormalIffTidy(name);
    FindInSpecies(l, if identity.parent.Some? then ParentName(identity) else "");
    var parent := if identity.parent.Some? then Find(l, ParentName(identity)) else None;
    RollbackUndoesCreate(l, identity, newborn, parent);
    var (b', h, made) := Resolved(b, identity, tick, newborn);
    CreateShape(l, identity, newborn, parent);
    assert b'.roster.species[newborn].Name() == name;
    assert b'.cache == b.cache[Normalized(name) := newborn] && Normalized(name) !in b.cache;
    SlotRemoved(b.cache, Normalized(name), newborn, name);
  }

  lemma SlotRemoved(cache: map<string, Ref>, key: string, newborn: Ref, name: string)
    requires key !in cache && (name != key ==> Normalized(name) == key)
    ensures name == key ==> cache[key := newborn] - {name} == cache
    ensures name != key ==> key in cache[key := newborn] - {name} && cache[key := newborn] - {name} != cache
  {
  }
}
