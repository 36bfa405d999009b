/** The references between organisms that outlive neither a destroy nor a restore: found before
    an organism leaves, and taken out of the world in place (bibites-mod/src/OrganismLinks.cs). */
module Links {
  import opened ContractA

  type ObjectRef = nat

  /** An entry of a children list: the identity component of some organism, or a dead reference. */
  datatype Child = Gone | Child(component: ObjectRef, id: int)

  class EggLayer {
    var children: Option<seq<Child>>
    var childIDs: Option<seq<int>>

    constructor (children: Option<seq<Child>>, childIDs: Option<seq<int>>)
      ensures this.children == children && this.childIDs == childIDs
    {
      this.children, this.childIDs := children, childIDs;
    }
  }

  class Genes {
    var parent1: Option<ObjectRef>
    var parent2: Option<ObjectRef>
    var parent1ID: int
    var parent2ID: int

    constructor (parent1: Option<ObjectRef>, parent2: Option<ObjectRef>, parent1ID: int, parent2ID: int)
      ensures
        && this.parent1 == parent1
        && this.parent2 == parent2
        && this.parent1ID == parent1ID
        && this.parent2ID == parent2ID
    {
      this.parent1, this.parent2, this.parent1ID, this.parent2ID := parent1, parent2, parent1ID, parent2ID;
    }
  }

  /** A tracked organism (or egg, which lays none): its object, its id, and its two components. */
  datatype Organism = Organism(object_: ObjectRef, id: int, layer: EggLayer?, genes: Genes?)

  datatype ChildSlot = ChildSlot(organ: EggLayer, index: int, ownerId: int)

  datatype ParentSlot = ParentSlot(genes: Genes, slot: int, ownerId: int)

  // ---- what counts as a link -----------------------------------------------------------

  predicate Lists(children: Option<seq<Child>>, id: int) {
    children.Some? && exists c :: c in children.value && c.Child? && c.id == id
  }

  /** A parent holds `id` when a live entry names it or its recorded child ids do. */
  predicate Holds(layer: EggLayer, id: int)
    reads layer
  {
    Lists(layer.children, id) || (layer.childIDs.Some? && id in layer.childIDs.value)
  }

  /** A parent field points at the departing organism by object, or, with no object, by id. */
  predicate PointsAt(parent: Option<ObjectRef>, parentId: int, self: Option<ObjectRef>, id: int) {
    (self.Some? && parent == self) || (parent.None? && parentId == id)
  }

  function Parent(genes: Genes, slot: int): Option<ObjectRef>
    reads genes
  {
    if slot == 1 then genes.parent1 else genes.parent2
  }

  function ParentId(genes: Genes, slot: int): int
    reads genes
  {
    if slot == 1 then genes.parent1ID else genes.parent2ID
  }

  predicate Keeps(c: Child, id: int) {
    c.Child? && c.id != id
  }

  /** The entries that are neither dead nor `id`, in order. */
  function Filtered(children: seq<Child>, id: int): seq<Child> {
    if children == [] then []
    else (if Keeps(children[0], id) then [children[0]] else []) + Filtered(children[1..], id)
  }

  function FilteredList(children: Option<seq<Child>>, id: int): Option<seq<Child>> {
    if children.None? then None else Some(Filtered(children.value, id))
  }

  lemma {:induction false} FilteredMeans(children: seq<Child>, id: int)
    ensures forall c :: c in Filtered(children, id) <==> c in children && Keeps(c, id)
  {
    if children != [] {
      assert children == [children[0]] + children[1..];
      FilteredMeans(children[1..], id);
    }
  }

  lemma {:induction false} FilteredConcat(a: seq<Child>, b: seq<Child>, id: int)
    ensures Filtered(a + b, id) == Filtered(a, id) + Filtered(b, id)
  {
    if a == [] {
      assert a + b == b;
    } else {
      var head := if Keeps(a[0], id) then [a[0]] else [];
      assert (a + b)[0] == a[0] && (a + b)[1..] == a[1..] + b;
      FilteredConcat(a[1..], b, id);
      assert Filtered(a + b, id) == head + Filtered(a[1..] + b, id);
      assert head + (Filtered(a[1..], id) + Filtered(b, id)) == (head + Filtered(a[1..], id)) + Filtered(b, id);
    }
  }

  /** The filter keeps the order: an entry that is kept stands where the number of kept entries
      before it puts it. */
  lemma FilteredInOrder(children: seq<Child>, id: int, k: nat)
    requires k < |children|
    ensures var before := |Filtered(children[..k], id)|;
      && |Filtered(children[..k + 1], id)| == before + (if Keeps(children[k], id) then 1 else 0)
      && |Filtered(children[..k + 1], id)| <= |Filtered(children, id)|
      && (Keeps(children[k], id) ==> Filtered(children, id)[before] == children[k])
  {
    assert children == children[..k + 1] + children[k + 1..] && children[..k + 1] == children[..k] + [children[k]];
    FilteredConcat(children[..k + 1], children[k + 1..], id);
    FilteredConcat(children[..k], [children[k]], id);
    assert Filtered([children[k]], id) == if Keeps(children[k], id) then [children[k]] else [];
  }

  lemma {:induction false} FilteredTwice(children: seq<Child>, id: int)
    requires forall c | c in children :: Keeps(c, id)
    ensures Filtered(children, id) == children
  {
    if children != [] {
      assert children == [children[0]] + children[1..];
      FilteredTwice(children[1..], id);
    }
  }

  /** A list filtered once lists neither the id nor a dead entry, and filtering again changes
      nothing: an organ recorded for several slots is cleaned as if recorded once. */
  lemma FilteredIsClean(children: Option<seq<Child>>, id: int)
    ensures !Lists(FilteredList(children, id), id)
    ensures FilteredList(FilteredList(children, id), id) == FilteredList(children, id)
  {
    if children.Some? {
      FilteredMeans(children.value, id);
      FilteredTwice(Filtered(children.value, id), id);
    }
  }

  predicate IsChild(c: Child, id: int) {
    c.Child? && c.id == id
  }

  /** A slot of `layer` names a place where the list holds the id, or, with no such place, -1. */
  predicate SlotOf(layer: EggLayer, slot: ChildSlot, ownerId: int, id: int)
    reads layer
  {
    && slot.organ == layer && slot.ownerId == ownerId
    && if Lists(layer.children, id) then
         0 <= slot.index < |layer.children.value| && IsChild(layer.children.value[slot.index], id)
       else slot.index == -1
  }

  predicate Recorded(holders: seq<ChildSlot>, layer: EggLayer) {
    exists s :: s in holders && s.organ == layer
  }

  predicate RecordedParent(dependants: seq<ParentSlot>, genes: Genes, slot: int) {
    exists s :: s in dependants && s.genes == genes && s.slot == slot
  }

  /** `o` is scanned when `self` departs. */
  predicate IsOther(o: Option<Organism>, self: Option<ObjectRef>) {
    o.Some? && Some(o.value.object_) != self
  }

  predicate HasLayer(bodies: seq<Option<Organism>>, self: Option<ObjectRef>, layer: EggLayer) {
    exists o :: o in bodies && IsOther(o, self) && o.value.layer == layer
  }

  predicate HasGenes(bodies: seq<Option<Organism>>, eggs: seq<Option<Organism>>, self: Option<ObjectRef>,
        genes: Genes) {
    || (exists o :: o in bodies && IsOther(o, self) && o.value.genes == genes)
    || (exists o :: o in eggs && o.Some? && o.value.genes == genes)
  }

  predicate Dependent(genes: Genes, slot: int, self: Option<ObjectRef>, id: int)
    reads genes
  {
    (slot == 1 || slot == 2) && id != 0 && PointsAt(Parent(genes, slot), ParentId(genes, slot), self, id)
  }

  lemma MoreLayers(bodies: seq<Option<Organism>>, i: nat, self: Option<ObjectRef>, l: EggLayer)
    requires i < |bodies|
    ensures HasLayer(bodies[..i + 1], self, l)
      <==> HasLayer(bodies[..i], self, l) || (IsOther(bodies[i], self) && bodies[i].value.layer == l)
  {
    assert bodies[..i + 1] == bodies[..i] + [bodies[i]];
    if HasLayer(bodies[..i], self, l) {
      var o :| o in bodies[..i] && IsOther(o, self) && o.value.layer == l;
      assert o in bodies[..i + 1];
    }
    assert bodies[i] in bodies[..i + 1];
  }

  lemma MoreGenes(bodies: seq<Option<Organism>>, i: nat, self: Option<ObjectRef>, g: Genes)
    requires i < |bodies|
    ensures HasGenes(bodies[..i + 1], [], self, g)
      <==> HasGenes(bodies[..i], [], self, g) || (IsOther(bodies[i], self) && bodies[i].value.genes == g)
  {
    assert bodies[..i + 1] == bodies[..i] + [bodies[i]];
    if HasGenes(bodies[..i], [], self, g) {
      var o :| o in bodies[..i] && IsOther(o, self) && o.value.genes == g;
      assert o in bodies[..i + 1];
    }
    assert bodies[i] in bodies[..i + 1];
  }

  lemma MoreEggs(bodies: seq<Option<Organism>>, eggs: seq<Option<Organism>>, i: nat, self: Option<ObjectRef>, g: Genes)
    requires i < |eggs|
    ensures HasGenes(bodies, eggs[..i + 1], self, g)
      <==> HasGenes(bodies, eggs[..i], self, g) || (eggs[i].Some? && eggs[i].value.genes == g)
  {
    assert eggs[..i + 1] == eggs[..i] + [eggs[i]];
    if exists o :: o in eggs[..i] && o.Some? && o.value.genes == g {
      var o :| o in eggs[..i] && o.Some? && o.value.genes == g;
      assert o in eggs[..i + 1];
    }
    assert eggs[i] in eggs[..i + 1];
  }

  lemma RecordedAppend(holders: seq<ChildSlot>, s: ChildSlot, layer: EggLayer)
    ensures Recorded(holders + [s], layer) <==> Recorded(holders, layer) || s.organ == layer
  {
    if Recorded(holders, layer) {
      var t :| t in holders && t.organ == layer;
      assert t in holders + [s];
    }
    assert s in holders + [s];
  }

  lemma RecordedParentAppend(dependants: seq<ParentSlot>, s: ParentSlot, genes: Genes, slot: int)
    ensures RecordedParent(dependants + [s], genes, slot)
      <==> RecordedParent(dependants, genes, slot) || (s.genes == genes && s.slot == slot)
  {
    if RecordedParent(dependants, genes, slot) {
      var t :| t in dependants && t.genes == genes && t.slot == slot;
      assert t in dependants + [s];
    }
    assert s in dependants + [s];
  }

  // ---- the object ----------------------------------------------------------------------

  class OrganismLinks {
    var holders: seq<ChildSlot>
    var dependants: seq<ParentSlot>
    const selfId: int

    constructor (selfId: int)
      ensures this.selfId == selfId && holders == [] && dependants == []
    {
      this.selfId := selfId;
      holders, dependants := [], [];
    }

    method RecordChildSlots(layer: EggLayer?, ownerId: int)
      modifies this`holders
      ensures old(holders) <= holders
      ensures forall k | |old(holders)| <= k < |holders| ::
        layer != null && SlotOf(layer, holders[k], ownerId, selfId)
      ensures layer != null && selfId != 0 && layer.children.Some? ==>
        forall i | 0 <= i < |layer.children.value| && IsChild(layer.children.value[i], selfId) ::
          ChildSlot(layer, i, ownerId) in holders[|old(holders)|..]
      ensures forall l: EggLayer ::
        Recorded(holders, l) <==> Recorded(old(holders), l) || (l == layer && selfId != 0 && Holds(l, selfId))
    {
      if layer == null || selfId == 0 {
        return;
      }
      var found := false;
      if layer.children.Some? {
        var children := layer.children.value;
        var i := 0;
        while i < |children|
          invariant 0 <= i <= |children| && old(holders) <= holders
          invariant forall k | |old(holders)| <= k < |holders| :: SlotOf(layer, holders[k], ownerId, selfId)
          invariant forall k | 0 <= k < i && IsChild(children[k], selfId) ::
            ChildSlot(layer, k, ownerId) in holders[|old(holders)|..]
          invariant found <==> exists k :: 0 <= k < i && children[k].Child? && children[k].id == selfId
          invariant forall l: EggLayer :: Recorded(holders, l) <==> Recorded(old(holders), l) || (l == layer && found)
        {
          if children[i].Child? && children[i].id == selfId {
            ghost var added := holders[|old(holders)|..];
            Append(ChildSlot(layer, i, ownerId));
            assert holders[|old(holders)|..] == added + [ChildSlot(layer, i, ownerId)];
            found := true;
          }
          i := i + 1;
        }
        assert found <==> Lists(layer.children, selfId);
      }
      if !found && layer.childIDs.Some? && selfId in layer.childIDs.value {
        Append(ChildSlot(layer, -1, ownerId));
      }
    }

    method Append(slot: ChildSlot)
      modifies this`holders
      ensures holders == old(holders) + [slot]
      ensures forall l: EggLayer :: Recorded(holders, l) <==> Recorded(old(holders), l) || l == slot.organ
    {
      holders := holders + [slot];
      forall l: EggLayer { RecordedAppend(old(holders), slot, l); }
    }

    method AppendParent(slot: ParentSlot)
      modifies this`dependants
      ensures dependants == old(dependants) + [slot]
      ensures forall g: Genes, k ::
        RecordedParent(dependants, g, k) <==>
        RecordedParent(old(dependants), g, k) || (g == slot.genes && k == slot.slot)
    {
      dependants := dependants + [slot];
      forall g: Genes, k { RecordedParentAppend(old(dependants), slot, g, k); }
    }

    method RecordDependant(genes: Genes?, self: Option<ObjectRef>, ownerId: int)
      modifies this`dependants
      ensures forall g: Genes, k :: RecordedParent(dependants, g, k) <==>
        || RecordedParent(old(dependants), g, k)
        || (g == genes && (k == 1 || k == 2) && selfId != 0 && PointsAt(Parent(g, k), ParentId(g, k), self, selfId))
    {
      if genes == null || selfId == 0 {
        return;
      }
      if PointsAt(genes.parent1, genes.parent1ID, self, selfId) {
        AppendParent(ParentSlot(genes, 1, ownerId));
      }
      if PointsAt(genes.parent2, genes.parent2ID, self, selfId) {
        AppendParent(ParentSlot(genes, 2, ownerId));
      }
    }

    /** Every organism but the departing one itself, and every egg. */
    method ScanWorld(bodies: seq<Option<Organism>>, eggs: seq<Option<Organism>>, self: Option<ObjectRef>)
      modifies this`holders, this`dependants
      ensures forall l: EggLayer :: Recorded(holders, l) <==>
        Recorded(old(holders), l) || (HasLayer(bodies, self, l) && selfId != 0 && Holds(l, selfId))
      ensures forall g: Genes, k :: RecordedParent(dependants, g, k) <==>
        RecordedParent(old(dependants), g, k) || (HasGenes(bodies, eggs, self, g) && Dependent(g, k, self, selfId))
    {
      var i := 0;
      while i < |bodies|
        invariant 0 <= i <= |bodies|
        invariant forall l: EggLayer :: Recorded(holders, l) <==>
          Recorded(old(holders), l) || (HasLayer(bodies[..i], self, l) && selfId != 0 && Holds(l, selfId))
        invariant forall g: Genes, k :: RecordedParent(dependants, g, k) <==>
          RecordedParent(old(dependants), g, k) || (HasGenes(bodies[..i], [], self, g) && Dependent(g, k, self, selfId))
      {
        var other := bodies[i];
        forall l: EggLayer { MoreLayers(bodies, i, self, l); }
        forall g: Genes { MoreGenes(bodies, i, self, g); }
        i := i + 1;
        if other.None? || Some(other.value.object_) == self {
          continue;
        }
        RecordChildSlots(other.value.layer, other.value.id);
        RecordDependant(other.value.genes, self, other.value.id);
      }
      assert bodies[..i] == bodies;
      i := 0;
      while i < |eggs|
        invariant 0 <= i <= |eggs|
        invariant forall g: Genes, k :: RecordedParent(dependants, g, k) <==>
          || RecordedParent(old(dependants), g, k)
          || (HasGenes(bodies, eggs[..i], self, g) && Dependent(g, k, self, selfId))
        modifies this`dependants
      {
        var egg := eggs[i];
        forall g: Genes { MoreEggs(bodies, eggs, i, self, g); }
        i := i + 1;
        if egg.None? {
          continue;
        }
        RecordDependant(egg.value.genes, self, egg.value.id);
      }
      assert eggs[..i] == eggs;
    }

    /** Backwards, so that a removal does not move what is still to be looked at. */
    method FilterInPlace(organ: EggLayer)
      modifies organ`children
      ensures organ.children == FilteredList(old(organ.children), selfId)
    {
      if organ.children.None? {
        return;
      }
      ghost var was := organ.children.value;
      var i := |organ.children.value| - 1;
      FilteringStarts(was, selfId);
      while i >= 0
        invariant -1 <= i < |was|
        invariant organ.children.Some? && Filtering(organ.children.value, was, i, selfId)
      {
        FilteringStep(organ.children.value, was, i, selfId);
        if !Keeps(organ.children.value[i], selfId) {
          organ.children := Some(organ.children.value[..i] + organ.children.value[i + 1..]);
        }
        i := i - 1;
      }
      FilteringEnds(organ.children.value, was, selfId);
    }

    /** Clean every recorded list. */
    method DetachChildren()
      modifies set s | s in holders :: s.organ`children
      ensures forall l: EggLayer | old(allocated(l)) ::
        l.children == if Recorded(holders, l) then FilteredList(old(l.children), selfId) else old(l.children)
    {
      var i := 0;
      while i < |holders|
        invariant 0 <= i <= |holders|
        invariant forall l: EggLayer | old(allocated(l)) ::
          l.children == if Recorded(holders[..i], l) then FilteredList(old(l.children), selfId) else old(l.children)
      {
        var organ := holders[i].organ;
        assert holders[..i + 1] == holders[..i] + [holders[i]];
        forall l: EggLayer { RecordedAppend(holders[..i], holders[i], l); }
        FilteredIsClean(old(organ.children), selfId);
        FilterInPlace(organ);
        i := i + 1;
      }
      assert holders[..i] == holders;
    }

    /** Clear every recorded parent field; its id becomes the departing one. */
    method DetachParents()
      modifies set s | s in dependants :: s.genes
      ensures forall g: Genes | old(allocated(g)) :: FieldsOf(g) == Cleared(old(FieldsOf(g)), dependants, g, selfId)
    {
      var i := 0;
      while i < |dependants|
        invariant 0 <= i <= |dependants|
        invariant forall g: Genes | old(allocated(g)) ::
          FieldsOf(g) == Cleared(old(FieldsOf(g)), dependants[..i], g, selfId)
      {
        var slot := dependants[i];
        assert dependants[..i + 1] == dependants[..i] + [slot];
        forall g: Genes, k { RecordedParentAppend(dependants[..i], slot, g, k); }
        if slot.slot == 1 {
          slot.genes.parent1 := None;
          slot.genes.parent1ID := selfId;
        } else {
          slot.genes.parent2 := None;
          slot.genes.parent2ID := selfId;
        }
        i := i + 1;
      }
      assert dependants[..i] == dependants;
    }

    method Detach()
      modifies set s | s in holders :: s.organ`children, set s | s in dependants :: s.genes
      ensures forall l: EggLayer | old(allocated(l)) ::
        l.children == if Recorded(holders, l) then FilteredList(old(l.children), selfId) else old(l.children)
      ensures forall g: Genes | old(allocated(g)) :: FieldsOf(g) == Cleared(old(FieldsOf(g)), dependants, g, selfId)
    {
      DetachChildren();
      DetachParents();
    }
  }

  // ---- the arrival's side --------------------------------------------------------------

  /** `now` is `was` with `newcomer` in place of some dead or stale entries, and at the end. */
  ghost predicate Repaired(was: seq<Child>, now: seq<Child>, id: int, newcomer: Child) {
    && |was| <= |now|
    && (forall k | 0 <= k < |was| :: now[k] == was[k] || (now[k] == newcomer && !Keeps(was[k], id)))
    && (forall k | |was| <= k < |now| :: now[k] == newcomer)
  }

  lemma RepairedTwice(a: seq<Child>, b: seq<Child>, c: seq<Child>, id: int, newcomer: Child)
    requires Repaired(a, b, id, newcomer) && Repaired(b, c, id, newcomer)
    ensures Repaired(a, c, id, newcomer)
  {
  }

  /** The slot names an entry that is dead or stale. */
  predicate NamesGap(slot: ChildSlot, list: seq<Child>, id: int) {
    0 <= slot.index < |list| && !Keeps(list[slot.index], id)
  }

  /** One recorded slot: the entry it names if that is still dead or stale, else the end. */
  method RestoreSlot(slot: ChildSlot, id: int, newcomer: Child)
    modifies slot.organ`children
    ensures slot.organ.children.Some? <==> old(slot.organ.children).Some?
    ensures slot.organ.children.Some? ==>
      && Repaired(old(slot.organ.children).value, slot.organ.children.value, id, newcomer)
      && newcomer in slot.organ.children.value
      && (if NamesGap(slot, old(slot.organ.children).value, id) then
            slot.organ.children.value[slot.index] == newcomer
            && |slot.organ.children.value| == |old(slot.organ.children).value|
          else if newcomer in old(slot.organ.children).value then slot.organ.children == old(slot.organ.children)
          else slot.organ.children.value == old(slot.organ.children).value + [newcomer])
  {
    if slot.organ.children.None? {
      return;
    }
    var list := slot.organ.children.value;
    if 0 <= slot.index < |list| && !Keeps(list[slot.index], id) {
      slot.organ.children := Some(list[slot.index := newcomer]);
      assert slot.organ.children.value[slot.index] == newcomer;
    } else if newcomer !in list {
      slot.organ.children := Some(list + [newcomer]);
      assert slot.organ.children.value[|list|] == newcomer;
    }
  }

  ghost predicate Restored(layer: EggLayer, was: Option<seq<Child>>, recorded: bool, id: int, newcomer: Child)
    reads layer
  {
    && (layer.children.Some? <==> was.Some?)
    && (!recorded ==> layer.children == was)
    && (was.Some? ==>
          && Repaired(was.value, layer.children.value, id, newcomer)
          && (|layer.children.value| == |was.value|
              || (|layer.children.value| == |was.value| + 1 && newcomer in layer.children.value))
          && (recorded ==> newcomer in layer.children.value))
  }

  /** Where the slot named a gap the newcomer stands now. */
  ghost predicate Filled(slot: ChildSlot, was: Option<seq<Child>>, id: int, newcomer: Child)
    reads slot.organ
  {
    was.Some? && NamesGap(slot, was.value, id) ==>
      && slot.organ.children.Some? && slot.index < |slot.organ.children.value|
      && slot.organ.children.value[slot.index] == newcomer
  }

  /** After the arrival every recorded parent that has a list lists the newcomer, in every gap a
      record named and at most once more, at the end; every other living child keeps its place,
      and no other list changes. */
  method RestoreHolders(holders: seq<ChildSlot>, id: int, newcomer: Child)
    modifies set s | s in holders :: s.organ`children
    ensures forall l: EggLayer | old(allocated(l)) :: Restored(l, old(l.children), Recorded(holders, l), id, newcomer)
    ensures forall k | 0 <= k < |holders| :: Filled(holders[k], old(holders[k].organ.children), id, newcomer)
  {
    var i := 0;
    while i < |holders|
      invariant 0 <= i <= |holders|
      invariant forall l: EggLayer | old(allocated(l)) ::
        Restored(l, old(l.children), Recorded(holders[..i], l), id, newcomer)
      invariant forall k | 0 <= k < i :: Filled(holders[k], old(holders[k].organ.children), id, newcomer)
    {
      var slot := holders[i];
      assert holders[..i + 1] == holders[..i] + [slot];
      forall l: EggLayer { RecordedAppend(holders[..i], slot, l); }
      ghost var before := slot.organ.children;
      RestoreSlot(slot, id, newcomer);
      if before.Some? {
        RepairedTwice(old(slot.organ.children).value, before.value, slot.organ.children.value, id, newcomer);
      }
      i := i + 1;
    }
    assert holders[..i] == holders;
  }

  datatype Fields = Fields(parent1: Option<ObjectRef>, parent1ID: int, parent2: Option<ObjectRef>, parent2ID: int)

  function FieldsOf(g: Genes): Fields
    reads g
  {
    Fields(g.parent1, g.parent1ID, g.parent2, g.parent2ID)
  }

  /** The fields of `g` once the recorded ones are cleared. Any slot that is not 1 is the second. */
  ghost function Cleared(f: Fields, dependants: seq<ParentSlot>, g: Genes, id: int): Fields {
    var first, second := RecordedParent(dependants, g, 1), exists s :: s in dependants && s.genes == g && s.slot != 1;
    Fields(if first then None else f.parent1, if first then id else f.parent1ID,
           if second then None else f.parent2, if second then id else f.parent2ID)
  }

  ghost function Layers(bodies: seq<Option<Organism>>): set<EggLayer?> {
    set o | o in bodies && o.Some? :: o.value.layer
  }

  ghost function Genomes(organisms: seq<Option<Organism>>): set<Genes?> {
    set o | o in organisms && o.Some? :: o.value.genes
  }

  /** What one departure makes of a parent field. */
  function FieldAfter(points: bool, parent: Option<ObjectRef>, parentId: int, id: int): (Option<ObjectRef>, int) {
    if points then (None, id) else (parent, parentId)
  }

  /** Capture, then detach, as an acknowledged departure does: every list of another organism
      that held the id is what it was without dead entries and without the id, in order, every
      parent field that pointed at the organism is cleared, and nothing else changes. */
  method DetachDeparting(id: int, self: ObjectRef, bodies: seq<Option<Organism>>, eggs: seq<Option<Organism>>)
    requires id != 0
    modifies Layers(bodies), Genomes(bodies), Genomes(eggs)
    ensures forall l: EggLayer | old(allocated(l)) ::
      l.children ==
      if HasLayer(bodies, Some(self), l) && old(Holds(l, id)) then FilteredList(old(l.children), id)
      else old(l.children)
    ensures forall l: EggLayer | HasLayer(bodies, Some(self), l) ::
      l.childIDs == old(l.childIDs) && !Lists(l.children, id)
    ensures forall g: Genes, k | old(allocated(g)) && (k == 1 || k == 2) ::
      (Parent(g, k), ParentId(g, k)) ==
        FieldAfter(HasGenes(bodies, eggs, Some(self), g) && old(Dependent(g, k, Some(self), id)),
                                                   old(Parent(g, k)), old(ParentId(g, k)), id)
    ensures forall g: Genes, k | HasGenes(bodies, eggs, Some(self), g) && (k == 1 || k == 2) ::
      Parent(g, k) != Some(self)
  {
    var links := new OrganismLinks(id);
    links.ScanWorld(bodies, eggs, Some(self));
    forall s | s in links.holders ensures s.organ in Layers(bodies) {
      assert Recorded(links.holders, s.organ);
    }
    forall s | s in links.dependants
      ensures (s.slot == 1 || s.slot == 2) && s.genes in Genomes(bodies) + Genomes(eggs)
    {
      assert RecordedParent(links.dependants, s.genes, s.slot);
    }
    forall l: EggLayer { FilteredIsClean(l.children, id); }
    links.Detach();
    forall g: Genes, k | old(allocated(g)) && (k == 1 || k == 2)
      ensures (Parent(g, k), ParentId(g, k))
        == FieldAfter(RecordedParent(links.dependants, g, k), old(Parent(g, k)), old(ParentId(g, k)), id)
    {
      assert FieldsOf(g) == Cleared(old(FieldsOf(g)), links.dependants, g, id);
      ClearedIs(old(FieldsOf(g)), links.dependants, g, id);
    }
  }

  /** With only slots 1 and 2 recorded, each field is cleared by its own record. */
  lemma ClearedIs(f: Fields, dependants: seq<ParentSlot>, g: Genes, id: int)
    requires forall s | s in dependants :: s.slot == 1 || s.slot == 2
    ensures var c := Cleared(f, dependants, g, id);
      && (c.parent1, c.parent1ID) == FieldAfter(RecordedParent(dependants, g, 1), f.parent1, f.parent1ID, id)
      && (c.parent2, c.parent2ID) == FieldAfter(RecordedParent(dependants, g, 2), f.parent2, f.parent2ID, id)
  {
  }

  /** The entries past `i` have been filtered, those up to `i` not looked at yet. */
  ghost predicate Filtering(list: seq<Child>, was: seq<Child>, i: int, id: int)
    requires -1 <= i < |was|
  {
    list == was[..i + 1] + Filtered(was[i + 1..], id)
  }

  lemma FilteringStarts(was: seq<Child>, id: int)
    ensures Filtering(was, was, |was| - 1, id)
  {
    assert was[|was|..] == [] && was[..|was|] == was;
  }

  lemma FilteringEnds(list: seq<Child>, was: seq<Child>, id: int)
    requires Filtering(list, was, -1, id)
    ensures list == Filtered(was, id)
  {
    assert was[0..] == was;
  }

  lemma FilteringStep(list: seq<Child>, was: seq<Child>, i: nat, id: int)
    requires i < |was| && Filtering(list, was, i, id)
    ensures i < |list| && list[i] == was[i]
    ensures Filtering(if Keeps(list[i], id) then list else list[..i] + list[i + 1..], was, i - 1, id)
  {
    var kept := Filtered(was[i + 1..], id);
    assert was[i..][1..] == was[i + 1..];
    assert was[..i + 1] + kept == was[..i] + ([was[i]] + kept);
    assert list[..i] == was[..i] && list[i + 1..] == kept;
  }
}
