/** The parents that travel with a migrant: whose ids are named, and which of their blobs fit the
    frame (bibites-mod/src/LineageCollector.cs). */
module ParentBlobs {
  import opened ContractA

  const MAX_PARENT_BLOBS: nat := 2

  /** A parent's live object: can its body be read, and under what id? */
  datatype LiveParent = LiveParent(usable: bool, id: int)

  // ---- weights -------------------------------------------------------------------------

  /** The bytes of the blobs in `chosen` among the first `n`. */
  ghost function Weight(sizes: seq<nat>, chosen: set<nat>, n: nat): nat
    requires n <= |sizes|
  {
    if n == 0 then 0 else Weight(sizes, chosen, n - 1) + if n - 1 in chosen then sizes[n - 1] else 0
  }

  ghost predicate Indices(chosen: set<nat>, n: nat) {
    forall i | i in chosen :: i < n
  }

  lemma {:induction false} WeightAdd(sizes: seq<nat>, chosen: set<nat>, i: nat, n: nat)
    requires n <= |sizes| && i !in chosen
    ensures Weight(sizes, chosen + {i}, n) == Weight(sizes, chosen, n) + if i < n then sizes[i] else 0
  {
    if n > 0 { WeightAdd(sizes, chosen, i, n - 1); }
  }

  lemma {:induction false} WeightOfSubset(sizes: seq<nat>, a: set<nat>, b: set<nat>, n: nat)
    requires n <= |sizes| && a <= b
    ensures Weight(sizes, a, n) <= Weight(sizes, b, n)
  {
    if n > 0 { WeightOfSubset(sizes, a, b, n - 1); }
  }

  lemma {:induction false} WeightOfNothing(sizes: seq<nat>, n: nat)
    requires n <= |sizes|
    ensures Weight(sizes, {}, n) == 0
  {
    if n > 0 { WeightOfNothing(sizes, n - 1); }
  }

  /** Nothing in `a` is larger than anything in `b`. */
  ghost predicate NoLarger(sizes: seq<nat>, a: set<nat>, b: set<nat>)
    requires Indices(a, |sizes|) && Indices(b, |sizes|)
  {
    forall s, o | s in a && o in b :: sizes[s] <= sizes[o]
  }

  /** No set of as many blobs is lighter than a set of smallest ones: exchange them one by one. */
  lemma {:induction false} SmallestAreLightest(sizes: seq<nat>, smallest: set<nat>, other: set<nat>)
    requires Indices(smallest, |sizes|) && Indices(other, |sizes|) && |smallest| <= |other|
    requires NoLarger(sizes, smallest, other - smallest)
    ensures Weight(sizes, smallest, |sizes|) <= Weight(sizes, other, |sizes|)
    decreases |smallest - other|
  {
    if smallest <= other {
      WeightOfSubset(sizes, smallest, other, |sizes|);
    } else {
      var s :| s in smallest && s !in other;
      SomethingElse(smallest, other, s);
      var o :| o in other && o !in smallest;
      Exchange(sizes, smallest, other, s, o);
      SmallestAreLightest(sizes, smallest, other - {o} + {s});
    }
  }

  lemma Exchange(sizes: seq<nat>, smallest: set<nat>, other: set<nat>, s: nat, o: nat)
    requires Indices(smallest, |sizes|) && Indices(other, |sizes|)
    requires s in smallest && s !in other && o in other && o !in smallest
    requires NoLarger(sizes, smallest, other - smallest)
    ensures var next := other - {o} + {s};
      && |next| == |other| && Indices(next, |sizes|) && NoLarger(sizes, smallest, next - smallest)
      && smallest - next < smallest - other && |smallest - next| < |smallest - other|
      && Weight(sizes, next, |sizes|) <= Weight(sizes, other, |sizes|)
  {
    var rest := other - {o};
    assert rest + {o} == other;
    WeightAdd(sizes, rest, o, |sizes|);
    WeightAdd(sizes, rest, s, |sizes|);
    assert smallest - (rest + {s}) == (smallest - other) - {s};
    assert (rest + {s}) - smallest <= other - smallest;
  }

  lemma SomethingElse(smallest: set<nat>, other: set<nat>, s: nat)
    requires |smallest| <= |other| && s in smallest && s !in other
    ensures exists o :: o in other && o !in smallest
  {
    if other <= smallest {
      assert other <= smallest - {s};
      SubsetIsSmaller(other, smallest - {s});
    }
  }

  lemma SubsetIsSmaller(a: set<nat>, b: set<nat>)
    requires a <= b
    ensures |a| <= |b|
  {
    assert b == a + (b - a);
  }

  lemma NoLargerThanPart(sizes: seq<nat>, a: set<nat>, b: set<nat>, part: set<nat>)
    requires Indices(a, |sizes|) && Indices(b, |sizes|) && part <= b && NoLarger(sizes, a, b)
    ensures Indices(part, |sizes|) && NoLarger(sizes, a, part)
  {
  }

  /** Largest first drops the fewest: if the blobs kept, with the last one dropped, were too much,
      and nothing dropped is smaller than any of these, then no choice keeps more. */
  lemma LargestFirstKeepsMost(sizes: seq<nat>, present: set<nat>, kept: set<nat>, smallest: set<nat>, budget: int,
        other: set<nat>)
    requires Indices(present, |sizes|) && smallest <= present && kept <= smallest && |smallest| == |kept| + 1
    requires Weight(sizes, smallest, |sizes|) > budget
    requires NoLarger(sizes, smallest, present - kept)
    requires other <= present && Weight(sizes, other, |sizes|) <= budget
    ensures |other| <= |kept|
  {
    if |other| >= |smallest| {
      NoLargerThanPart(sizes, smallest, present - kept, other - smallest);
      SmallestAreLightest(sizes, smallest, other);
    }
  }

  // ---- the collector -------------------------------------------------------------------

  class LineageCollector {
    var ids: seq<int>
    var live: seq<bool>
    var blobs: seq<Option<string>>
    var sizes: seq<nat>
    var dropped: seq<bool>

    constructor ()
      ensures ids == [] && live == [] && blobs == [] && sizes == [] && dropped == []
    {
      ids, live, blobs, sizes, dropped := [], [], [], [], [];
    }

    /** The ids named so far: never the unassigned 0, never the migrant itself, none twice. */
    ghost predicate Named(selfId: int)
      reads this
    {
      && |live| == |ids| <= MAX_PARENT_BLOBS
      && 0 !in ids && selfId !in ids
      && forall i, j | 0 <= i < j < |ids| :: ids[i] != ids[j]
    }

    /** The live body's id wins over the recorded one; a parent that is gone still names its id. */
    method Consider(parent: Option<LiveParent>, recordedId: int, selfId: int)
      requires Named(selfId)
      modifies this`ids, this`live
      ensures Named(selfId)
      ensures var usable := parent.Some? && parent.value.usable && parent.value.id != 0;
        var id := if usable then parent.value.id else recordedId;
        if |old(ids)| >= MAX_PARENT_BLOBS || id == 0 || id == selfId || id in old(ids)
        then ids == old(ids) && live == old(live)
        else ids == old(ids) + [id] && live == old(live) + [parent.Some? && parent.value.usable]
    {
      if |ids| >= MAX_PARENT_BLOBS {
        return;
      }
      var alive := parent.Some?;
      var id := 0;
      if alive {
        if parent.value.usable {
          id := parent.value.id;
        } else {
          alive := false;
        }
      }
      if id == 0 {
        id := recordedId;
      }
      if id == 0 || id == selfId || id in ids {
        return;
      }
      ids := ids + [id];
      live := live + [alive];
    }

    ghost predicate Parallel()
      reads this
    {
      |blobs| == |sizes| == |dropped| == |ids|
    }

    /** The entries that carry a blob. */
    ghost function Present(): (present: set<nat>)
      reads this
      ensures Indices(present, |blobs|)
    {
      set i: nat | i < |blobs| && blobs[i].Some?
    }

    ghost function Used(): nat
      requires Parallel()
      reads this
    {
      Weight(sizes, Present(), |sizes|)
    }

    method SumSizes() returns (used: nat)
      requires Parallel()
      ensures used == Used()
    {
      used := 0;
      var i := 0;
      while i < |sizes|
        invariant 0 <= i <= |sizes| && used == Weight(sizes, Present(), i)
      {
        used := used + if blobs[i].Some? then sizes[i] else 0;
        i := i + 1;
      }
    }

    method Largest() returns (largest: int)
      requires Parallel()
      ensures -1 <= largest < |blobs|
      ensures largest < 0 <==> Present() == {}
      ensures largest >= 0 ==> largest in Present() && forall i | i in Present() :: sizes[i] <= sizes[largest]
    {
      largest := -1;
      var i := 0;
      while i < |blobs|
        invariant 0 <= i <= |blobs| && -1 <= largest < i
        invariant largest < 0 ==> forall k | 0 <= k < i :: blobs[k].None?
        invariant largest >= 0 ==>
          blobs[largest].Some? && forall k | 0 <= k < i && blobs[k].Some? :: sizes[k] <= sizes[largest]
      {
        if blobs[i].None? {
          i := i + 1;
          continue;
        }
        if largest < 0 || sizes[i] > sizes[largest] {
          largest := i;
        }
        i := i + 1;
      }
      assert largest >= 0 ==> largest in Present();
    }

    /** Empty one entry: its id stays, its blob goes, its flag is raised. */
    method DropOne(i: nat)
      requires Parallel() && i in Present()
      modifies this`blobs, this`dropped
      ensures blobs == old(blobs)[i := None] && dropped == old(dropped)[i := true]
      ensures Parallel() && Present() == old(Present()) - {i} && old(Used()) == Used() + sizes[i]
    {
      ghost var was := Present();
      blobs := blobs[i := None];
      dropped := dropped[i := true];
      assert Present() == was - {i};
      assert Present() + {i} == was;
      WeightAdd(sizes, Present(), i, |sizes|);
    }

    /** Only filled entries were emptied, and exactly the emptied ones newly flagged. */
    ghost predicate Emptied(was: seq<Option<string>>, flags: seq<bool>)
      requires Parallel() && |was| == |flags| == |blobs|
      reads this
    {
      && (forall i | 0 <= i < |blobs| :: blobs[i] == was[i] || (was[i].Some? && blobs[i].None?))
      && (forall i | 0 <= i < |blobs| :: dropped[i] <==> flags[i] || blobs[i] != was[i])
    }

    /** `smallest` is what is left, with the blob dropped last if there is one: it was too much,
        and nothing dropped is smaller than anything in it. */
    ghost predicate LastDrop(was: set<nat>, smallest: set<nat>, budget: int)
      requires Parallel() && Indices(was, |blobs|)
      reads this
    {
      && Present() <= smallest <= was
      && NoLarger(sizes, smallest, was - Present())
      && (smallest == Present() == was
          || (|smallest| == |Present()| + 1 && Weight(sizes, smallest, |sizes|) > budget))
    }

    ghost predicate Fits(chosen: set<nat>, migrantPayloadBytes: nat)
      reads this
    {
      Weight(sizes, chosen, |sizes|) + migrantPayloadBytes <= MAX_FRAME_BYTES - FRAME_HEADROOM_BYTES
    }

    method DropUntil(budget: int) returns (ghost smallest: set<nat>)
      requires Parallel()
      modifies this`blobs, this`dropped
      ensures Parallel() && Emptied(old(blobs), old(dropped)) && LastDrop(old(Present()), smallest, budget)
      ensures Used() <= budget || Present() == {}
    {
      ghost var was := Present();
      smallest := was;
      var used: int := SumSizes();
      while used > budget
        invariant Parallel() && used == Used()
        invariant Emptied(old(blobs), old(dropped))
        invariant LastDrop(was, smallest, budget)
        decreases |Present()|
      {
        var largest := Largest();
        if largest < 0 {
          break;
        }
        smallest := Present();
        DropLargest(largest, was, old(blobs), old(dropped), budget);
        used := used - sizes[largest];
      }
    }

    method DropLargest(largest: nat, ghost was: set<nat>, ghost wasBlobs: seq<Option<string>>, ghost flags: seq<bool>,
          ghost budget: int)
      requires Parallel() && |wasBlobs| == |flags| == |blobs| && Emptied(wasBlobs, flags)
      requires Indices(was, |blobs|) && Present() <= was && NoLarger(sizes, Present(), was - Present())
      requires largest in Present() && Used() > budget && forall i | i in Present() :: sizes[i] <= sizes[largest]
      modifies this`blobs, this`dropped
      ensures Parallel() && Emptied(wasBlobs, flags) && LastDrop(was, old(Present()), budget)
      ensures |Present()| < old(|Present()|) && old(Used()) == Used() + sizes[largest]
    {
      OneMoreDrop(sizes, was, Present(), largest);
      DropOne(largest);
    }

    /** Drop blobs, largest first, until the frame fits. Every id stays; exactly the emptied
        entries are flagged; the migrant with the kept blobs fits whenever the migrant alone does;
        and no choice of blobs that fits keeps more of them. */
    method DropForSize(migrantPayloadBytes: nat)
      requires Parallel()
      modifies this`blobs, this`dropped
      ensures Parallel() && Emptied(old(blobs), old(dropped))
      ensures migrantPayloadBytes <= MAX_PAYLOAD_BYTES ==> Fits(Present(), migrantPayloadBytes)
      ensures Fits(Present(), migrantPayloadBytes) || Present() == {}
      ensures forall other: set<nat> | other <= old(Present()) && Fits(other, migrantPayloadBytes) ::
        |other| <= |Present()|
    {
      var budget := MAX_FRAME_BYTES - FRAME_HEADROOM_BYTES - migrantPayloadBytes;
      ghost var was := Present();
      ghost var smallest := DropUntil(budget);
      WeightOfNothing(sizes, |sizes|);
      forall other: set<nat> | other <= was && Fits(other, migrantPayloadBytes) ensures |other| <= |Present()| {
        MostAreKept(was, smallest, budget, other);
      }
    }

    lemma MostAreKept(was: set<nat>, smallest: set<nat>, budget: int, other: set<nat>)
      requires Parallel() && Indices(was, |blobs|) && LastDrop(was, smallest, budget)
      requires other <= was && Weight(sizes, other, |sizes|) <= budget
      ensures |other| <= |Present()|
    {
      if Present() == was {
        SubsetIsSmaller(other, Present());
      } else {
        LargestFirstKeepsMost(sizes, was, Present(), smallest, budget, other);
      }
    }
  }

  /** Dropping the largest of what is left keeps everything dropped at least as large as
      everything left and the one dropped. */
  lemma OneMoreDrop(sizes: seq<nat>, was: set<nat>, left: set<nat>, largest: nat)
    requires Indices(was, |sizes|) && left <= was && NoLarger(sizes, left, was - left)
    requires largest in left && forall i | i in left :: sizes[i] <= sizes[largest]
    ensures var rest := left - {largest};
      NoLarger(sizes, left, was - rest) && |left| == |rest| + 1 && was - rest == (was - left) + {largest}
  {
    assert was - (left - {largest}) == (was - left) + {largest};
  }
}
