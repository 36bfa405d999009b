/** The structural comparison of two payloads, cut off at a number of differences
    (bibites-mod/src/JsonDiff.cs). */
module JsonDiffs {
  import opened ContractA

  /** A token. `kind` is the type of a value that has no parts (null included), `text` its value. */
  datatype Json = Leaf(kind: nat, text: string) | Arr(items: seq<Json>) | Obj(fields: seq<Field>)

  datatype Field = Field(name: string, value: Json)

  datatype Step = Member(name: string) | At(index: nat)

  type Path = seq<Step>

  datatype Entry =
    | AbsentBefore(path: Path, now: Json)
    | AbsentAfter(path: Path, was: Json)
    | TypeChanged(path: Path, was: Json, now: Json)
    | LengthChanged(path: Path, wasLength: nat, nowLength: nat)
    | ValueChanged(path: Path, was: Json, now: Json)

  predicate SameType(a: Json, b: Json) {
    || (a.Leaf? && b.Leaf? && a.kind == b.kind)
    || (a.Arr? && b.Arr?)
    || (a.Obj? && b.Obj?)
  }

  /** `JObject[name]`: nothing when there is no such property. */
  function Lookup(fields: seq<Field>, name: string): Option<Json> {
    if fields == [] then None
    else if fields[0].name == name then Some(fields[0].value)
    else Lookup(fields[1..], name)
  }

  function NamesOf(fields: seq<Field>): seq<string> {
    if fields == [] then [] else [fields[0].name] + NamesOf(fields[1..])
  }

  /** Append the names that are not in the list yet. */
  function AddNames(names: seq<string>, fields: seq<Field>): seq<string>
    decreases |fields|
  {
    if fields == [] then names
    else AddNames(if fields[0].name in names then names else names + [fields[0].name], fields[1..])
  }

  // ---- size ----------------------------------------------------------------------------

  function Size(j: Json): nat
    decreases j
  {
    match j
    case Leaf(_, _) => 1
    case Arr(items) => 1 + SizeOfItems(j, items)
    case Obj(fields) => 1 + SizeOfFields(j, fields)
  }

  function SizeOfItems(j: Json, items: seq<Json>): nat
    requires forall i | 0 <= i < |items| :: items[i] < j
    decreases j, |items|
  {
    if items == [] then 0 else Size(items[0]) + SizeOfItems(j, items[1..])
  }

  function SizeOfFields(j: Json, fields: seq<Field>): nat
    requires forall f | f in fields :: f.value < j
    decreases j, |fields|
  {
    if fields == [] then 0 else Size(fields[0].value) + SizeOfFields(j, fields[1..])
  }

  lemma {:induction false} ItemIsSmaller(j: Json, items: seq<Json>, i: nat)
    requires (forall k | 0 <= k < |items| :: items[k] < j) && i < |items|
    ensures Size(items[i]) <= SizeOfItems(j, items)
    decreases |items|
  {
    if i > 0 { ItemIsSmaller(j, items[1..], i - 1); }
  }

  lemma {:induction false} FieldIsSmaller(j: Json, fields: seq<Field>, name: string)
    requires forall f | f in fields :: f.value < j
    ensures Lookup(fields, name).Some? ==> Size(Lookup(fields, name).value) <= SizeOfFields(j, fields)
    decreases |fields|
  {
    if fields != [] && fields[0].name != name { FieldIsSmaller(j, fields[1..], name); }
  }

  function SizeOf(j: Option<Json>): nat {
    if j.None? then 0 else Size(j.value)
  }

  // ---- the uncapped difference ---------------------------------------------------------

  function Diff(path: Path, before: Option<Json>, after: Option<Json>): seq<Entry>
    decreases SizeOf(before), 1, 0
  {
    if before.None? && after.None? then []
    else if before.None? then [AbsentBefore(path, after.value)]
    else if after.None? then [AbsentAfter(path, before.value)]
    else if !SameType(before.value, after.value) then [TypeChanged(path, before.value, after.value)]
    else match before.value
      case Leaf(_, text) => if text == after.value.text then [] else [ValueChanged(path, before.value, after.value)]
      case Arr(items) => LengthDiff(path, |items|, |after.value.items|)
        + ItemsDiff(path, before.value, after.value, Shared(before.value, after.value))
      case Obj(fields) => FieldsDiff(path, before.value, after.value, AddNames(NamesOf(fields), after.value.fields))
  }

  function LengthDiff(path: Path, a: nat, b: nat): seq<Entry> {
    if a != b then [LengthChanged(path, a, b)] else []
  }

  function Shared(before: Json, after: Json): (n: nat)
    requires before.Arr? && after.Arr?
    ensures n <= |before.items| && n <= |after.items|
  {
    if |before.items| < |after.items| then |before.items| else |after.items|
  }

  /** The differences of the first `n` items. */
  function ItemsDiff(path: Path, before: Json, after: Json, n: nat): seq<Entry>
    requires before.Arr? && after.Arr? && n <= Shared(before, after)
    decreases Size(before), 0, n
  {
    if n == 0 then []
    else
      ItemIsSmaller(before, before.items, n - 1);
      ItemsDiff(path, before, after, n - 1)
        + Diff(path + [At(n - 1)], Some(before.items[n - 1]), Some(after.items[n - 1]))
  }

  /** The differences of the named members, in the order of the names. */
  function FieldsDiff(path: Path, before: Json, after: Json, names: seq<string>): seq<Entry>
    requires before.Obj? && after.Obj?
    decreases Size(before), 0, |names|
  {
    if names == [] then []
    else
      var n := |names| - 1;
      FieldIsSmaller(before, before.fields, names[n]);
      FieldsDiff(path, before, after, names[..n])
        + Diff(path + [Member(names[n])], Lookup(before.fields, names[n]), Lookup(after.fields, names[n]))
  }

  // ---- the cap -------------------------------------------------------------------------

  function First(s: seq<Entry>, n: int): seq<Entry> {
    if |s| <= n || n < 0 then s else s[..n]
  }

  /** `list`, and as much of `more` as fits under `max`. */
  function Capped(list: seq<Entry>, more: seq<Entry>, max: int): seq<Entry> {
    if |list| >= max then list else First(list + more, max)
  }

  lemma FirstOfMore(s: seq<Entry>, t: seq<Entry>, n: nat)
    requires n <= |s|
    ensures First(s + t, n) == s[..n]
  {
    assert (s + t)[..n] == s[..n];
  }

  lemma CappedTwice(list: seq<Entry>, a: seq<Entry>, b: seq<Entry>, max: int)
    ensures Capped(Capped(list, a, max), b, max) == Capped(list, a + b, max)
  {
    assert list + (a + b) == (list + a) + b;
    if |list| < max <= |list + a| {
      FirstOfMore(list + a, b, max);
    }
  }

  /** A full list stays as it is, however much longer the difference is. */
  lemma FullStays(list: seq<Entry>, part: seq<Entry>, whole: seq<Entry>, max: int)
    requires part <= whole && |Capped(list, part, max)| >= max
    ensures Capped(list, whole, max) == Capped(list, part, max)
  {
    assert whole == part + whole[|part|..];
    CappedTwice(list, part, whole[|part|..], max);
  }

  // ---- the code ------------------------------------------------------------------------

  class DiffList {
    var entries: seq<Entry>

    constructor ()
      ensures entries == []
    {
      entries := [];
    }

    method Add(e: Entry)
      modifies this
      ensures entries == old(entries) + [e]
    {
      entries := entries + [e];
    }
  }

  method Walk(path: Path, before: Option<Json>, after: Option<Json>, diffs: DiffList, max: int)
    modifies diffs
    ensures diffs.entries == Capped(old(diffs.entries), Diff(path, before, after), max)
    decreases SizeOf(before), 1
  {
    if |diffs.entries| >= max {
      return;
    }
    if before.None? && after.None? {
      return;
    }
    if before.None? {
      diffs.Add(AbsentBefore(path, after.value));
      return;
    }
    if after.None? {
      diffs.Add(AbsentAfter(path, before.value));
      return;
    }
    if !SameType(before.value, after.value) {
      diffs.Add(TypeChanged(path, before.value, after.value));
      return;
    }
    match before.value {
      case Obj(_) => WalkFields(path, before.value, after.value, diffs, max);
      case Arr(_) => WalkItems(path, before.value, after.value, diffs, max);
      case Leaf(_, text) =>
        if text != after.value.text {
          diffs.Add(ValueChanged(path, before.value, after.value));
        }
    }
  }

  method CollectNames(before: Json, after: Json) returns (names: seq<string>)
    requires before.Obj? && after.Obj?
    ensures names == AddNames(NamesOf(before.fields), after.fields)
  {
    names := [];
    var i := 0;
    while i < |before.fields|
      invariant 0 <= i <= |before.fields|
      invariant NamesOf(before.fields) == names + NamesOf(before.fields[i..])
    {
      names := names + [before.fields[i].name];
      i := i + 1;
    }
    assert before.fields[i..] == [] && after.fields[0..] == after.fields;
    assert names == NamesOf(before.fields);
    i := 0;
    while i < |after.fields|
      invariant 0 <= i <= |after.fields|
      invariant AddNames(NamesOf(before.fields), after.fields) == AddNames(names, after.fields[i..])
    {
      if after.fields[i].name !in names {
        names := names + [after.fields[i].name];
      }
      i := i + 1;
    }
  }

  method WalkFields(path: Path, before: Json, after: Json, diffs: DiffList, max: int)
    requires before.Obj? && after.Obj? && |diffs.entries| < max
    modifies diffs
    ensures diffs.entries == Capped(old(diffs.entries), Diff(path, Some(before), Some(after)), max)
    decreases Size(before), 0
  {
    var names := CollectNames(before, after);
    var i := 0;
    ghost var start := diffs.entries;
    while i < |names|
      invariant 0 <= i <= |names|
      invariant diffs.entries == Capped(start, FieldsDiff(path, before, after, names[..i]), max)
    {
      FieldsNext(path, before, after, names, i, start, max);
      if |diffs.entries| >= max {
        FieldsCut(path, before, after, names, i, start, max);
        return;
      }
      Walk(path + [Member(names[i])], Lookup(before.fields, names[i]), Lookup(after.fields, names[i]), diffs, max);
      i := i + 1;
    }
    assert names[..i] == names;
  }

  lemma FieldsNext(path: Path, before: Json, after: Json, names: seq<string>, i: nat, start: seq<Entry>, max: int)
    requires before.Obj? && after.Obj? && i < |names|
    ensures SizeOf(Lookup(before.fields, names[i])) < Size(before)
    ensures Capped(Capped(start, FieldsDiff(path, before, after, names[..i]), max),
                   Diff(path + [Member(names[i])],
                        Lookup(before.fields, names[i]), Lookup(after.fields, names[i])), max)
         == Capped(start, FieldsDiff(path, before, after, names[..i + 1]), max)
  {
    FieldIsSmaller(before, before.fields, names[i]);
    assert names[..i + 1][..i] == names[..i];
    CappedTwice(start, FieldsDiff(path, before, after, names[..i]),
      Diff(path + [Member(names[i])], Lookup(before.fields, names[i]), Lookup(after.fields, names[i])), max);
  }

  lemma {:induction false} FieldsPrefix(path: Path, before: Json, after: Json, names: seq<string>, i: nat)
    requires before.Obj? && after.Obj? && i <= |names|
    ensures FieldsDiff(path, before, after, names[..i]) <= FieldsDiff(path, before, after, names)
    decreases |names|
  {
    if i == |names| {
      assert names[..i] == names;
    } else {
      assert names[..|names| - 1][..i] == names[..i];
      FieldsPrefix(path, before, after, names[..|names| - 1], i);
    }
  }

  /** Once the list is full the remaining members add nothing. */
  lemma FieldsCut(path: Path, before: Json, after: Json, names: seq<string>, i: nat, list: seq<Entry>, max: int)
    requires before.Obj? && after.Obj? && i <= |names|
    requires |Capped(list, FieldsDiff(path, before, after, names[..i]), max)| >= max
    ensures Capped(list, FieldsDiff(path, before, after, names), max)
      == Capped(list, FieldsDiff(path, before, after, names[..i]), max)
  {
    FieldsPrefix(path, before, after, names, i);
    FullStays(list, FieldsDiff(path, before, after, names[..i]), FieldsDiff(path, before, after, names), max);
  }

  method WalkItems(path: Path, before: Json, after: Json, diffs: DiffList, max: int)
    requires before.Arr? && after.Arr? && |diffs.entries| < max
    modifies diffs
    ensures diffs.entries == Capped(old(diffs.entries), Diff(path, Some(before), Some(after)), max)
    decreases Size(before), 0
  {
    ghost var length := LengthDiff(path, |before.items|, |after.items|);
    if |before.items| != |after.items| {
      diffs.Add(LengthChanged(path, |before.items|, |after.items|));
    }
    ghost var start := diffs.entries;
    var shared := Shared(before, after);
    CappedTwice(old(diffs.entries), length, ItemsDiff(path, before, after, shared), max);
    var i := 0;
    while i < shared
      invariant 0 <= i <= shared
      invariant diffs.entries == Capped(start, ItemsDiff(path, before, after, i), max)
    {
      ghost var step := Diff(path + [At(i)], Some(before.items[i]), Some(after.items[i]));
      CappedTwice(start, ItemsDiff(path, before, after, i), step, max);
      ItemIsSmaller(before, before.items, i);
      if |diffs.entries| >= max {
        ItemsCut(path, before, after, i, shared, start, max);
        return;
      }
      Walk(path + [At(i)], Some(before.items[i]), Some(after.items[i]), diffs, max);
      i := i + 1;
    }
  }

  lemma {:induction false} ItemsPrefix(path: Path, before: Json, after: Json, i: nat, n: nat)
    requires before.Arr? && after.Arr? && i <= n <= Shared(before, after)
    ensures ItemsDiff(path, before, after, i) <= ItemsDiff(path, before, after, n)
    decreases n
  {
    if i < n { ItemsPrefix(path, before, after, i, n - 1); }
  }

  lemma ItemsCut(path: Path, before: Json, after: Json, i: nat, n: nat, list: seq<Entry>, max: int)
    requires before.Arr? && after.Arr? && i <= n <= Shared(before, after)
    requires |Capped(list, ItemsDiff(path, before, after, i), max)| >= max
    ensures Capped(list, ItemsDiff(path, before, after, n), max) == Capped(list, ItemsDiff(path, before, after, i), max)
  {
    ItemsPrefix(path, before, after, i, n);
    FullStays(list, ItemsDiff(path, before, after, i), ItemsDiff(path, before, after, n), max);
  }

  /** The first `max` differences, in order, and all of them when there are no more. */
  method Compare(before: Option<Json>, after: Option<Json>, max: int) returns (diffs: seq<Entry>)
    ensures var all := Diff([], before, after);
      diffs == if max <= 0 then [] else if |all| <= max then all else all[..max]
    ensures max >= 1 ==> (diffs == [] <==> SameOrAbsent(before, after))
  {
    var list := new DiffList();
    Walk([], before, after, list, max);
    diffs := list.entries;
    EmptyIffSame([], before, after);
  }

  // ---- what an empty difference means --------------------------------------------------

  ghost predicate SameOrAbsent(a: Option<Json>, b: Option<Json>) {
    (a.None? && b.None?) || (a.Some? && b.Some? && Same(a.value, b.value))
  }

  /** Equal trees, objects read as unordered maps from names to values. */
  ghost predicate Same(a: Json, b: Json)
    decreases Size(a), 1, 0
  {
    match a
    case Leaf(kind, text) => b == a
    case Arr(items) => b.Arr? && |b.items| == |items| && SameItems(a, b, |items|)
    case Obj(fields) => b.Obj? && SameMembers(a, b, AddNames(NamesOf(fields), b.fields))
  }

  /** The first `n` items are the same, one by one. */
  ghost predicate SameItems(a: Json, b: Json, n: nat)
    requires a.Arr? && b.Arr? && n <= |a.items| && n <= |b.items|
    decreases Size(a), 0, n
  {
    n == 0
    || (ItemIsSmaller(a, a.items, n - 1); SameItems(a, b, n - 1) && Same(a.items[n - 1], b.items[n - 1]))
  }

  /** Under every one of the names both objects have the same value, or neither has one. */
  ghost predicate SameMembers(a: Json, b: Json, names: seq<string>)
    requires a.Obj? && b.Obj?
    decreases Size(a), 0, |names|
  {
    names == []
    || (var n := |names| - 1;
        var x, y := Lookup(a.fields, names[n]), Lookup(b.fields, names[n]);
        FieldIsSmaller(a, a.fields, names[n]);
        SameMembers(a, b, names[..n]) && ((x.None? && y.None?) || (x.Some? && y.Some? && Same(x.value, y.value))))
  }

  lemma {:induction false} NamesAreFields(fields: seq<Field>, name: string)
    ensures name in NamesOf(fields) <==> Lookup(fields, name).Some?
  {
    if fields != [] { NamesAreFields(fields[1..], name); }
  }

  lemma {:induction false} AddedNames(names: seq<string>, fields: seq<Field>, name: string)
    ensures name in AddNames(names, fields) <==> name in names || name in NamesOf(fields)
    decreases |fields|
  {
    if fields != [] {
      AddedNames(if fields[0].name in names then names else names + [fields[0].name], fields[1..], name);
    }
  }

  lemma EmptyConcat(a: seq<Entry>, b: seq<Entry>)
    ensures a + b == [] <==> a == [] && b == []
  {
    assert |a + b| == |a| + |b|;
  }

  /** The uncapped difference is empty exactly when the trees are the same. */
  lemma {:induction false} EmptyIffSame(path: Path, before: Option<Json>, after: Option<Json>)
    ensures Diff(path, before, after) == [] <==> SameOrAbsent(before, after)
    decreases SizeOf(before), 1, 0
  {
    if before.Some? && after.Some? && SameType(before.value, after.value) {
      match before.value
      case Leaf(_, _) =>
      case Arr(items) =>
        var shared := Shared(before.value, after.value);
        ItemsEmptyIff(path, before.value, after.value, shared);
        EmptyConcat(LengthDiff(path, |items|, |after.value.items|), ItemsDiff(path, before.value, after.value, shared));
      case Obj(fields) =>
        FieldsEmptyIff(path, before.value, after.value, AddNames(NamesOf(fields), after.value.fields));
    }
  }

  lemma {:induction false} ItemsEmptyIff(path: Path, before: Json, after: Json, n: nat)
    requires before.Arr? && after.Arr? && n <= Shared(before, after)
    ensures ItemsDiff(path, before, after, n) == [] <==> SameItems(before, after, n)
    decreases Size(before), 0, n
  {
    if n > 0 {
      ItemIsSmaller(before, before.items, n - 1);
      ItemsEmptyIff(path, before, after, n - 1);
      EmptyIffSame(path + [At(n - 1)], Some(before.items[n - 1]), Some(after.items[n - 1]));
      EmptyConcat(ItemsDiff(path, before, after, n - 1),
        Diff(path + [At(n - 1)], Some(before.items[n - 1]), Some(after.items[n - 1])));
    }
  }

  lemma {:induction false} FieldsEmptyIff(path: Path, before: Json, after: Json, names: seq<string>)
    requires before.Obj? && after.Obj?
    ensures FieldsDiff(path, before, after, names) == [] <==> SameMembers(before, after, names)
    decreases Size(before), 0, |names|
  {
    if names != [] {
      var n := |names| - 1;
      FieldIsSmaller(before, before.fields, names[n]);
      FieldsEmptyIff(path, before, after, names[..n]);
      EmptyIffSame(path + [Member(names[n])], Lookup(before.fields, names[n]), Lookup(after.fields, names[n]));
      EmptyConcat(FieldsDiff(path, before, after, names[..n]),
        Diff(path + [Member(names[n])], Lookup(before.fields, names[n]), Lookup(after.fields, names[n])));
    }
  }

  ghost predicate AgreeAt(a: Json, b: Json, name: string)
    requires a.Obj? && b.Obj?
  {
    SameOrAbsent(Lookup(a.fields, name), Lookup(b.fields, name))
  }

  lemma {:induction false} SameMembersMeans(a: Json, b: Json, names: seq<string>)
    requires a.Obj? && b.Obj?
    ensures SameMembers(a, b, names) <==> forall name | name in names :: AgreeAt(a, b, name)
    decreases |names|
  {
    if names != [] {
      var n := |names| - 1;
      SameMembersMeans(a, b, names[..n]);
      assert names == names[..n] + [names[n]];
      assert forall name :: name in names <==> name in names[..n] || name == names[n];
      assert SameMembers(a, b, names) <==> SameMembers(a, b, names[..n]) && AgreeAt(a, b, names[n]);
    }
  }

  /** Two objects are the same when they are the same map from names to values: the order of
      their properties does not matter. */
  lemma ObjectsAreMaps(a: Json, b: Json)
    requires a.Obj? && b.Obj?
    ensures Same(a, b) <==> forall name: string :: AgreeAt(a, b, name)
  {
    var names := AddNames(NamesOf(a.fields), b.fields);
    SameMembersMeans(a, b, names);
    forall name: string | name !in names ensures AgreeAt(a, b, name) {
      AddedNames(NamesOf(a.fields), b.fields, name);
      NamesAreFields(a.fields, name);
      NamesAreFields(b.fields, name);
    }
  }

  // ---- which differences, and in which order -------------------------------------------

  /** What the two trees hold at a path, as far as both go along it. */
  function PairAt(before: Option<Json>, after: Option<Json>, path: Path): Option<(Option<Json>, Option<Json>)>
    decreases |path|
  {
    if path == [] then Some((before, after))
    else if before.None? || after.None? then None
    else
      var a, b := before.value, after.value;
      match path[0]
      case Member(name) =>
        if a.Obj? && b.Obj? then PairAt(Lookup(a.fields, name), Lookup(b.fields, name), path[1..]) else None
      case At(i) =>
        if a.Arr? && b.Arr? && i < |a.items| && i < |b.items| then PairAt(Some(a.items[i]), Some(b.items[i]), path[1..])
        else None
  }

  /** What the entry says of the two. */
  predicate Says(e: Entry, before: Option<Json>, after: Option<Json>) {
    match e
    case AbsentBefore(_, now) => before == None && after == Some(now)
    case AbsentAfter(_, was) => before == Some(was) && after == None
    case TypeChanged(_, was, now) => before == Some(was) && after == Some(now) && !SameType(was, now)
    case LengthChanged(_, m, n) =>
      before.Some? && before.value.Arr? && m == |before.value.items|
      && after.Some? && after.value.Arr? && n == |after.value.items| && m != n
    case ValueChanged(_, was, now) =>
      && before == Some(was)
      && after == Some(now)
      && was.Leaf?
      && now.Leaf?
      && was.kind == now.kind
      && was.text != now.text
  }

  /** The entry, as one below `path`, is right about the two trees. */
  ghost predicate Right(e: Entry, path: Path, before: Option<Json>, after: Option<Json>) {
    path <= e.path
    && var pair := PairAt(before, after, e.path[|path|..]);
      pair.Some? && Says(e, pair.value.0, pair.value.1)
  }

  lemma RightBelow(e: Entry, path: Path, step: Step, before: Option<Json>, after: Option<Json>, x: Option<Json>,
        y: Option<Json>)
    requires before.Some? && after.Some?
    requires PairAt(before, after, [step]) == Some((x, y))
    ensures Right(e, path + [step], x, y) <==> path + [step] <= e.path && Right(e, path, before, after)
  {
    if path + [step] <= e.path {
      var rest := e.path[|path|..];
      assert rest[0] == step && rest[1..] == e.path[|path| + 1..];
    }
  }

  /** The entry lies below `path` along a step of this list. */
  ghost predicate BelowItem(e: Entry, path: Path, n: nat) {
    path <= e.path && |e.path| > |path| && e.path[|path|].At? && e.path[|path|].index < n
  }

  ghost predicate BelowMember(e: Entry, path: Path, names: seq<string>) {
    path <= e.path && |e.path| > |path| && e.path[|path|].Member? && e.path[|path|].name in names
  }

  lemma {:induction false} DiffIsRight(path: Path, before: Option<Json>, after: Option<Json>, e: Entry)
    ensures e in Diff(path, before, after) <==> Right(e, path, before, after)
    decreases SizeOf(before), 1, 0
  {
    if path <= e.path && |e.path| > |path| {
      assert e.path[|path|..][0] == e.path[|path|];
    } else if path <= e.path {
      assert e.path == path && e.path[|path|..] == [];
    }
    if before.Some? && after.Some? && SameType(before.value, after.value) {
      match before.value
      case Leaf(_, _) =>
      case Arr(_) =>
        ItemsAreRight(path, before.value, after.value, Shared(before.value, after.value), e);
      case Obj(fields) =>
        var names := AddNames(NamesOf(fields), after.value.fields);
        FieldsAreRight(path, before.value, after.value, names, e);
        if Right(e, path, before, after) { NamedOrAbsent(before.value, after.value, e, path); }
    }
  }

  lemma {:induction false} ItemsAreRight(path: Path, before: Json, after: Json, n: nat, e: Entry)
    requires before.Arr? && after.Arr? && n <= Shared(before, after)
    ensures e in ItemsDiff(path, before, after, n)
      <==> Right(e, path, Some(before), Some(after)) && BelowItem(e, path, n)
    decreases Size(before), 0, n
  {
    if n > 0 {
      var x, y := Some(before.items[n - 1]), Some(after.items[n - 1]);
      ItemIsSmaller(before, before.items, n - 1);
      ItemsAreRight(path, before, after, n - 1, e);
      DiffIsRight(path + [At(n - 1)], x, y, e);
      RightBelow(e, path, At(n - 1), Some(before), Some(after), x, y);
      StepsBelow(e, path, At(n - 1));
    }
  }

  lemma StepsBelow(e: Entry, path: Path, step: Step)
    ensures path + [step] <= e.path <==> path <= e.path && |e.path| > |path| && e.path[|path|] == step
  {
  }

  lemma {:induction false} FieldsAreRight(path: Path, before: Json, after: Json, names: seq<string>, e: Entry)
    requires before.Obj? && after.Obj?
    ensures e in FieldsDiff(path, before, after, names)
       <==> Right(e, path, Some(before), Some(after)) && BelowMember(e, path, names)
    decreases Size(before), 0, |names|
  {
    if names != [] {
      var n := |names| - 1;
      var x, y := Lookup(before.fields, names[n]), Lookup(after.fields, names[n]);
      assert names == names[..n] + [names[n]];
      FieldIsSmaller(before, before.fields, names[n]);
      FieldsAreRight(path, before, after, names[..n], e);
      DiffIsRight(path + [Member(names[n])], x, y, e);
      RightBelow(e, path, Member(names[n]), Some(before), Some(after), x, y);
      StepsBelow(e, path, Member(names[n]));
    }
  }

  /** Under a name neither object has there is nothing to differ. */
  lemma NamedOrAbsent(before: Json, after: Json, e: Entry, path: Path)
    requires before.Obj? && after.Obj? && Right(e, path, Some(before), Some(after))
    ensures BelowMember(e, path, AddNames(NamesOf(before.fields), after.fields))
  {
    if e.path != path {
      var rest := e.path[|path|..];
      var name := rest[0].name;
      assert PairAt(Some(before), Some(after), rest)
        == PairAt(Lookup(before.fields, name), Lookup(after.fields, name), rest[1..]);
      AddedNames(NamesOf(before.fields), after.fields, name);
      NamesAreFields(before.fields, name);
      NamesAreFields(after.fields, name);
    }
  }

  // ---- the order of the differences ----------------------------------------------------

  function FirstPlace(fields: seq<Field>, name: string): nat {
    if fields == [] || fields[0].name == name then 0 else 1 + FirstPlace(fields[1..], name)
  }

  /** The properties of the first object come first, then those only the second has. */
  function Rank(before: Json, after: Json, name: string): nat
    requires before.Obj? && after.Obj?
  {
    if Lookup(before.fields, name).Some? then FirstPlace(before.fields, name)
    else |before.fields| + FirstPlace(after.fields, name)
  }

  /** A path comes before what lies below it; of two that part, items go by index and members by
      rank. */
  predicate Precedes(before: Option<Json>, after: Option<Json>, p: Path, q: Path)
    decreases |p|
  {
    if p == [] || q == [] then p == [] && q != []
    else if p[0] == q[0] then
      var pair := PairAt(before, after, [p[0]]);
      pair.Some? && Precedes(pair.value.0, pair.value.1, p[1..], q[1..])
    else if p[0].At? then q[0].At? && p[0].index < q[0].index
    else
      && q[0].Member? && before.Some? && before.value.Obj? && after.Some? && after.value.Obj?
      && Rank(before.value, after.value, p[0].name) < Rank(before.value, after.value, q[0].name)
  }

  ghost predicate InOrder(path: Path, before: Option<Json>, after: Option<Json>, s: seq<Entry>) {
    && (forall i | 0 <= i < |s| :: path <= s[i].path)
    && (forall i, j | 0 <= i < j < |s| :: Precedes(before, after, s[i].path[|path|..], s[j].path[|path|..]))
  }

  /** The properties of an object have different names, all the way down. */
  ghost predicate Proper(j: Json) {
    match j
    case Leaf(_, _) => true
    case Arr(items) => forall i | 0 <= i < |items| :: Proper(items[i])
    case Obj(fields) =>
      && (forall i, k | 0 <= i < k < |fields| :: fields[i].name != fields[k].name)
      && (forall i | 0 <= i < |fields| :: Proper(fields[i].value))
  }

  lemma {:induction false} LookupIsProper(fields: seq<Field>, name: string)
    requires forall i | 0 <= i < |fields| :: Proper(fields[i].value)
    ensures Lookup(fields, name).Some? ==> Proper(Lookup(fields, name).value)
  {
    if fields != [] && fields[0].name != name { LookupIsProper(fields[1..], name); }
  }

  lemma OrderBelow(path: Path, step: Step, before: Option<Json>, after: Option<Json>, x: Option<Json>, y: Option<Json>,
        s: seq<Entry>)
    requires PairAt(before, after, [step]) == Some((x, y)) && InOrder(path + [step], x, y, s)
    ensures InOrder(path, before, after, s)
  {
    forall i, j | 0 <= i < j < |s|
      ensures Precedes(before, after, s[i].path[|path|..], s[j].path[|path|..])
    {
      var p, q := s[i].path[|path|..], s[j].path[|path|..];
      assert path + [step] <= s[i].path && path + [step] <= s[j].path;
      assert p[0] == step && q[0] == step;
      assert p[1..] == s[i].path[|path| + 1..] && q[1..] == s[j].path[|path| + 1..];
      assert |path + [step]| == |path| + 1;
    }
  }

  lemma OrderJoined(path: Path, before: Option<Json>, after: Option<Json>, s: seq<Entry>, t: seq<Entry>)
    requires InOrder(path, before, after, s) && InOrder(path, before, after, t)
    requires forall e, f | e in s && f in t :: Precedes(before, after, e.path[|path|..], f.path[|path|..])
    ensures InOrder(path, before, after, s + t)
  {
  }

  lemma {:induction false} DiffInOrder(path: Path, before: Option<Json>, after: Option<Json>)
    requires before.Some? ==> Proper(before.value)
    ensures InOrder(path, before, after, Diff(path, before, after))
    decreases SizeOf(before), 1, 0
  {
    if before.Some? && after.Some? && SameType(before.value, after.value) {
      match before.value
      case Leaf(_, _) =>
      case Arr(items) =>
        var shared := Shared(before.value, after.value);
        var length, rest :=
          LengthDiff(path, |items|, |after.value.items|), ItemsDiff(path, before.value, after.value, shared);
        ItemsInOrder(path, before.value, after.value, shared);
        forall e, f | e in length && f in rest
          ensures path <= f.path && Precedes(before, after, e.path[|path|..], f.path[|path|..])
        {
          ItemsAreRight(path, before.value, after.value, shared, f);
        }
        OrderJoined(path, before, after, length, rest);
      case Obj(fields) =>
        NamesAreRanked(before.value, after.value);
        FieldsInOrder(path, before.value, after.value, AddNames(NamesOf(fields), after.value.fields));
    }
  }

  lemma {:induction false} ItemsInOrder(path: Path, before: Json, after: Json, n: nat)
    requires before.Arr? && after.Arr? && n <= Shared(before, after) && Proper(before)
    ensures InOrder(path, Some(before), Some(after), ItemsDiff(path, before, after, n))
    decreases Size(before), 0, n
  {
    if n > 0 {
      var x, y, step := Some(before.items[n - 1]), Some(after.items[n - 1]), At(n - 1);
      var s, t := ItemsDiff(path, before, after, n - 1), Diff(path + [step], x, y);
      ItemIsSmaller(before, before.items, n - 1);
      ItemsInOrder(path, before, after, n - 1);
      DiffInOrder(path + [step], x, y);
      OrderBelow(path, step, Some(before), Some(after), x, y, t);
      forall e, f | e in s && f in t
        ensures Precedes(Some(before), Some(after), e.path[|path|..], f.path[|path|..])
      {
        ItemsAreRight(path, before, after, n - 1, e);
        DiffIsRight(path + [step], x, y, f);
        StepsBelow(f, path, step);
        assert e.path[|path|..][0] == e.path[|path|] && f.path[|path|..][0] == step;
      }
      OrderJoined(path, Some(before), Some(after), s, t);
    }
  }

  ghost predicate Ranked(before: Json, after: Json, names: seq<string>)
    requires before.Obj? && after.Obj?
  {
    forall i, j | 0 <= i < j < |names| :: Rank(before, after, names[i]) < Rank(before, after, names[j])
  }

  lemma {:induction false} FieldsInOrder(path: Path, before: Json, after: Json, names: seq<string>)
    requires before.Obj? && after.Obj? && Proper(before) && Ranked(before, after, names)
    ensures InOrder(path, Some(before), Some(after), FieldsDiff(path, before, after, names))
    decreases Size(before), 0, |names|
  {
    if names != [] {
      var n := |names| - 1;
      var step, x, y := Member(names[n]), Lookup(before.fields, names[n]), Lookup(after.fields, names[n]);
      var s, t := FieldsDiff(path, before, after, names[..n]), Diff(path + [step], x, y);
      FieldIsSmaller(before, before.fields, names[n]);
      LookupIsProper(before.fields, names[n]);
      FieldsInOrder(path, before, after, names[..n]);
      DiffInOrder(path + [step], x, y);
      OrderBelow(path, step, Some(before), Some(after), x, y, t);
      forall e, f | e in s && f in t
        ensures Precedes(Some(before), Some(after), e.path[|path|..], f.path[|path|..])
      {
        FieldsAreRight(path, before, after, names[..n], e);
        DiffIsRight(path + [step], x, y, f);
        StepsBelow(f, path, step);
        assert e.path[|path|..][0] == e.path[|path|] && f.path[|path|..][0] == step;
        var k :| 0 <= k < n && names[k] == e.path[|path|].name;
      }
      OrderJoined(path, Some(before), Some(after), s, t);
    }
  }

  lemma {:induction false} PlaceIs(fields: seq<Field>, k: nat)
    requires k < |fields| && forall i | 0 <= i < k :: fields[i].name != fields[k].name
    ensures FirstPlace(fields, fields[k].name) == k && Lookup(fields, fields[k].name) == Some(fields[k].value)
  {
    if k > 0 { PlaceIs(fields[1..], k - 1); }
  }

  lemma {:induction false} NamesInPlace(fields: seq<Field>)
    ensures |NamesOf(fields)| == |fields|
    ensures forall i | 0 <= i < |fields| :: NamesOf(fields)[i] == fields[i].name
  {
    if fields != [] { NamesInPlace(fields[1..]); }
  }

  /** Adding the names of the second object from `k` on keeps the ranks in order. */
  lemma {:induction false} AddedAreRanked(before: Json, after: Json, names: seq<string>, k: nat)
    requires before.Obj? && after.Obj? && k <= |after.fields| && Ranked(before, after, names)
    requires forall name | name in names :: Rank(before, after, name) < |before.fields| + k
    requires forall name | Lookup(before.fields, name).Some? :: name in names
    requires forall i | 0 <= i < k :: after.fields[i].name in names
    ensures Ranked(before, after, AddNames(names, after.fields[k..]))
    decreases |after.fields| - k
  {
    if k < |after.fields| {
      var name := after.fields[k].name;
      assert after.fields[k..][0] == after.fields[k] && after.fields[k..][1..] == after.fields[k + 1..];
      if name in names {
        AddedAreRanked(before, after, names, k + 1);
      } else {
        PlaceIs(after.fields, k);
        assert Rank(before, after, name) == |before.fields| + k;
        AddedAreRanked(before, after, names + [name], k + 1);
      }
    }
  }

  lemma NamesAreRanked(before: Json, after: Json)
    requires before.Obj? && after.Obj? && Proper(before)
    ensures Ranked(before, after, AddNames(NamesOf(before.fields), after.fields))
  {
    var names := NamesOf(before.fields);
    NamesInPlace(before.fields);
    forall i | 0 <= i < |names| ensures Rank(before, after, names[i]) == i { PlaceIs(before.fields, i); }
    forall name | Lookup(before.fields, name).Some? ensures name in names { NamesAreFields(before.fields, name); }
    assert after.fields[0..] == after.fields;
    AddedAreRanked(before, after, names, 0);
  }

  /** The difference of two trees is exactly the list of the places where they differ, each with
      what differs there, in the order of the walk and so none twice. */
  lemma DifferenceMeans(before: Option<Json>, after: Option<Json>)
    ensures forall e :: e in Diff([], before, after) <==>
      PairAt(before, after, e.path).Some?
      && Says(e, PairAt(before, after, e.path).value.0, PairAt(before, after, e.path).value.1)
    ensures (before.Some? ==> Proper(before.value)) ==>
      forall i, j | 0 <= i < j < |Diff([], before, after)| ::
        Precedes(before, after, Diff([], before, after)[i].path, Diff([], before, after)[j].path)
  {
    forall e ensures e in Diff([], before, after) <==> Right(e, [], before, after) {
      DiffIsRight([], before, after, e);
    }
    assert forall p: Path :: p[0..] == p;
    if before.Some? ==> Proper(before.value) { DiffInOrder([], before, after); }
  }
}
