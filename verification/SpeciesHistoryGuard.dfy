/** The guard in front of a world save: the derived counters of a species' history are set to
    what the save loop will write (bibites-mod/src/SpeciesHistoryGuard.cs). */
module HistoryGuard {

  /** The largest value the game's 16-bit counter holds. */
  const COUNTER_MAX: int := 65535

  /** The four indices that delimit the live window, over scales of the given sizes. */
  datatype Window = Window(
    scaleOfDisappearance: int, indexOfDisappearance: int, scaleOfApparition: int, indexOfApparition: int,
    nScales: nat, sizes: seq<int>)
  {
    function DataSizeAtScale(scale: nat): int {
      if scale < |sizes| then sizes[scale] else 0
    }

    /** How many points of one scale the window covers. */
    function Width(scale: nat): (width: nat)
      ensures scale < scaleOfDisappearance || scale > scaleOfApparition ==> width == 0
    {
      if scale < scaleOfDisappearance || scale > scaleOfApparition then 0
      else
        var first := if scale == scaleOfDisappearance then indexOfDisappearance + 1 else 0;
        var last := if scale == scaleOfApparition then indexOfApparition else DataSizeAtScale(scale) - 1;
        if first < 0 || last < 0 || last < first then 0 else last - first + 1
    }

    /** The scales the save loop visits, and those among them whose pushes it also writes. */
    function Scales(): (n: nat)
      ensures n <= nScales
    {
      if scaleOfApparition < 0 then 0 else if scaleOfApparition < nScales then scaleOfApparition + 1 else nScales
    }

    function PushScales(): (n: nat)
      ensures n <= Scales()
    {
      if Scales() == nScales && nScales > 0 then nScales - 1 else Scales()
    }
  }

  // ---- sums ----------------------------------------------------------------------------

  function Sum(s: seq<int>): int {
    if s == [] then 0 else Sum(s[..|s| - 1]) + s[|s| - 1]
  }

  function Widths(w: Window, n: nat): nat {
    if n == 0 then 0 else Widths(w, n - 1) + w.Width(n - 1)
  }

  lemma {:induction false} SumConcat(a: seq<int>, b: seq<int>)
    ensures Sum(a + b) == Sum(a) + Sum(b)
  {
    if b == [] {
      assert a + b == a;
    } else {
      assert (a + b)[..|a + b| - 1] == a + b[..|b| - 1];
      SumConcat(a, b[..|b| - 1]);
    }
  }

  lemma {:induction false} SumOfNats(s: seq<int>)
    requires forall i | 0 <= i < |s| :: s[i] >= 0
    ensures Sum(s) >= 0
  {
    if s != [] { SumOfNats(s[..|s| - 1]); }
  }

  lemma {:induction false} WidthsPastTheWindow(w: Window, n: nat)
    requires n <= w.nScales
    ensures Widths(w, n) == Widths(w, if n < w.Scales() then n else w.Scales())
  {
    if n > w.Scales() { WidthsPastTheWindow(w, n - 1); }
  }

  // ---- what a width counts -------------------------------------------------------------

  function From(lo: int, hi: int): (s: set<int>)
    ensures forall i :: i in s <==> lo <= i <= hi
    ensures |s| == if lo <= hi then hi - lo + 1 else 0
    decreases if lo <= hi then hi - lo + 1 else 0
  {
    if lo > hi then {} else From(lo, hi - 1) + {hi}
  }

  /** The points of one scale inside the window: past the point of disappearance on its scale, up
      to the point of apparition on its own, and every point of a scale in between. */
  predicate InWindow(w: Window, scale: nat, point: int) {
    && w.scaleOfDisappearance <= scale <= w.scaleOfApparition && point >= 0
    && (scale == w.scaleOfDisappearance ==> point > w.indexOfDisappearance)
    && (if scale == w.scaleOfApparition then point <= w.indexOfApparition else point < w.DataSizeAtScale(scale))
  }

  /** A width is the number of such points; only a disappearance before the first place a window
      can begin at makes it 0 on that scale instead. */
  lemma WidthIsCount(w: Window, scale: nat) returns (points: set<int>)
    ensures forall i :: i in points <==> InWindow(w, scale, i)
    ensures w.Width(scale)
         == if scale == w.scaleOfDisappearance && w.indexOfDisappearance < -1 then 0 else |points|
  {
    if scale < w.scaleOfDisappearance || scale > w.scaleOfApparition {
      points := {};
    } else {
      var first := if scale == w.scaleOfDisappearance
        && w.indexOfDisappearance >= 0 then w.indexOfDisappearance + 1 else 0;
      var last := if scale == w.scaleOfApparition then w.indexOfApparition else w.DataSizeAtScale(scale) - 1;
      points := From(first, last);
    }
  }

  /** The save loop visits every scale up to the one of apparition, and writes the pushes of each
      but the last scale of all. */
  lemma ScalesMean(w: Window, scale: nat)
    ensures scale < w.Scales() <==> scale < w.nScales && scale <= w.scaleOfApparition
    ensures scale < w.PushScales() <==> scale < w.nScales - 1 && scale <= w.scaleOfApparition
  {
  }

  // ---- the repair ----------------------------------------------------------------------

  function Clamped(width: nat): (c: int)
    ensures 0 <= c <= COUNTER_MAX && c <= width
  {
    if width > COUNTER_MAX then COUNTER_MAX else width
  }

  function Repaired(present: seq<int>, w: Window): (r: seq<int>)
    ensures |r| == |present|
    ensures forall i | 0 <= i < |r| :: r[i] == if i < w.nScales then Clamped(w.Width(i)) else present[i]
  {
    seq(|present|, i requires 0 <= i < |present| => if i < w.nScales then Clamped(w.Width(i)) else present[i])
  }

  /** What the save loop writes. */
  function Written(w: Window, push: seq<int>): int
    requires w.PushScales() <= |push|
  {
    Widths(w, w.Scales()) + Sum(push[..w.PushScales()])
  }

  /** What it sizes its buffers for. */
  function Budget(present: seq<int>, push: seq<int>): int {
    Sum(present) + Sum(push)
  }

  /** The part of the first `n` widths that a counter array of length `len` cannot hold. */
  function Shortfall(w: Window, len: nat, n: nat): nat {
    if n == 0 then 0
    else Shortfall(w, len, n - 1) + w.Width(n - 1) - if n - 1 < len then Clamped(w.Width(n - 1)) else 0
  }

  lemma {:induction false} RepairedPrefix(present: seq<int>, w: Window, n: nat)
    requires n <= |present| && n <= w.nScales
    ensures Sum(Repaired(present, w)[..n]) == Widths(w, n) - Shortfall(w, |present|, n)
  {
    if n > 0 {
      var r := Repaired(present, w);
      assert r[..n][..n - 1] == r[..n - 1];
      RepairedPrefix(present, w, n - 1);
    }
  }

  lemma {:induction false} ShortfallPast(w: Window, len: nat, n: nat)
    requires len <= n
    ensures Shortfall(w, len, n) == Shortfall(w, len, len) + Widths(w, n) - Widths(w, len)
  {
    if n > len { ShortfallPast(w, len, n - 1); }
  }

  lemma {:induction false} RepairedTail(present: seq<int>, w: Window)
    requires w.nScales <= |present|
    ensures Repaired(present, w)[w.nScales..] == present[w.nScales..]
  {
  }

  /** The surplus of the counter array: entries past the last scale. */
  function Surplus(present: seq<int>, w: Window): seq<int> {
    if w.nScales <= |present| then present[w.nScales..] else []
  }

  lemma RepairedSum(w: Window, present: seq<int>)
    ensures Sum(Repaired(present, w))
         == Widths(w, w.Scales()) + Sum(Surplus(present, w)) - Shortfall(w, |present|, w.nScales)
  {
    var r := Repaired(present, w);
    WidthsPastTheWindow(w, w.nScales);
    if w.nScales <= |present| {
      RepairedPrefix(present, w, w.nScales);
      RepairedTail(present, w);
      assert r == r[..w.nScales] + r[w.nScales..];
      SumConcat(r[..w.nScales], r[w.nScales..]);
    } else {
      RepairedPrefix(present, w, |present|);
      assert r[..|present|] == r;
      ShortfallPast(w, |present|, w.nScales);
    }
  }

  lemma SumSplit(s: seq<int>, n: nat)
    requires n <= |s|
    ensures Sum(s) == Sum(s[..n]) + Sum(s[n..])
  {
    assert s == s[..n] + s[n..];
    SumConcat(s[..n], s[n..]);
  }

  /** After a repair the save budget exceeds what the loop writes by exactly the push counters it
      does not reach plus the surplus entries, less whatever the counters could not hold. */
  lemma RepairBalances(w: Window, present: seq<int>, push: seq<int>)
    requires w.PushScales() <= |push|
    ensures Budget(Repaired(present, w), push) - Written(w, push)
      == Sum(push[w.PushScales()..]) + Sum(Surplus(present, w)) - Shortfall(w, |present|, w.nScales)
  {
    RepairedSum(w, present);
    SumSplit(push, w.PushScales());
  }

  /** Every window fits its counter. */
  predicate Fits(w: Window, len: nat) {
    forall i: nat | i < w.nScales :: w.Width(i) <= if i < len then COUNTER_MAX else 0
  }

  lemma {:induction false} ShortfallZeroIff(w: Window, len: nat, n: nat)
    ensures Shortfall(w, len, n) == 0 <==> forall i: nat | i < n :: w.Width(i) <= if i < len then COUNTER_MAX else 0
  {
    if n > 0 { ShortfallZeroIff(w, len, n - 1); }
  }

  /** So, whatever the counters held before, a repaired history can be saved exactly when the
      tails cover what the counters could not hold; it can be if every window fits, and the
      tails are all that is left over exactly then. */
  lemma RepairMakesRoom(w: Window, present: seq<int>, push: seq<int>)
    requires w.PushScales() <= |push|
    requires forall i | 0 <= i < |push| :: push[i] >= 0
    requires forall i | 0 <= i < |present| :: present[i] >= 0
    ensures Written(w, push) <= Budget(Repaired(present, w), push)
       <==> Shortfall(w, |present|, w.nScales) <= Sum(push[w.PushScales()..]) + Sum(Surplus(present, w))
    ensures Fits(w, |present|) ==> Written(w, push) <= Budget(Repaired(present, w), push)
    ensures Fits(w, |present|)
       <==> Budget(Repaired(present, w), push) - Written(w, push) ==
            Sum(push[w.PushScales()..]) + Sum(Surplus(present, w))
  {
    RepairBalances(w, present, push);
    ShortfallZeroIff(w, |present|, w.nScales);
    SumOfNats(push[w.PushScales()..]);
    SumOfNats(Surplus(present, w));
  }

  lemma RepairIsIdempotent(w: Window, present: seq<int>)
    ensures Repaired(Repaired(present, w), w) == Repaired(present, w)
  {
  }

  /** The defect the guard is for: a counter that wrapped to zero promises less than the loop
      writes. And the clamp: a window past the counter's range is still short after a repair. */
  lemma WithoutRoom()
    ensures var w := Window(0, -1, 0, 4, 2, [10, 10]);
      Written(w, [0]) > Budget([0, 0], [0]) && Written(w, [0]) == Budget(Repaired([0, 0], w), [0])
    ensures var w := Window(0, -1, 0, 69999, 1, [70000]);
      Written(w, []) - Budget(Repaired([0], w), []) == 4465
  {
    var w := Window(0, -1, 0, 4, 2, [10, 10]);
    RepairBalances(w, [0, 0], [0]);
    assert w.Scales() == 1 && w.PushScales() == 1;
    assert [0][..1] == [0] && [0][1..] == [] && [0, 0][2..] == [];
    assert Shortfall(w, 2, 1) == 0;
    assert Widths(w, 0) == 0;
    assert [0, 0][..1] == [0] && [0][..0] == [];
    var v := Window(0, -1, 0, 69999, 1, [70000]);
    RepairBalances(v, [0], []);
    assert v.Width(0) == 70000;
    assert Shortfall(v, 1, 0) == 0;
    assert [0][1..] == [];
  }

  // ---- the code ------------------------------------------------------------------------

  class SpeciesHistory {
    var nPresentAtScale: array?<int>
    const pushCounters: array<int>
    var window: Window

    constructor (nPresentAtScale: array?<int>, pushCounters: array<int>, window: Window)
      ensures this.nPresentAtScale == nPresentAtScale && this.pushCounters == pushCounters && this.window == window
    {
      this.nPresentAtScale, this.pushCounters, this.window := nPresentAtScale, pushCounters, window;
    }
  }

  /** At how many of the first `n` places two lists differ. */
  function Differences(a: seq<int>, b: seq<int>, n: nat): nat
    requires n <= |a| && n <= |b|
  {
    if n == 0 then 0 else Differences(a, b, n - 1) + if a[n - 1] != b[n - 1] then 1 else 0
  }

  lemma {:induction false} DifferencesFrame(a: seq<int>, b: seq<int>, c: seq<int>, n: nat)
    requires n <= |a| && n <= |b| && n <= |c| && b[..n] == c[..n]
    ensures Differences(a, b, n) == Differences(a, c, n)
  {
    if n > 0 {
      assert b[..n][n - 1] == c[..n][n - 1];
      assert b[..n][..n - 1] == b[..n - 1] && c[..n][..n - 1] == c[..n - 1];
      DifferencesFrame(a, b, c, n - 1);
    }
  }

  lemma {:induction false} DifferencesStop(a: seq<int>, b: seq<int>, n: nat, m: nat)
    requires n <= m <= |a| && m <= |b| && forall k | n <= k < m :: a[k] == b[k]
    ensures Differences(a, b, m) == Differences(a, b, n)
  {
    if m > n { DifferencesStop(a, b, n, m - 1); }
  }

  lemma {:induction false} NoDifferenceIff(a: seq<int>, b: seq<int>, n: nat)
    requires n <= |a| && n <= |b|
    ensures Differences(a, b, n) == 0 <==> a[..n] == b[..n]
  {
    if n > 0 {
      NoDifferenceIff(a, b, n - 1);
      assert a[..n] == a[..n - 1] + [a[n - 1]] && b[..n] == b[..n - 1] + [b[n - 1]];
    }
  }

  /** Would a repair change anything? */
  predicate NeedsRepair(data: SpeciesHistory)
    reads data, data.nPresentAtScale
  {
    data.nPresentAtScale != null && Repaired(data.nPresentAtScale[..], data.window) != data.nPresentAtScale[..]
  }

  /** Only the counters change, and `changed` says how many did. */
  method Repair(data: SpeciesHistory) returns (changed: nat)
    modifies data.nPresentAtScale
    ensures data.nPresentAtScale == null ==> changed == 0
    ensures changed > 0 <==> old(NeedsRepair(data))
    ensures data.nPresentAtScale != null ==>
      && data.nPresentAtScale[..] == Repaired(old(data.nPresentAtScale[..]), data.window)
      && changed == Differences(old(data.nPresentAtScale[..]), data.nPresentAtScale[..], data.nPresentAtScale.Length)
  {
    changed := 0;
    if data.nPresentAtScale == null {
      return;
    }
    ghost var was := data.nPresentAtScale[..];
    changed := RepairCounters(data.nPresentAtScale, data.window);
    NoDifferenceIff(was, data.nPresentAtScale[..], |was|);
    assert was[..|was|] == was && data.nPresentAtScale[..][..|was|] == data.nPresentAtScale[..];
  }

  method RepairCounters(present: array<int>, w: Window) returns (changed: nat)
    modifies present
    ensures present[..] == Repaired(old(present[..]), w)
    ensures changed == Differences(old(present[..]), present[..], present.Length)
  {
    changed := 0;
    var scales := if present.Length < w.nScales then present.Length else w.nScales;
    ghost var was := present[..];
    var i := 0;
    while i < scales
      invariant 0 <= i <= scales && |was| == present.Length
      invariant forall k | 0 <= k < present.Length :: present[k] == if k < i then Clamped(w.Width(k)) else was[k]
      invariant changed == Differences(was, present[..], i)
    {
      var want := w.Width(i);
      if want > COUNTER_MAX {
        want := COUNTER_MAX;
      }
      ghost var before := present[..];
      if present[i] != want {
        present[i] := want;
        changed := changed + 1;
      }
      DifferencesFrame(was, before, present[..], i);
      i := i + 1;
    }
    DifferencesStop(was, present[..], scales, present.Length);
  }

  method PointsTheSaveLoopWrites(data: SpeciesHistory) returns (total: int)
    requires data.window.PushScales() <= data.pushCounters.Length
    ensures total == Written(data.window, data.pushCounters[..])
  {
    total := 0;
    var w := data.window;
    var i := 0;
    while i <= w.scaleOfApparition && i < w.nScales
      invariant 0 <= i <= w.Scales()
      invariant i == w.nScales && i > 0 ==> total == Widths(w, i) + Sum(data.pushCounters[..i - 1])
      invariant i < w.nScales || i == 0 ==> i <= w.PushScales() && total == Widths(w, i) + Sum(data.pushCounters[..i])
    {
      total := total + w.Width(i);
      if i == w.nScales - 1 {
        i := i + 1;
        break;
      }
      total := total + data.pushCounters[i];
      assert data.pushCounters[..i + 1][..i] == data.pushCounters[..i];
      i := i + 1;
    }
    assert data.pushCounters[..][..w.PushScales()] == data.pushCounters[..w.PushScales()];
  }

  method NPointsToSave(data: SpeciesHistory) returns (total: int)
    requires data.nPresentAtScale != null
    ensures total == Budget(data.nPresentAtScale[..], data.pushCounters[..])
  {
    var present := SumOf(data.nPresentAtScale);
    var push := SumOf(data.pushCounters);
    total := present + push;
  }

  method SumOf(a: array<int>) returns (total: int)
    ensures total == Sum(a[..])
  {
    total := 0;
    var i := 0;
    while i < a.Length
      invariant 0 <= i <= a.Length && total == Sum(a[..i])
    {
      assert a[..i + 1][..i] == a[..i];
      total := total + a[i];
      i := i + 1;
    }
    assert a[..i] == a[..];
  }

  ghost predicate Apart(recorded: seq<SpeciesHistory>)
    reads recorded
  {
    forall i, j | 0 <= i < j < |recorded| && recorded[i].nPresentAtScale != null ::
      recorded[i].nPresentAtScale != recorded[j].nPresentAtScale
  }

  lemma Extended(flags: seq<bool>, i: nat, flag: bool)
    requires i < |flags|
    ensures CountTrue(flags[..i] + [flag]) == CountTrue(flags[..i]) + if flag then 1 else 0
    ensures flag == flags[i] ==> flags[..i] + [flag] == flags[..i + 1]
  {
    assert (flags[..i] + [flag])[..i] == flags[..i];
  }

  /** The fields of a history stay, and its counters are repaired. */
  twostate predicate Mended(data: SpeciesHistory)
    reads data, data.nPresentAtScale
  {
    data.nPresentAtScale == old(data.nPresentAtScale) && data.window == old(data.window)
    && (data.nPresentAtScale != null ==>
      data.nPresentAtScale[..] == Repaired(old(data.nPresentAtScale[..]), data.window))
  }

  method RepairOne(data: SpeciesHistory) returns (corrected: bool)
    modifies data.nPresentAtScale
    ensures Mended(data) && corrected == old(NeedsRepair(data))
  {
    var changed := Repair(data);
    corrected := changed > 0;
  }

  ghost function Arrays(recorded: seq<SpeciesHistory>): set<array?<int>>
    reads recorded
  {
    set d | d in recorded :: d.nPresentAtScale
  }

  ghost function Needs(recorded: seq<SpeciesHistory>): (needs: seq<bool>)
    reads recorded, Arrays(recorded)
    ensures |needs| == |recorded|
    ensures forall k | 0 <= k < |recorded| :: needs[k] == NeedsRepair(recorded[k])
  {
    seq(|recorded|, k requires 0 <= k < |recorded| reads recorded, Arrays(recorded) => NeedsRepair(recorded[k]))
  }

  function CountTrue(flags: seq<bool>): nat {
    if flags == [] then 0 else CountTrue(flags[..|flags| - 1]) + if flags[|flags| - 1] then 1 else 0
  }

  /** Every recorded history is repaired before the save; the result counts those that needed it. */
  method RepairAll(recorded: seq<SpeciesHistory>) returns (arrays: nat)
    requires Apart(recorded)
    modifies Arrays(recorded)
    ensures forall d | d in recorded :: Mended(d)
    ensures arrays == CountTrue(old(Needs(recorded)))
  {
    arrays := 0;
    ghost var needs := Needs(recorded);
    ghost var hits: seq<bool> := [];
    var i := 0;
    while i < |recorded|
      invariant 0 <= i <= |recorded| && |hits| == i && arrays == CountTrue(hits)
      invariant hits == needs[..i]
      invariant forall k | i <= k < |recorded| :: needs[k] == old(NeedsRepair(recorded[k]))
      invariant forall k | 0 <= k < i :: Mended(recorded[k])
      invariant forall k | i <= k < |recorded| && recorded[k].nPresentAtScale != null ::
        unchanged(recorded[k].nPresentAtScale)
    {
      var d := recorded[i];
      assert d in recorded && d.nPresentAtScale in Arrays(recorded);
      assert forall k | 0 <= k < |recorded| && k != i && d.nPresentAtScale != null ::
        recorded[k].nPresentAtScale != d.nPresentAtScale;
      var corrected := RepairOne(d);
      Extended(needs, i, corrected);
      hits := hits + [corrected];
      i := i + 1;
      if !corrected {
        continue;
      }
      arrays := arrays + 1;
    }
    assert needs[..i] == needs;
  }
}
