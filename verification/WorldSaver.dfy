/** A world save as file operations that may each fail, or be the last thing the process does
    (Save, Rotate, Prune and CleanUpPartial of bibites-mod/src/WorldSaver.cs). */
module Saves {
  import opened ContractA
  import opened Lists
  import opened SaveNames

  /** What a file holds: which save wrote it, and whether it opens as an archive with a scene. */
  datatype Archive = Archive(version: nat, readable: bool)

  type Files = map<string, Archive>

  // ---- the guarantee -------------------------------------------------------------------

  /** `name` is where this world's saves are kept: the live file or a rotated one. */
  ghost predicate IsKept(world: string, name: string) {
    name == FinalName(world) || IsRotation(world, name)
  }

  predicate GoodAt(files: Files, name: string, version: nat) {
    name in files && files[name].readable && files[name].version >= version
  }

  /** Once a save has completed: some readable archive is at least as new, and the live file, if
      there is one, is such an archive. */
  ghost predicate Guarded(files: Files, world: string, completed: Option<nat>) {
    completed.Some? ==>
      && (FinalName(world) in files ==> GoodAt(files, FinalName(world), completed.value))
      && exists name :: IsKept(world, name) && GoodAt(files, name, completed.value)
  }

  /** A change to any file that is not one of this world's keeps the guarantee. */
  lemma OtherFileKeeps(before: Files, after: Files, world: string, completed: Option<nat>, name: string)
    requires Guarded(before, world, completed) && !IsKept(world, name)
    requires forall k | k != name :: (k in before <==> k in after) && (k in before ==> after[k] == before[k])
    ensures Guarded(after, world, completed)
  {
    if completed.Some? {
      var kept :| IsKept(world, kept) && GoodAt(before, kept, completed.value);
      assert GoodAt(after, kept, completed.value);
    }
  }

  /** With a good live file, a rotated one may go. */
  lemma RotationMayGo(before: Files, after: Files, world: string, completed: Option<nat>, name: string)
    requires Guarded(before, world, completed) && FinalName(world) in before && name != FinalName(world)
    requires forall k | k != name :: (k in before <==> k in after) && (k in before ==> after[k] == before[k])
    ensures Guarded(after, world, completed)
  {
    if completed.Some? {
      assert IsKept(world, FinalName(world)) && GoodAt(after, FinalName(world), completed.value);
    }
  }

  /** The live file may be renamed to a rotated name: the guarantee holds, with no live file. */
  lemma LiveMayRotate(before: Files, world: string, completed: Option<nat>, backup: string)
    requires
      && Guarded(before, world, completed)
      && FinalName(world) in before
      && IsRotation(world, backup)
      && backup != FinalName(world)
    ensures var after := (before - {FinalName(world)})[backup := before[FinalName(world)]];
      Guarded(after, world, completed) && FinalName(world) !in after
  {
    var after := (before - {FinalName(world)})[backup := before[FinalName(world)]];
    if completed.Some? {
      assert IsKept(world, backup) && GoodAt(after, backup, completed.value);
    }
  }

  /** A verified newer archive may become the live file. */
  lemma VerifiedMayGoLive(before: Files, world: string, completed: Option<nat>, part: string)
    requires part in before && part != FinalName(world) && before[part].readable
    requires completed.Some? ==> before[part].version >= completed.value
    ensures Guarded((before - {part})[FinalName(world) := before[part]], world, completed)
    ensures Guarded((before - {part})[FinalName(world) := before[part]], world, Some(before[part].version))
  {
    var after := (before - {part})[FinalName(world) := before[part]];
    assert IsKept(world, FinalName(world));
    assert GoodAt(after, FinalName(world), before[part].version);
  }

  lemma PartialIsNotKept(world: string)
    ensures !IsKept(world, PartialName(world))
  {
    forall stamp | StampShape(stamp) ensures PartialName(world) != BackupName(world, stamp) {
      NamesApart(world, stamp);
    }
    assert |PartialName(world)| != |FinalName(world)|;
  }

  // ---- one save as a function of what the operations do --------------------------------

  /** What becomes of a rename or a deletion: does it take effect, and is it reported as done? A
      failure may be reported with or without the effect. */
  datatype Fate = Fate(effect: bool, reported: bool)

  predicate Done(f: Fate) {
    f.effect && f.reported
  }

  /** What the writer leaves at its path. */
  datatype Written = Nothing | Left(readable: bool)

  /** Everything the outside decides about one save, up to its pruning. */
  datatype Fates = Fates(threw: bool, written: Written, dropBackup: Fate, first: Fate, second: Fate, cleanup: Fate)

  /** A rename never replaces a file. */
  function Moved(files: Files, from: string, to: string, f: Fate): Files {
    if f.effect && from in files && to !in files then (files - {from})[to := files[from]] else files
  }

  function Deleted(files: Files, path: string, f: Fate): Files {
    if f.effect then files - {path} else files
  }

  function AfterWrite(files: Files, path: string, version: nat, w: Written): Files {
    match w
    case Nothing => files - {path}
    case Left(readable) => files[path := Archive(version, readable)]
  }

  function Rotated(files: Files, world: string, stamp: string, f: Fates): (Files, bool) {
    var part, live, backup := PartialName(world), FinalName(world), BackupName(world, stamp);
    if live !in files then (Moved(files, part, live, f.second), Done(f.second))
    else if backup in files && !Done(f.dropBackup) then (Deleted(files, backup, f.dropBackup), false)
    else
      var moved := Moved(files - {backup}, live, backup, f.first);
      if !Done(f.first) then (moved, false) else (Moved(moved, part, live, f.second), Done(f.second))
  }

  /** A written partial that opens as an archive. */
  predicate Verified(f: Fates) {
    !f.threw && f.written == Left(true)
  }

  function Produced(files: Files, world: string, stamp: string, version: nat, f: Fates): (Files, bool) {
    var part := PartialName(world);
    var written := AfterWrite(files, part, version, f.written);
    var rotated := if Verified(f) then Rotated(written, world, stamp, f) else (written, false);
    if rotated.1 then rotated
    else (if part in rotated.0 then Deleted(rotated.0, part, f.cleanup) else rotated.0, false)
  }

  /** Does the save get as far as renaming the live file, and does that rename take effect? */
  predicate LiveRenamed(files: Files, world: string, stamp: string, f: Fates) {
    && FinalName(world) in files && Verified(f)
    && (BackupName(world, stamp) in files ==> Done(f.dropBackup))
    && f.first.effect
  }

  /** The live file, with the content it had. */
  predicate LiveInPlace(before: Files, after: Files, world: string) {
    FinalName(world) in before && FinalName(world) in after && after[FinalName(world)] == before[FinalName(world)]
  }

  /** A failed save leaves the previous live save in place exactly when its rename to the backup
      name did not take effect. When it did, the previous save is under the backup name, and there
      is a live file at all exactly when both renames took effect and only the second went
      unreported: then it is the new save. */
  lemma FailedSaveKeepsLiveIff(files: Files, world: string, stamp: string, version: nat, f: Fates)
    requires StampShape(stamp) && FinalName(world) in files && files[FinalName(world)] != Archive(version, true)
    requires !Produced(files, world, stamp, version, f).1
    ensures var after := Produced(files, world, stamp, version, f).0;
      && (LiveInPlace(files, after, world) <==> !LiveRenamed(files, world, stamp, f))
      && (LiveRenamed(files, world, stamp, f) ==>
        && GoodCopy(files, after, world, stamp)
        && (FinalName(world) in after <==> f.first.reported && f.second.effect))
  {
    NamesApart(world, stamp);
  }

  predicate GoodCopy(before: Files, after: Files, world: string, stamp: string)
    requires FinalName(world) in before
  {
    BackupName(world, stamp) in after && after[BackupName(world, stamp)] == before[FinalName(world)]
  }

  /** So a failed save may end with no live file: the first rename is done, the second is not. */
  lemma SaveMayLoseLive()
    ensures var files := map["World.zip" := Archive(1, true)];
      var done, failed := Fate(true, true), Fate(false, false);
      var f := Fates(false, Left(true), done, done, failed, done);
      var (after, ok) := Produced(files, "World", "20260101T000000Z", 2, f);
      !ok && "World.zip" !in after && after == map["World-20260101T000000Z.zip" := Archive(1, true)]
  {
    var stamp := "20260101T000000Z";
    assert FinalName("World") == "World.zip" && BackupName("World", stamp) == "World-20260101T000000Z.zip";
    NamesApart("World", stamp);
  }

  /** Exactly when a save succeeds: the writer did not throw and left an archive that opens, an old
      backup of the same second and the live file, if there were any, got out of the way, and the
      last rename was done. */
  lemma ProducedIff(files: Files, world: string, stamp: string, version: nat, f: Fates)
    requires StampShape(stamp)
    ensures Produced(files, world, stamp, version, f).1
       <==> !f.threw && f.written == Left(true) && Done(f.second)
            && (FinalName(world) in files ==>
                  Done(f.first) && (BackupName(world, stamp) in files ==> Done(f.dropBackup)))
  {
    NamesApart(world, stamp);
  }

  /** A save touches its partial, its backup and the live file only. A successful one leaves its
      archive live, the previous live archive as its backup, and no partial. */
  lemma ProducedMeans(files: Files, world: string, stamp: string, version: nat, f: Fates)
    requires StampShape(stamp)
    ensures var (after, ok) := Produced(files, world, stamp, version, f);
      forall k | k != PartialName(world) && k != FinalName(world) && k != BackupName(world, stamp) ::
        (k in after <==> k in files) && (k in files ==> after[k] == files[k])
    ensures var (after, ok) := Produced(files, world, stamp, version, f);
      ok ==>
        && FinalName(world) in after && after[FinalName(world)] == Archive(version, true)
        && PartialName(world) !in after
        && (FinalName(world) in files ==> GoodCopy(files, after, world, stamp))
  {
    NamesApart(world, stamp);
  }

  // ---- pruning -------------------------------------------------------------------------

  predicate OrdinalSorted(names: seq<string>) {
    forall i, j | 0 <= i < j < |names| :: OrdinalLess(names[i], names[j])
  }

  /** What becomes of the deletion at one position; one past the end of the list fails. */
  function DropAt(drops: seq<Fate>, i: nat): Fate {
    if i < |drops| then drops[i] else Fate(false, false)
  }

  /** `names` are the selected files in order. What is past the newest `keep` is gone exactly when
      its deletion took effect; nothing else is, and nothing changes. */
  ghost predicate PrunedTo(
      before: Files, after: Files, world: string, names: seq<string>, keep: nat, drops: seq<Fate>)
  {
    && OrdinalSorted(names) && (forall n :: n in names <==> n in before && Selected(world, n))
    && (forall k | k in after :: k in before && after[k] == before[k])
    && (forall k | k in before && !Selected(world, k) :: k in after)
    && forall i: nat | i < |names| :: names[i] in after <==> i >= |names| - keep || !DropAt(drops, i).effect
  }

  /** How many of the first `n` deletions are reported as done. */
  function CountDone(drops: seq<Fate>, n: nat): nat {
    if n == 0 then 0 else CountDone(drops, n - 1) + if Done(DropAt(drops, n - 1)) then 1 else 0
  }

  /** When every deletion takes effect exactly the newest `keep` selected files are left. */
  lemma NewestAreLeft(before: Files, after: Files, world: string, names: seq<string>, keep: nat, drops: seq<Fate>)
    requires PrunedTo(before, after, world, names, keep, drops)
    requires forall i: nat | i < |names| - keep :: DropAt(drops, i).effect
    ensures var from := if |names| <= keep then 0 else |names| - keep;
      forall n :: n in after && Selected(world, n) <==> n in names[from..]
  {
    var from := if |names| <= keep then 0 else |names| - keep;
    forall n ensures n in after && Selected(world, n) <==> n in names[from..] {
      if n in after && Selected(world, n) {
        assert n in names;
        var i: nat :| i < |names| && names[i] == n;
        assert names[from..][i - from] == n;
      }
      if n in names[from..] {
        var j: nat :| j < |names[from..]| && names[from..][j] == n;
        assert names[from + j] == n && n in names;
      }
    }
  }

  /** The first `n` names are gone exactly as their deletions took effect; the rest is as it was. */
  ghost predicate DroppedUpTo(start: Files, now: Files, names: seq<string>, n: nat, drops: seq<Fate>) {
    && n <= |names|
    && (forall k | k in now :: k in start && now[k] == start[k])
    && (forall k | k in start && k !in names[..n] :: k in now)
    && forall i: nat | i < n :: names[i] in now <==> !DropAt(drops, i).effect
  }

  lemma DroppedNext(start: Files, before: Files, now: Files, names: seq<string>, n: nat, drops: seq<Fate>)
    requires n < |names| && OrdinalSorted(names) && DroppedUpTo(start, before, names, n, drops)
    requires names[n] in before && now == if DropAt(drops, n).effect then before - {names[n]} else before
    ensures DroppedUpTo(start, now, names, n + 1, drops)
  {
    assert names[..n + 1] == names[..n] + [names[n]];
    NewestNotAmong(names, n);
    forall i: nat | i < n ensures names[i] != names[n] { assert names[i] in names[..n]; }
  }

  /** The next name is a rotation that is still in the directory. */
  lemma StillThere(start: Files, now: Files, world: string, names: seq<string>, n: nat, drops: seq<Fate>)
    requires n < |names| && OrdinalSorted(names) && DroppedUpTo(start, now, names, n, drops)
    requires forall k | k in names :: k in start && k != FinalName(world)
    ensures names[n] in now && names[n] != FinalName(world)
  {
    NewestNotAmong(names, n);
    assert names[n] in names;
  }

  lemma DroppedIsPruned(start: Files, now: Files, world: string, names: seq<string>, keep: nat, drops: seq<Fate>)
    requires |names| >= keep && OrdinalSorted(names)
    requires forall n :: n in names <==> n in start && Selected(world, n)
    requires DroppedUpTo(start, now, names, |names| - keep, drops)
    ensures PrunedTo(start, now, world, names, keep, drops)
  {
    NewestNotAmong(names, |names| - keep);
    forall i: nat | i < |names| ensures names[i] in start { assert names[i] in names; }
    forall k | k in names[..|names| - keep] ensures k in names {}
  }

  // ---- the directory -------------------------------------------------------------------

  /** The save directory. `passed` lists every state it has been in: each is one a crash, or a
      power cut, could leave behind. */
  class Disk {
    var files: Files
    ghost var passed: seq<Files>

    constructor (files: Files)
      ensures this.files == files && passed == [files]
    {
      this.files := files;
      passed := [files];
    }

    /** The game writes a world save: the file is garbage for a while. */
    method Write(path: string, version: nat, w: Written)
      modifies this
      ensures files == AfterWrite(old(files), path, version, w)
      ensures old(passed) < passed && passed[|passed| - 1] == files
      ensures forall i | |old(passed)| <= i < |passed| :: OnlyAt(old(files), passed[i], path)
    {
      files := files[path := Archive(version, false)];
      passed := passed + [files];
      match w {
        case Nothing => files := files - {path};
        case Left(readable) => files := files[path := Archive(version, readable)];
      }
      passed := passed + [files];
    }

    method Move(from: string, to: string, fate: Fate) returns (ok: bool)
      requires from in files && to !in files
      modifies this
      ensures files == Moved(old(files), from, to, fate) && ok == Done(fate)
      ensures passed == old(passed) + [files]
    {
      if fate.effect {
        files := (files - {from})[to := files[from]];
      }
      passed := passed + [files];
      ok := fate.effect && fate.reported;
    }

    method Delete(path: string, fate: Fate) returns (ok: bool)
      modifies this
      ensures files == Deleted(old(files), path, fate) && ok == Done(fate)
      ensures passed == old(passed) + [files]
    {
      if fate.effect {
        files := files - {path};
      }
      passed := passed + [files];
      ok := fate.effect && fate.reported;
    }
  }

  ghost predicate OnlyAt(before: Files, after: Files, path: string) {
    forall k | k != path :: (k in before <==> k in after) && (k in before ==> after[k] == before[k])
  }

  /** Every state passed through from the `from`-th on keeps the guarantee. */
  ghost predicate AllGuarded(passed: seq<Files>, from: nat, world: string, completed: Option<nat>) {
    forall i | from <= i < |passed| :: Guarded(passed[i], world, completed)
  }

  lemma GuardedOn(start: seq<Files>, middle: seq<Files>, end: seq<Files>, world: string, completed: Option<nat>)
    requires start <= middle <= end
    requires AllGuarded(middle, |start|, world, completed) && AllGuarded(end, |middle|, world, completed)
    ensures start <= end && AllGuarded(end, |start|, world, completed)
  {
    forall i | |start| <= i < |end| ensures Guarded(end[i], world, completed) {
      if i < |middle| { assert end[i] == middle[i]; }
    }
  }

  // ---- the saver -----------------------------------------------------------------------

  class WorldSaver {
    const disk: Disk
    const world: string
    const keep: nat
    ghost var completed: Option<nat>
    var saveCount: nat

    /** A process starts on whatever directory the last one left, however that one ended. */
    constructor (disk: Disk, world: string, keep: nat, ghost completed: Option<nat>)
      requires disk.passed != [] && disk.passed[|disk.passed| - 1] == disk.files
      requires Guarded(disk.files, world, completed)
      ensures Valid() && this.completed == completed && saveCount == 0
      ensures this.disk == disk && this.world == world && this.keep == keep
    {
      this.disk, this.world, this.keep := disk, world, keep;
      this.completed, saveCount := completed, 0;
    }

    ghost predicate Valid()
      reads this, disk
    {
      disk.passed != [] && disk.passed[|disk.passed| - 1] == disk.files && Guarded(disk.files, world, completed)
    }

    method TryDelete(path: string, fate: Fate) returns (deleted: bool)
      requires disk.passed != [] && disk.passed[|disk.passed| - 1] == disk.files
      modifies disk
      ensures disk.files == if path in old(disk.files) then Deleted(old(disk.files), path, fate) else old(disk.files)
      ensures deleted == (path in old(disk.files) && Done(fate))
      ensures old(disk.passed) <= disk.passed <= old(disk.passed) + [disk.files]
      ensures disk.passed != [] && disk.passed[|disk.passed| - 1] == disk.files
    {
      if path !in disk.files {
        return false;
      }
      deleted := disk.Delete(path, fate);
    }

    /** A leftover partial goes; nothing else does. */
    method CleanUpPartial(fate: Fate)
      requires Valid()
      modifies disk
      ensures Valid() && OnlyAt(old(disk.files), disk.files, PartialName(world))
      ensures Done(fate) ==> PartialName(world) !in disk.files
      ensures old(disk.passed) <= disk.passed && AllGuarded(disk.passed, |old(disk.passed)|, world, completed)
    {
      PartialIsNotKept(world);
      var _ := TryDelete(PartialName(world), fate);
      OtherFileKeeps(old(disk.files), disk.files, world, completed, PartialName(world));
    }

    /** First rename: an old backup of the same second goes, the live file becomes the backup. */
    method RotateLive(backup: string, f: Fates) returns (ok: bool)
      requires Valid() && IsRotation(world, backup) && backup != FinalName(world)
      requires FinalName(world) in disk.files
      modifies disk
      ensures Valid() && old(disk.passed) <= disk.passed
      ensures AllGuarded(disk.passed, |old(disk.passed)|, world, completed)
      ensures var before := old(disk.files);
        if backup in before && !Done(f.dropBackup)
        then !ok && disk.files == Deleted(before, backup, f.dropBackup)
        else ok == Done(f.first) && disk.files == Moved(before - {backup}, FinalName(world), backup, f.first)
    {
      if backup in disk.files {
        ok := disk.Delete(backup, f.dropBackup);
        RotationMayGo(old(disk.files), disk.files, world, completed, backup);
        if !ok {
          return;
        }
      }
      assert disk.files == old(disk.files) - {backup};
      LiveMayRotate(disk.files, world, completed, backup);
      ok := disk.Move(FinalName(world), backup, f.first);
    }

    /** Two renames: the live save becomes the backup, the verified partial becomes the live save. */
    method Rotate(stamp: string, f: Fates) returns (ok: bool)
      requires Valid() && StampShape(stamp)
      requires PartialName(world) in disk.files && disk.files[PartialName(world)].readable
      requires completed.Some? ==> disk.files[PartialName(world)].version >= completed.value
      modifies disk
      ensures (disk.files, ok) == Rotated(old(disk.files), world, stamp, f)
      ensures Valid() && old(disk.passed) <= disk.passed
      ensures AllGuarded(disk.passed, |old(disk.passed)|, world, completed)
      ensures ok ==> GoodAt(disk.files, FinalName(world), old(disk.files)[PartialName(world)].version)
    {
      var part, backup := PartialName(world), BackupName(world, stamp);
      NamesApart(world, stamp);
      if FinalName(world) in disk.files {
        ok := RotateLive(backup, f);
        if !ok {
          return;
        }
      }
      VerifiedMayGoLive(disk.files, world, completed, part);
      ok := disk.Move(part, FinalName(world), f.second);
    }

    /** Every name Prune selects, once each, in no particular order. */
    method ListSelected() returns (names: seq<string>)
      ensures SameNames(names, disk.files) && Distinct(names)
    {
      names := [];
      var left := disk.files.Keys;
      while left != {}
        invariant left <= disk.files.Keys
        invariant forall n :: n in names <==> n in disk.files && n !in left && Selected(world, n)
        invariant Distinct(names)
        decreases left
      {
        var name :| name in left;
        left := left - {name};
        if Selected(world, name) {
          names := names + [name];
        }
      }
    }

    ghost predicate SameNames(names: seq<string>, files: Files) {
      forall n :: n in names <==> n in files && Selected(world, n)
    }

    /** One rotation goes; the live file stays, and with it the guarantee. */
    method DropRotation(path: string, fate: Fate) returns (deleted: bool)
      requires Valid() && FinalName(world) in disk.files && path != FinalName(world)
      modifies disk
      ensures Valid() && FinalName(world) in disk.files && old(disk.passed) <= disk.passed
      ensures AllGuarded(disk.passed, |old(disk.passed)|, world, completed)
      ensures disk.files == if path in old(disk.files) && fate.effect then old(disk.files) - {path} else old(disk.files)
      ensures deleted == (path in old(disk.files) && Done(fate))
    {
      deleted := TryDelete(path, fate);
      RotationMayGo(old(disk.files), disk.files, world, completed, path);
    }

    /** Deleting since the directory was `start`, its past then `from`: the first `i` names are done. */
    ghost predicate Dropping(start: Files, from: seq<Files>, names: seq<string>, i: nat, drops: seq<Fate>)
      reads this, disk
    {
      && Valid() && FinalName(world) in disk.files
      && from <= disk.passed && AllGuarded(disk.passed, |from|, world, completed)
      && OrdinalSorted(names) && (forall n | n in names :: n in start && n != FinalName(world))
      && DroppedUpTo(start, disk.files, names, i, drops)
    }

    method DropOne(ghost start: Files, ghost from: seq<Files>, names: seq<string>, i: nat, drops: seq<Fate>)
      returns (deleted: bool)
      requires i < |names| && Dropping(start, from, names, i, drops)
      modifies disk
      ensures Dropping(start, from, names, i + 1, drops) && deleted == Done(DropAt(drops, i))
    {
      ghost var before, passed := disk.files, disk.passed;
      StillThere(start, before, world, names, i, drops);
      deleted := DropRotation(names[i], DropAt(drops, i));
      DroppedNext(start, before, disk.files, names, i, drops);
      GuardedOn(from, passed, disk.passed, world, completed);
    }

    /** The first `n` names, one deletion each. */
    method DropOldest(names: seq<string>, n: nat, drops: seq<Fate>) returns (removed: nat)
      requires n <= |names| && Dropping(disk.files, disk.passed, names, 0, drops)
      modifies disk
      ensures Dropping(old(disk.files), old(disk.passed), names, n, drops) && removed == CountDone(drops, n)
    {
      ghost var start, from := disk.files, disk.passed;
      removed := 0;
      var i := 0;
      while i < n
        invariant 0 <= i <= n && removed == CountDone(drops, i) && Dropping(start, from, names, i, drops)
      {
        var deleted := DropOne(start, from, names, i, drops);
        if deleted {
          removed := removed + 1;
        }
        i := i + 1;
      }
    }

    /** Delete the oldest rotations until `keep` are left. `drops` is what becomes of the deletion at
        each position: a file past the newest `keep` is gone exactly when its deletion took effect,
        nothing else is touched, and the result counts the deletions done. */
    method Prune(drops: seq<Fate>) returns (removed: nat, ghost names: seq<string>)
      requires Valid() && FinalName(world) in disk.files
      modifies disk
      ensures Valid() && old(disk.passed) <= disk.passed
      ensures AllGuarded(disk.passed, |old(disk.passed)|, world, completed)
      ensures PrunedTo(old(disk.files), disk.files, world, names, keep, drops)
      ensures removed == if |names| <= keep then 0 else CountDone(drops, |names| - keep)
    {
      var rotations := ListSelected();
      if |rotations| <= keep {
        ghost var sorted := SortOrdinal(rotations);
        return 0, sorted;
      }
      rotations := SortOrdinal(rotations);
      names := rotations;
      FinalIsNotSelected(world);
      removed := DropOldest(rotations, |rotations| - keep, drops);
      DroppedIsPruned(old(disk.files), disk.files, world, rotations, keep, drops);
    }

    /** Write the partial and look at it: is there an archive that opens? */
    method WriteAndVerify(version: nat, f: Fates) returns (good: bool)
      requires Valid()
      modifies disk
      ensures disk.files == AfterWrite(old(disk.files), PartialName(world), version, f.written) && good == Verified(f)
      ensures Valid() && old(disk.passed) <= disk.passed
      ensures AllGuarded(disk.passed, |old(disk.passed)|, world, completed)
    {
      var part := PartialName(world);
      disk.Write(part, version, f.written);
      WriteIsGuarded(old(disk.files), disk.passed, |old(disk.passed)|, world, completed);
      good := !f.threw && part in disk.files && disk.files[part].readable;
    }

    /** Up to the second rename, or back out: the partial goes. */
    method Produce(stamp: string, version: nat, f: Fates) returns (ok: bool)
      requires Valid() && StampShape(stamp) && (completed.Some? ==> version > completed.value)
      modifies disk
      ensures (disk.files, ok) == Produced(old(disk.files), world, stamp, version, f)
      ensures Valid() && old(disk.passed) <= disk.passed
      ensures AllGuarded(disk.passed, |old(disk.passed)|, world, completed)
      ensures ok ==> GoodAt(disk.files, FinalName(world), version)
    {
      NamesApart(world, stamp);
      ok := WriteAndVerify(version, f);
      if ok {
        ok := Rotate(stamp, f);
      }
      if !ok {
        ghost var before := disk.files;
        var _ := TryDelete(PartialName(world), f.cleanup);
        PartialIsNotKept(world);
        OtherFileKeeps(before, disk.files, world, completed, PartialName(world));
      }
    }

    /** The live file is this save: it becomes the last completed one, and old rotations go. */
    method Complete(version: nat, drops: seq<Fate>) returns (ghost names: seq<string>)
      requires Valid() && GoodAt(disk.files, FinalName(world), version)
      requires completed.Some? ==> version > completed.value
      modifies this`completed, this`saveCount, disk
      ensures Valid() && old(disk.passed) <= disk.passed
      ensures AllGuarded(disk.passed, |old(disk.passed)|, world, old(completed))
      ensures completed == Some(version) && saveCount == old(saveCount) + 1
      ensures GoodAt(disk.files, FinalName(world), version)
      ensures PrunedTo(old(disk.files), disk.files, world, names, keep, drops)
    {
      LiveIsGuarded(disk.files, world, version);
      completed := Some(version);
      var _, pruned := Prune(drops);
      names := pruned;
      FinalIsNotSelected(world);
      WeakerGuard(disk.passed, |old(disk.passed)|, world, version, old(completed));
      saveCount := saveCount + 1;
    }

    /** One save. Whatever fails, and wherever a crash falls, the guarantee holds for the last
        save completed before; and once this one reports success it holds for this one. A failure
        leaves the previous live file in place exactly when it was not renamed. */
    method Save(stamp: string, version: nat, f: Fates, drops: seq<Fate>) returns (ok: bool, ghost names: seq<string>)
      requires Valid() && StampShape(stamp) && (completed.Some? ==> version > completed.value)
      modifies this`completed, this`saveCount, disk
      ensures Valid() && old(disk.passed) <= disk.passed
      ensures AllGuarded(disk.passed, |old(disk.passed)|, world, old(completed))
      ensures ok == Produced(old(disk.files), world, stamp, version, f).1
      ensures ok ==> completed == Some(version) && saveCount == old(saveCount) + 1
      ensures ok ==> GoodAt(disk.files, FinalName(world), version)
      ensures ok ==>
        PrunedTo(Produced(old(disk.files), world, stamp, version, f).0, disk.files, world, names, keep, drops)
      ensures !ok ==> completed == old(completed) && saveCount == old(saveCount)
      ensures !ok ==> disk.files == Produced(old(disk.files), world, stamp, version, f).0
      ensures var before := old(disk.files);
        !ok && FinalName(world) in before && before[FinalName(world)] != Archive(version, true) ==>
          (LiveInPlace(before, disk.files, world) <==> !LiveRenamed(before, world, stamp, f))
    {
      names := [];
      ok := Produce(stamp, version, f);
      if ok {
        names := Complete(version, drops);
      } else if FinalName(world) in old(disk.files) && old(disk.files)[FinalName(world)] != Archive(version, true) {
        FailedSaveKeepsLiveIff(old(disk.files), world, stamp, version, f);
      }
    }
  }

  lemma LiveIsGuarded(files: Files, world: string, version: nat)
    requires GoodAt(files, FinalName(world), version)
    ensures Guarded(files, world, Some(version))
  {
    assert IsKept(world, FinalName(world));
  }

  lemma FinalIsNotSelected(world: string)
    ensures !Selected(world, FinalName(world))
  {
    assert FinalName(world)[|world|] == '.' && (world + "-")[|world|] == '-';
  }

  /** What survives a guarantee for a newer save is a guarantee for an older one. */
  lemma WeakerGuard(passed: seq<Files>, from: nat, world: string, version: nat, older: Option<nat>)
    requires AllGuarded(passed, from, world, Some(version)) && (older.Some? ==> older.value <= version)
    ensures AllGuarded(passed, from, world, older)
  {
    forall i | from <= i < |passed| ensures Guarded(passed[i], world, older) {
      var name :| IsKept(world, name) && GoodAt(passed[i], name, version);
      assert older.Some? ==> GoodAt(passed[i], name, older.value);
    }
  }

  lemma WriteIsGuarded(before: Files, passed: seq<Files>, from: nat, world: string, completed: Option<nat>)
    requires Guarded(before, world, completed) && from <= |passed|
    requires forall i | from <= i < |passed| :: OnlyAt(before, passed[i], PartialName(world))
    ensures AllGuarded(passed, from, world, completed)
  {
    PartialIsNotKept(world);
    forall i | from <= i < |passed| ensures Guarded(passed[i], world, completed) {
      OtherFileKeeps(before, passed[i], world, completed, PartialName(world));
    }
  }

  lemma NewestNotAmong(names: seq<string>, upTo: nat)
    requires OrdinalSorted(names) && upTo <= |names|
    ensures forall i | upTo <= i < |names| :: names[i] !in names[..upTo]
  {
    forall i, j | upTo <= i < |names| && 0 <= j < upTo ensures names[i] != names[j] {
      OrdinalTotal(names[i], names[j]);
    }
  }

  /** `List.Sort` in ordinal order. */
  method SortOrdinal(names: seq<string>) returns (sorted: seq<string>)
    requires Distinct(names)
    ensures OrdinalSorted(sorted) && |sorted| == |names|
    ensures forall n :: n in sorted <==> n in names
  {
    sorted := [];
    var i := 0;
    while i < |names|
      invariant 0 <= i <= |names| == |names|
      invariant OrdinalSorted(sorted) && |sorted| == i
      invariant forall n :: n in sorted <==> n in names[..i]
    {
      var at := PlaceIn(sorted, names[i]);
      assert names[i] !in names[..i];
      InsertSorted(sorted, at, names[i]);
      assert names[..i + 1] == names[..i] + [names[i]];
      sorted := sorted[..at] + [names[i]] + sorted[at..];
      i := i + 1;
    }
    assert names[..i] == names;
  }

  method PlaceIn(sorted: seq<string>, name: string) returns (at: nat)
    ensures at <= |sorted|
    ensures forall k | 0 <= k < at :: OrdinalLess(sorted[k], name)
    ensures at < |sorted| ==> !OrdinalLess(sorted[at], name)
  {
    at := 0;
    while at < |sorted| && OrdinalLess(sorted[at], name)
      invariant 0 <= at <= |sorted|
      invariant forall k | 0 <= k < at :: OrdinalLess(sorted[k], name)
    {
      at := at + 1;
    }
  }

  lemma InsertSorted(sorted: seq<string>, at: nat, name: string)
    requires OrdinalSorted(sorted) && at <= |sorted| && name !in sorted
    requires forall k | 0 <= k < at :: OrdinalLess(sorted[k], name)
    requires at < |sorted| ==> !OrdinalLess(sorted[at], name)
    ensures OrdinalSorted(sorted[..at] + [name] + sorted[at..])
    ensures forall n :: n in sorted[..at] + [name] + sorted[at..] <==> n == name || n in sorted
  {
    forall k | at <= k < |sorted| ensures OrdinalLess(name, sorted[k]) {
      OrdinalTotal(name, sorted[at]);
      assert sorted[at] in sorted;
      if k > at { OrdinalTransitive(name, sorted[at], sorted[k]); }
    }
    assert sorted == sorted[..at] + sorted[at..];
  }

  /** In a directory with no rotation of a longer world name, what Prune lists is this world's
      rotations, oldest first. */
  lemma PruneOrderIsAge(world: string, names: seq<string>, i: nat, j: nat, a: Moment, b: Moment)
    requires OrdinalSorted(names) && i < j < |names| && Calendar(a) && Calendar(b)
    requires names[i] == BackupName(world, StampText(a)) && names[j] == BackupName(world, StampText(b))
    ensures Earlier(a, b)
  {
    RotationOrder(world, StampText(a), StampText(b));
    StampOrderIsAge(a, b);
  }

  /** Everything selected is this world's own exactly when no file is a rotation of a world whose
      name goes on with a dash. */
  lemma PruneIsOwnIff(world: string, files: Files)
    ensures (forall k | k in files && Selected(world, k) :: IsRotation(world, k))
       <==> (forall k | k in files :: IsRotation(world, k) || !exists rest :: IsRotation(world + "-" + rest, k))
  {
    forall k | k in files
      ensures (Selected(world, k) ==> IsRotation(world, k))
        <==> (IsRotation(world, k) || !exists rest :: IsRotation(world + "-" + rest, k))
    {
      SelectedIff(world, k);
    }
  }
}
