/** The names of a world's save files, and why their ordinal order is their age
    (the file names and the prune pattern of bibites-mod/src/WorldSaver.cs). */
module SaveNames {

  // ---- ordinal order -------------------------------------------------------------------

  predicate OrdinalLess(a: string, b: string) {
    if b == "" then false
    else if a == "" then true
    else a[0] < b[0] || (a[0] == b[0] && OrdinalLess(a[1..], b[1..]))
  }

  lemma {:induction false} OrdinalTotal(a: string, b: string)
    ensures OrdinalLess(a, b) || a == b || OrdinalLess(b, a)
    ensures !(OrdinalLess(a, b) && OrdinalLess(b, a)) && !OrdinalLess(a, a)
  {
    if a != "" && b != "" {
      OrdinalTotal(a[1..], b[1..]);
      OrdinalTotal(a[1..], a[1..]);
      if a[0] == b[0] && a[1..] == b[1..] { assert a == [a[0]] + a[1..] && b == [b[0]] + b[1..]; }
    } else if a != "" {
      OrdinalTotal(a[1..], a[1..]);
    }
  }

  lemma {:induction false} OrdinalTransitive(a: string, b: string, c: string)
    requires OrdinalLess(a, b) && OrdinalLess(b, c)
    ensures OrdinalLess(a, c)
  {
    if a != "" && a[0] == b[0] && b[0] == c[0] {
      OrdinalTransitive(a[1..], b[1..], c[1..]);
    }
  }

  /** Fixed width makes the order go part by part. */
  lemma {:induction false} OrdinalByParts(a: string, b: string, x: string, y: string)
    requires |a| == |b|
    ensures OrdinalLess(a + x, b + y) <==> OrdinalLess(a, b) || (a == b && OrdinalLess(x, y))
  {
    if a == "" {
      assert a + x == x && b + y == y;
    } else {
      assert (a + x)[1..] == a[1..] + x && (b + y)[1..] == b[1..] + y;
      assert (a + x)[0] == a[0] && (b + y)[0] == b[0];
      OrdinalByParts(a[1..], b[1..], x, y);
      assert a == [a[0]] + a[1..] && b == [b[0]] + b[1..];
    }
  }

  // ---- stamps --------------------------------------------------------------------------

  function Digit(d: nat): (c: char)
    requires d < 10
    ensures '0' <= c <= '9'
  {
    ('0' as int + d) as char
  }

  function Power10(width: nat): (p: nat)
    ensures p > 0
  {
    if width == 0 then 1 else 10 * Power10(width - 1)
  }

  /** `n` in exactly `width` decimal digits. */
  function Padded(n: nat, width: nat): (s: string)
    requires n < Power10(width)
    ensures |s| == width
    ensures forall i | 0 <= i < |s| :: '0' <= s[i] <= '9'
  {
    if width == 0 then ""
    else Padded(n / 10, width - 1) + [Digit(n % 10)]
  }

  lemma SplitLast(a: string, x: char, b: string, y: char)
    requires |a| == |b|
    ensures a + [x] == b + [y] <==> a == b && x == y
  {
    assert (a + [x])[..|a|] == a && (b + [y])[..|b|] == b;
    assert (a + [x])[|a|] == x && (b + [y])[|b|] == y;
  }

  /** Padded numbers compare as numbers. */
  lemma {:induction false} PaddedOrder(a: nat, b: nat, width: nat)
    requires a < Power10(width) && b < Power10(width)
    ensures OrdinalLess(Padded(a, width), Padded(b, width)) <==> a < b
    ensures Padded(a, width) == Padded(b, width) <==> a == b
  {
    if width > 0 {
      PaddedOrder(a / 10, b / 10, width - 1);
      LastDigit(Padded(a / 10, width - 1), a % 10, Padded(b / 10, width - 1), b % 10);
    }
  }

  lemma LastDigit(a: string, x: nat, b: string, y: nat)
    requires |a| == |b| && x < 10 && y < 10
    ensures OrdinalLess(a + [Digit(x)], b + [Digit(y)]) <==> OrdinalLess(a, b) || (a == b && x < y)
    ensures a + [Digit(x)] == b + [Digit(y)] <==> a == b && x == y
  {
    OrdinalByParts(a, b, [Digit(x)], [Digit(y)]);
    SplitLast(a, Digit(x), b, Digit(y));
  }

  datatype Moment = Moment(year: nat, month: nat, day: nat, hour: nat, minute: nat, second: nat)

  predicate Calendar(t: Moment) {
    t.year < 10000 && t.month < 100 && t.day < 100 && t.hour < 100 && t.minute < 100 && t.second < 100
  }

  lemma Powers()
    ensures Power10(2) == 100 && Power10(4) == 10000
  {
    assert Power10(1) == 10;
    assert Power10(3) == 1000;
  }

  function DateText(t: Moment): (s: string)
    requires Calendar(t)
    ensures |s| == 8
  {
    Powers();
    Padded(t.year, 4) + (Padded(t.month, 2) + Padded(t.day, 2))
  }

  function TimeText(t: Moment): (s: string)
    requires Calendar(t)
    ensures |s| == 6
  {
    Powers();
    Padded(t.hour, 2) + (Padded(t.minute, 2) + Padded(t.second, 2))
  }

  /** yyyyMMddTHHmmssZ */
  function StampText(t: Moment): (s: string)
    requires Calendar(t)
    ensures |s| == 16
  {
    DateText(t) + ("T" + (TimeText(t) + "Z"))
  }

  predicate EarlierDay(a: Moment, b: Moment) {
    a.year < b.year || (a.year == b.year && (a.month < b.month || (a.month == b.month && a.day < b.day)))
  }

  predicate EarlierTime(a: Moment, b: Moment) {
    a.hour < b.hour || (a.hour == b.hour && (a.minute < b.minute || (a.minute == b.minute && a.second < b.second)))
  }

  predicate SameDay(a: Moment, b: Moment) {
    a.year == b.year && a.month == b.month && a.day == b.day
  }

  predicate Earlier(a: Moment, b: Moment) {
    EarlierDay(a, b) || (SameDay(a, b) && EarlierTime(a, b))
  }

  lemma ThreeParts(a: string, b: string, c: string, x: string, y: string, z: string)
    requires |a| == |x| && |b| == |y| && |c| == |z|
    ensures OrdinalLess(a + (b + c), x + (y + z))
      <==> OrdinalLess(a, x) || (a == x && (OrdinalLess(b, y) || (b == y && OrdinalLess(c, z))))
    ensures a + (b + c) == x + (y + z) <==> a == x && b == y && c == z
  {
    OrdinalByParts(a, x, b + c, y + z);
    OrdinalByParts(b, y, c, z);
    if a + (b + c) == x + (y + z) {
      assert a == (a + (b + c))[..|a|] && x == (x + (y + z))[..|x|];
      assert b + c == (a + (b + c))[|a|..] && y + z == (x + (y + z))[|x|..];
      assert b == (b + c)[..|b|] && y == (y + z)[..|y|];
      assert c == (b + c)[|b|..] && z == (y + z)[|y|..];
    }
  }

  lemma DateOrder(a: Moment, b: Moment)
    requires Calendar(a) && Calendar(b)
    ensures OrdinalLess(DateText(a), DateText(b)) <==> EarlierDay(a, b)
    ensures DateText(a) == DateText(b) <==> SameDay(a, b)
  {
    Powers();
    PaddedOrder(a.year, b.year, 4);
    PaddedOrder(a.month, b.month, 2);
    PaddedOrder(a.day, b.day, 2);
    ThreeParts(Padded(a.year, 4), Padded(a.month, 2), Padded(a.day, 2),
               Padded(b.year, 4), Padded(b.month, 2), Padded(b.day, 2));
  }

  lemma TimeOrder(a: Moment, b: Moment)
    requires Calendar(a) && Calendar(b)
    ensures OrdinalLess(TimeText(a), TimeText(b)) <==> EarlierTime(a, b)
  {
    Powers();
    PaddedOrder(a.hour, b.hour, 2);
    PaddedOrder(a.minute, b.minute, 2);
    PaddedOrder(a.second, b.second, 2);
    ThreeParts(Padded(a.hour, 2), Padded(a.minute, 2), Padded(a.second, 2),
               Padded(b.hour, 2), Padded(b.minute, 2), Padded(b.second, 2));
  }

  /** The stamps of two saves compare, character by character, as their moments do. */
  lemma StampOrderIsAge(a: Moment, b: Moment)
    requires Calendar(a) && Calendar(b)
    ensures OrdinalLess(StampText(a), StampText(b)) <==> Earlier(a, b)
  {
    DateOrder(a, b);
    TimeOrder(a, b);
    OrdinalByParts(DateText(a), DateText(b), "T" + (TimeText(a) + "Z"), "T" + (TimeText(b) + "Z"));
    OrdinalByParts("T", "T", TimeText(a) + "Z", TimeText(b) + "Z");
    OrdinalByParts(TimeText(a), TimeText(b), "Z", "Z");
    OrdinalTotal("T", "T");
    OrdinalTotal("Z", "Z");
  }

  // ---- file names ----------------------------------------------------------------------

  function FinalName(world: string): string {
    world + ".zip"
  }

  function PartialName(world: string): string {
    world + ".partial" + ".zip"
  }

  function BackupName(world: string, stamp: string): string {
    world + "-" + stamp + ".zip"
  }

  predicate IsDigit(c: char) {
    '0' <= c <= '9'
  }

  /** The shape the prune pattern asks of a stamp: eight digits, T, six digits, Z. */
  predicate StampShape(s: string) {
    && |s| == 16 && s[8] == 'T' && s[15] == 'Z'
    && (forall i | 0 <= i < 8 :: IsDigit(s[i]))
    && (forall i | 9 <= i < 15 :: IsDigit(s[i]))
  }

  /** A rotated copy of this very world. */
  ghost predicate IsRotation(world: string, name: string) {
    exists stamp :: StampShape(stamp) && name == BackupName(world, stamp)
  }

  /** What Prune selects: the file pattern `<world>-*.zip` and, at the end, a stamp. */
  predicate Selected(world: string, name: string) {
    && world + "-" <= name
    && |name| >= |world| + 5 && name[|name| - 4..] == ".zip"
    && |name| >= 21 && name[|name| - 21] == '-' && StampShape(name[|name| - 20..|name| - 4])
  }

  lemma BackupIsSelected(world: string, stamp: string)
    requires StampShape(stamp)
    ensures Selected(world, BackupName(world, stamp))
  {
    var name := BackupName(world, stamp);
    assert name[|name| - 20..|name| - 4] == stamp;
    assert name[|name| - 4..] == ".zip";
    assert name[..|world| + 1] == world + "-";
  }

  lemma LongerIsSelected(world: string, rest: string, name: string)
    requires IsRotation(world + "-" + rest, name)
    ensures Selected(world, name)
  {
    var stamp :| StampShape(stamp) && name == BackupName(world + "-" + rest, stamp);
    BackupIsSelected(world + "-" + rest, stamp);
    assert name[..|world| + 1] == world + "-";
  }

  /** What Prune selects beyond this world's rotations is exactly the rotations of worlds whose
      name goes on with a dash after this one's. */
  lemma SelectedIff(world: string, name: string)
    ensures Selected(world, name) <==> IsRotation(world, name) || exists rest :: IsRotation(world + "-" + rest, name)
  {
    if IsRotation(world, name) {
      var stamp :| StampShape(stamp) && name == BackupName(world, stamp);
      BackupIsSelected(world, stamp);
    }
    if exists rest :: IsRotation(world + "-" + rest, name) {
      var rest :| IsRotation(world + "-" + rest, name);
      LongerIsSelected(world, rest, name);
    }
    if Selected(world, name) {
      SelectedSplits(world, name);
    }
  }

  lemma SelectedSplits(world: string, name: string)
    requires Selected(world, name)
    ensures IsRotation(world, name) || exists rest :: IsRotation(world + "-" + rest, name)
  {
    var stamp := name[|name| - 20..|name| - 4];
    var front := name[..|name| - 21];
    assert name == front + "-" + stamp + ".zip";
    assert name == BackupName(front, stamp);
    DashIsBeforeStamp(world, name);
    if |front| == |world| {
      assert front == world;
    } else {
      assert front[..|world| + 1] == world + "-";
      var rest := front[|world| + 1..];
      assert front == world + "-" + rest;
      assert IsRotation(world + "-" + rest, name);
    }
  }

  /** The dash after the world's name cannot fall inside the stamp. */
  lemma DashIsBeforeStamp(world: string, name: string)
    requires Selected(world, name)
    ensures |world| <= |name| - 21
  {
    var stamp := name[|name| - 20..|name| - 4];
    assert forall k | |name| - 20 <= k < |name| - 4 :: name[k] == stamp[k - (|name| - 20)] && name[k] != '-';
    assert name[|world|] == '-';
  }

  /** A rotation of the world `Alpha-Beta` is selected when `Alpha` is pruned. */
  lemma PruneSeesLongerWorlds()
    ensures Selected("Alpha", BackupName("Alpha-Beta", "20260101T000000Z"))
    ensures !IsRotation("Alpha", BackupName("Alpha-Beta", "20260101T000000Z"))
  {
    var stamp := "20260101T000000Z";
    assert StampShape(stamp);
    BackupIsSelected("Alpha-Beta", stamp);
    var name := BackupName("Alpha-Beta", stamp);
    assert name[..6] == "Alpha-";
    assert |name| == 31;
    forall s | StampShape(s) ensures name != BackupName("Alpha", s) {
      assert |BackupName("Alpha", s)| == 26;
    }
  }

  /** Among one world's rotations the order of names is the order of stamps. */
  lemma RotationOrder(world: string, a: string, b: string)
    requires |a| == |b|
    ensures OrdinalLess(BackupName(world, a), BackupName(world, b)) <==> OrdinalLess(a, b)
  {
    assert BackupName(world, a) == (world + "-") + (a + ".zip") && BackupName(world, b) == (world + "-") + (b + ".zip");
    OrdinalByParts(world + "-", world + "-", a + ".zip", b + ".zip");
    OrdinalTotal(world + "-", world + "-");
    OrdinalByParts(a, b, ".zip", ".zip");
    OrdinalTotal(".zip", ".zip");
  }

  lemma NamesApart(world: string, stamp: string)
    requires StampShape(stamp)
    ensures PartialName(world) != FinalName(world) && PartialName(world) != BackupName(world, stamp)
    ensures FinalName(world) != BackupName(world, stamp)
  {
    assert
      && PartialName(world)[|world|] == '.'
      && BackupName(world, stamp)[|world|] == '-'
      && FinalName(world)[|world|] == '.';
    assert |PartialName(world)| == |FinalName(world)| + 8;
  }
}
