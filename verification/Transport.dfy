/** The send queue and its semaphore, shared by the game thread and the socket's send loop, as
    the atomic steps the two take (bibites-mod/src/WebSocketTransport.cs). */
module Transport {
  import opened ContractA
  import opened Lists

  const MAX_QUEUED_FRAMES: nat := 256
  const SEMAPHORE_MAX: nat := 2147483647

  /** A frame and its size on the wire. */
  datatype Packet = Packet(text: string, bytes: nat)

  /** Where the game thread is inside Send. */
  datatype Producer = Idle | Counted(packet: Packet) | Enqueued

  /** Where the socket thread is: draining for a new connection, or inside the send loop. */
  datatype Sender = ClearingQueue | ClearingSignal | Waiting | Draining | Sending(packet: Packet) | Closed

  /** `wire` is what this connection has sent. `accepted` is every frame that is its to send: what
      the drain left in the queue and what was enqueued since; `taken` is what it has dequeued. */
  datatype Line = Line(
    outbound: seq<Packet>, signal: nat, producer: Producer, sender: Sender,
    wire: seq<Packet>, accepted: seq<Packet>, taken: seq<Packet>)

  datatype Step =
    | Send(packet: Packet)
    | Enqueue
    | Release
    | Dequeue
    | SeeEmpty
    | TakeSignal
    | SeeZero
    | Wake
    | Sent
    | Close
    | Connect

  // ---- the steps -----------------------------------------------------------------------

  predicate InSession(l: Line) {
    l.sender.Waiting? || l.sender.Draining? || l.sender.Sending?
  }

  predicate Enabled(l: Line, s: Step) {
    match s
    case Send(_) => l.producer.Idle?
    case Enqueue => l.producer.Counted?
    case Release => l.producer.Enqueued?
    case Dequeue => (l.sender.ClearingQueue? || l.sender.Draining?) && l.outbound != []
    case SeeEmpty => (l.sender.ClearingQueue? || l.sender.Draining?) && l.outbound == []
    case TakeSignal => l.sender.ClearingSignal? && l.signal > 0
    case SeeZero => l.sender.ClearingSignal? && l.signal == 0
    case Wake => l.sender.Waiting? && l.signal > 0
    case Sent => l.sender.Sending?
    case Close => InSession(l)
    case Connect => l.sender.Closed?
  }

  function Next(l: Line, s: Step): Line
    requires Enabled(l, s)
  {
    match s
    case Send(p) => if p.text == "" || |l.outbound| >= MAX_QUEUED_FRAMES then l else l.(producer := Counted(p))
    case Enqueue =>
      var p := l.producer.packet;
      l.(outbound := l.outbound + [p], accepted := l.accepted + [p], producer := Enqueued)
    case Release => l.(signal := if l.signal == SEMAPHORE_MAX then l.signal else l.signal + 1, producer := Idle)
    case Dequeue =>
      var p := l.outbound[0];
      var rest := l.(outbound := l.outbound[1..], taken := l.taken + [p]);
      if l.sender.ClearingQueue? || p.bytes > MAX_FRAME_BYTES then rest else rest.(sender := Sending(p))
    case SeeEmpty => l.(sender := if l.sender.ClearingQueue? then ClearingSignal else Waiting)
    case TakeSignal => l.(signal := l.signal - 1)
    case SeeZero => l.(sender := Waiting, wire := [], accepted := l.outbound, taken := [])
    case Wake => l.(signal := l.signal - 1, sender := Draining)
    case Sent => l.(wire := l.wire + [l.sender.packet], sender := Draining)
    case Close => l.(sender := Closed)
    case Connect => l.(sender := ClearingQueue)
  }

  ghost predicate Possible(l: Line, steps: seq<Step>)
    decreases |steps|
  {
    steps == [] || (Enabled(l, steps[0]) && Possible(Next(l, steps[0]), steps[1..]))
  }

  ghost function Run(l: Line, steps: seq<Step>): Line
    requires Possible(l, steps)
    decreases |steps|
  {
    if steps == [] then l else Run(Next(l, steps[0]), steps[1..])
  }

  // ---- what every interleaving keeps ---------------------------------------------------

  /** A frame in the queue has a wakeup coming: the semaphore is up, the loop is draining, or the
      producer has yet to release. */
  predicate WakeupDue(l: Line) {
    l.outbound != [] ==> l.signal > 0 || l.sender.Draining? || l.sender.Sending? || l.producer.Enqueued?
  }

  predicate Bounded(l: Line) {
    |l.outbound| <= MAX_QUEUED_FRAMES && (l.producer.Counted? ==> |l.outbound| < MAX_QUEUED_FRAMES)
  }

  /** The frames a session sends: in order, without those over the frame limit. */
  function Sendable(packets: seq<Packet>): seq<Packet> {
    if packets == [] then []
    else
      var n := |packets| - 1;
      Sendable(packets[..n]) + if packets[n].bytes <= MAX_FRAME_BYTES then [packets[n]] else []
  }

  predicate InHand(l: Line) {
    l.sender.Sending? && l.taken != [] && l.taken[|l.taken| - 1] == l.sender.packet
  }

  /** First in, first out: what was accepted is what was taken followed by what still waits, and
      the wire carries the sendable frames taken, in that order. */
  predicate InOrder(l: Line) {
    && l.accepted == l.taken + l.outbound
    && (l.sender.Sending? ==> InHand(l) && l.sender.packet.bytes <= MAX_FRAME_BYTES)
    && l.wire == Sendable(if l.sender.Sending? && l.taken != [] then l.taken[..|l.taken| - 1] else l.taken)
  }

  /** A connection that has finished its drain with nothing left over. */
  predicate Fresh(l: Line) {
    l.outbound == [] && l.signal == 0 && l.sender == Waiting && l.wire == [] && l.accepted == [] && l.taken == []
  }

  predicate Sound(l: Line) {
    WakeupDue(l) && Bounded(l) && InOrder(l)
  }

  lemma SendableSnoc(packets: seq<Packet>, p: Packet)
    ensures Sendable(packets + [p]) == Sendable(packets) + if p.bytes <= MAX_FRAME_BYTES then [p] else []
  {
    assert (packets + [p])[..|packets|] == packets;
  }

  lemma {:induction false} SendableConcat(a: seq<Packet>, b: seq<Packet>)
    ensures Sendable(a + b) == Sendable(a) + Sendable(b)
  {
    if b == [] {
      assert a + b == a;
    } else {
      assert (a + b)[..|a + b| - 1] == a + b[..|b| - 1];
      SendableConcat(a, b[..|b| - 1]);
    }
  }

  /** What is sent is the accepted list without the frames over 8 MiB, in order. */
  lemma SendableInOrder(packets: seq<Packet>, k: nat)
    requires k < |packets|
    ensures var before := |Sendable(packets[..k])|;
      && |Sendable(packets[..k + 1])| == before + (if packets[k].bytes <= 8 * 1024 * 1024 then 1 else 0)
      && |Sendable(packets[..k + 1])| <= |Sendable(packets)|
      && (packets[k].bytes <= 8 * 1024 * 1024 ==> Sendable(packets)[before] == packets[k])
  {
    assert packets == packets[..k + 1] + packets[k + 1..] && packets[..k + 1] == packets[..k] + [packets[k]];
    SendableConcat(packets[..k + 1], packets[k + 1..]);
    SendableSnoc(packets[..k], packets[k]);
  }

  /** A Send while no other is under way: an empty frame, or one that finds 256 in the queue, is
      dropped; any other joins the end of the queue and wakes the loop once. */
  lemma SendMeans(l: Line, p: Packet)
    requires l.producer.Idle? && l.signal < SEMAPHORE_MAX
    ensures Enabled(l, Send(p))
    ensures p.text == "" || |l.outbound| >= 256 ==> Next(l, Send(p)) == l
    ensures p.text != "" && |l.outbound| < 256 ==>
      && Possible(l, [Send(p), Enqueue, Release])
      && Run(l, [Send(p), Enqueue, Release])
         == l.(outbound := l.outbound + [p], accepted := l.accepted + [p], signal := l.signal + 1)
  {
    if p.text != "" && |l.outbound| < 256 {
      var l1 := Next(l, Send(p));
      var l2 := Next(l1, Enqueue);
      var l3 := Next(l2, Release);
      Unroll(l2, l3, Release, []);
      Unroll(l1, l2, Enqueue, [Release]);
      Unroll(l, l1, Send(p), [Enqueue, Release]);
    }
  }

  lemma EnqueueKeepsOrder(l: Line)
    requires InOrder(l) && Enabled(l, Enqueue)
    ensures InOrder(Next(l, Enqueue))
  {
    Reassociate(l.taken, l.outbound, [l.producer.packet]);
  }

  /** Moving the head of the queue to the end of what was taken leaves the whole as it was. */
  lemma HeadMoves(taken: seq<Packet>, outbound: seq<Packet>)
    requires outbound != []
    ensures taken + outbound == (taken + [outbound[0]]) + outbound[1..]
    ensures (taken + [outbound[0]])[..|taken|] == taken
  {
  }

  lemma DequeueKeepsOrder(l: Line)
    requires InOrder(l) && l.sender.Draining? && Enabled(l, Dequeue)
    ensures InOrder(Next(l, Dequeue))
  {
    HeadMoves(l.taken, l.outbound);
    SendableSnoc(l.taken, l.outbound[0]);
  }

  lemma SentKeepsOrder(l: Line)
    requires InOrder(l) && Enabled(l, Sent)
    ensures InOrder(Next(l, Sent))
  {
    var n := |l.taken| - 1;
    assert l.taken == l.taken[..n] + [l.taken[n]];
    SendableSnoc(l.taken[..n], l.taken[n]);
  }

  /** Frames leave in the order they came. */
  lemma StepKeepsOrder(l: Line, s: Step)
    requires InOrder(l) && InSession(l) && Enabled(l, s) && !s.Close?
    ensures InOrder(Next(l, s))
  {
    match s
    case Enqueue => EnqueueKeepsOrder(l);
    case Dequeue => DequeueKeepsOrder(l);
    case Sent => SentKeepsOrder(l);
    case _ =>
  }

  lemma StepKeeps(l: Line, s: Step)
    requires Sound(l) && InSession(l) && Enabled(l, s) && !s.Close?
    ensures Sound(Next(l, s)) && InSession(Next(l, s))
  {
    StepKeepsOrder(l, s);
  }

  /** From a sound state of a session, every interleaving of Send with the send loop keeps the
      wakeup, the order and the bound. */
  lemma {:induction false} SessionKeeps(l: Line, steps: seq<Step>)
    requires Sound(l) && InSession(l) && Possible(l, steps) && Close !in steps
    ensures Sound(Run(l, steps)) && InSession(Run(l, steps))
    decreases |steps|
  {
    if steps != [] {
      StepKeeps(l, steps[0]);
      SessionKeeps(Next(l, steps[0]), steps[1..]);
    }
  }

  predicate Internal(s: Step) {
    !s.Send? && !s.Close?
  }

  /** Where nothing but a new Send or a close can be done, everything accepted was dealt with. */
  lemma StuckIsDone(m: Line)
    requires Sound(m) && InSession(m)
    requires !Enabled(m, Wake) && !Enabled(m, Release) && !Enabled(m, Dequeue)
    requires !Enabled(m, SeeEmpty) && !Enabled(m, Sent)
    ensures m.outbound == [] && m.wire == Sendable(m.accepted)
  {
    assert m.taken + [] == m.taken;
  }

  lemma NoStepIsDone(m: Line)
    requires Sound(m) && InSession(m)
    ensures (forall s | Internal(s) :: !Enabled(m, s)) ==> m.outbound == [] && m.wire == Sendable(m.accepted)
  {
    if forall s | Internal(s) :: !Enabled(m, s) {
      assert Internal(Wake) && Internal(Release) && Internal(Dequeue) && Internal(SeeEmpty) && Internal(Sent);
      StuckIsDone(m);
    }
  }

  /** No frame is stranded: while one waits, some step other than a new Send or a close can be
      taken, and when none can, the queue is empty and everything accepted was dealt with. */
  lemma NothingIsStranded(l: Line, steps: seq<Step>)
    requires Sound(l) && InSession(l) && Possible(l, steps) && Close !in steps
    ensures var m := Run(l, steps);
      (forall s | Internal(s) :: !Enabled(m, s)) ==> m.outbound == [] && m.wire == Sendable(m.accepted)
  {
    SessionKeeps(l, steps);
    NoStepIsDone(Run(l, steps));
  }

  /** The queue never passes its bound, through closes and reconnects alike. */
  lemma {:induction false} QueueStaysBounded(l: Line, steps: seq<Step>)
    requires Bounded(l) && Possible(l, steps)
    ensures Bounded(Run(l, steps))
    decreases |steps|
  {
    if steps != [] {
      QueueStaysBounded(Next(l, steps[0]), steps[1..]);
    }
  }

  // ---- the drain before a session ------------------------------------------------------

  predicate InDrain(l: Line) {
    l.sender.ClearingQueue? || l.sender.ClearingSignal?
  }

  /** A run from the middle of a drain to its end. */
  ghost predicate Finishes(l: Line, steps: seq<Step>) {
    InDrain(l) && Possible(l, steps) && steps != [] && steps[|steps| - 1] == SeeZero && SeeZero !in steps[..|steps| - 1]
  }

  /** A whole drain, the game thread's steps interleaved. */
  ghost predicate IsDrain(l: Line, steps: seq<Step>) {
    l.sender.ClearingQueue? && Finishes(l, steps)
  }

  /** Was a frame enqueued after the drain had seen the queue empty? */
  predicate SentLate(steps: seq<Step>) {
    steps != [] && if steps[0].SeeEmpty? then Enqueue in steps[1..] else SentLate(steps[1..])
  }

  /** Is some enqueued frame's release still to come? */
  predicate ReleasePending(steps: seq<Step>) {
    steps != [] && (ReleasePending(steps[1..]) || (steps[0].Enqueue? && Release !in steps[1..]))
  }

  /** What is left of an unfinished drain after its first step. */
  lemma FinishesTail(l: Line, steps: seq<Step>)
    requires Finishes(l, steps) && steps[0] != SeeZero
    ensures Finishes(Next(l, steps[0]), steps[1..])
  {
    assert |steps| > 1 && steps[..|steps| - 1][0] == steps[0];
    assert steps[1..][..|steps| - 2] == steps[..|steps| - 1][1..];
  }

  lemma FirstOfMany(steps: seq<Step>)
    requires |steps| > 1
    ensures steps[0] in steps[..|steps| - 1]
  {
    assert steps[..|steps| - 1][0] == steps[0];
  }

  /** The drain ends waiting, with the semaphore at zero and this connection's books open: what is
      queued is what was enqueued behind its back. */
  lemma {:induction false} DrainEnd(l: Line, steps: seq<Step>)
    requires Finishes(l, steps)
    ensures var m := Run(l, steps);
      && m.signal == 0 && m.sender == Waiting && m.wire == [] && m.taken == [] && m.accepted == m.outbound
      && (m.outbound != [] <==>
           if l.sender.ClearingQueue? then SentLate(steps) else l.outbound != [] || Enqueue in steps)
      && (m.producer.Enqueued? <==> ReleasePending(steps) || (l.producer.Enqueued? && Release !in steps))
    decreases |steps|
  {
    assert steps == [steps[0]] + steps[1..];
    if steps[0] == SeeZero {
      if |steps| > 1 { FirstOfMany(steps); }
    } else {
      FinishesTail(l, steps);
      DrainEnd(Next(l, steps[0]), steps[1..]);
    }
  }

  /** A frame sent late has its Enqueue in the run, so whether its release is pending is decided
      by the run alone. */
  lemma {:induction false} LateIsEnqueued(steps: seq<Step>)
    requires SentLate(steps)
    ensures Enqueue in steps
  {
    assert steps == [steps[0]] + steps[1..];
    if !steps[0].SeeEmpty? { LateIsEnqueued(steps[1..]); }
  }

  /** An Enqueue of a producer that had enqueued before comes after a Release. */
  lemma {:induction false} ReleasedFirst(l: Line, steps: seq<Step>)
    requires Possible(l, steps) && l.producer.Enqueued? && Enqueue in steps
    ensures Release in steps
    decreases |steps|
  {
    assert steps == [steps[0]] + steps[1..];
    if steps[0] != Release { ReleasedFirst(Next(l, steps[0]), steps[1..]); }
  }

  /** After a whole drain a wakeup is due exactly when no frame was enqueued between its two
      halves, or the last such frame's release is still to come. */
  lemma DrainEndsAwakeIff(l: Line, steps: seq<Step>)
    requires IsDrain(l, steps)
    ensures WakeupDue(Run(l, steps)) <==> (SentLate(steps) ==> ReleasePending(steps))
  {
    DrainEnd(l, steps);
    if SentLate(steps) {
      LateIsEnqueued(steps);
      if l.producer.Enqueued? { ReleasedFirst(l, steps); }
    }
  }

  /** A drain leaves nothing behind exactly when nothing was enqueued between its two halves. */
  lemma DrainEndsFreshIff(l: Line, steps: seq<Step>)
    requires IsDrain(l, steps)
    ensures Fresh(Run(l, steps)) <==> !SentLate(steps)
  {
    DrainEnd(l, steps);
  }

  /** What the drain must end in for the session's guarantees, and exactly when it does. */
  lemma DrainEndsSoundIff(l: Line, steps: seq<Step>)
    requires Bounded(l) && IsDrain(l, steps)
    ensures InSession(Run(l, steps))
    ensures Sound(Run(l, steps)) <==> (SentLate(steps) ==> ReleasePending(steps))
  {
    DrainEnd(l, steps);
    DrainEndsAwakeIff(l, steps);
    QueueStaysBounded(l, steps);
    assert [] + Run(l, steps).outbound == Run(l, steps).outbound;
  }

  /** A whole connection, whatever the queue held when it opened: unless a late frame's wakeup was
      drained away, all three guarantees hold through the session and no frame is stranded. */
  lemma ConnectionKeeps(l: Line, drain: seq<Step>, session: seq<Step>)
    requires Bounded(l) && IsDrain(l, drain) && (SentLate(drain) ==> ReleasePending(drain))
    requires Possible(Run(l, drain), session) && Close !in session
    ensures var m := Run(Run(l, drain), session);
      && Sound(m) && InSession(m)
      && ((forall s | Internal(s) :: !Enabled(m, s)) ==> m.outbound == [] && m.wire == Sendable(m.accepted))
  {
    DrainEndsSoundIff(l, drain);
    SessionKeeps(Run(l, drain), session);
    NothingIsStranded(Run(l, drain), session);
  }

  /** Frames wait and nothing is coming for them. */
  predicate Stranded(l: Line) {
    l.outbound != [] && l.signal == 0 && l.sender.Waiting? && !l.producer.Enqueued?
  }

  lemma {:induction false} StrandedStays(l: Line, steps: seq<Step>)
    requires Stranded(l) && Possible(l, steps) && Enqueue !in steps && Close !in steps
    ensures var m := Run(l, steps); Stranded(m) && m.outbound == l.outbound && m.wire == l.wire
    decreases |steps|
  {
    if steps != [] {
      StrandedStays(Next(l, steps[0]), steps[1..]);
    }
  }

  /** In the other case the connection begins stranded, and until a further frame is enqueued or
      the connection closes no run moves a frame. */
  lemma DrainStrands(l: Line, drain: seq<Step>, steps: seq<Step>)
    requires IsDrain(l, drain) && SentLate(drain) && !ReleasePending(drain)
    requires Possible(Run(l, drain), steps) && Enqueue !in steps && Close !in steps
    ensures var m := Run(Run(l, drain), steps);
      Stranded(m) && m.outbound == Run(l, drain).outbound && m.wire == []
  {
    DrainEnd(l, drain);
    DrainEndsAwakeIff(l, drain);
    StrandedStays(Run(l, drain), steps);
  }

  lemma RaceRun(p: Packet)
    requires p.text != ""
    ensures var l := Line([], 0, Idle, ClearingQueue, [], [], []);
      var steps := [SeeEmpty, Send(p), Enqueue, Release, TakeSignal, SeeZero];
      Possible(l, steps) && Run(l, steps) == Line([p], 0, Idle, Waiting, [], [p], [])
  {
    var l0 := Line([], 0, Idle, ClearingQueue, [], [], []);
    var l1 := Next(l0, SeeEmpty);
    var l2 := Next(l1, Send(p));
    var l3 := Next(l2, Enqueue);
    var l4 := Next(l3, Release);
    var l5 := Next(l4, TakeSignal);
    var l6 := Next(l5, SeeZero);
    assert [] + [p] == [p];
    Unroll(l5, l6, SeeZero, []);
    Unroll(l4, l5, TakeSignal, [SeeZero]);
    Unroll(l3, l4, Release, [TakeSignal, SeeZero]);
    Unroll(l2, l3, Enqueue, [Release, TakeSignal, SeeZero]);
    Unroll(l1, l2, Send(p), [Enqueue, Release, TakeSignal, SeeZero]);
    Unroll(l0, l1, SeeEmpty, [Send(p), Enqueue, Release, TakeSignal, SeeZero]);
  }

  /** Such a drain exists: it empties the queue first and the semaphore second, and a Send that
      falls between the two has its frame kept and its wakeup taken. */
  lemma DrainRace(p: Packet)
    requires p.text != ""
    ensures var l := Line([], 0, Idle, ClearingQueue, [], [], []);
      var steps := [SeeEmpty, Send(p), Enqueue, Release, TakeSignal, SeeZero];
      IsDrain(l, steps) && SentLate(steps) && !ReleasePending(steps) && Stranded(Run(l, steps))
  {
    var steps := [SeeEmpty, Send(p), Enqueue, Release, TakeSignal, SeeZero];
    RaceRun(p);
    assert steps[..5] == [SeeEmpty, Send(p), Enqueue, Release, TakeSignal];
    DrainEnd(Line([], 0, Idle, ClearingQueue, [], [], []), steps);
  }

  lemma Unroll(l: Line, next: Line, s: Step, rest: seq<Step>)
    requires Enabled(l, s) && next == Next(l, s) && Possible(next, rest)
    ensures Possible(l, [s] + rest) && Run(l, [s] + rest) == Run(next, rest)
  {
    assert ([s] + rest)[1..] == rest;
  }

  // ---- the reconnect ladder ------------------------------------------------------------

  const RECONNECT_BACKOFF_MIN_MS: nat := 1000
  const RECONNECT_BACKOFF_MAX_MS: nat := 30000
  const AUTH_FAILURES_BEFORE_CEILING: nat := 5

  function Power2(n: nat): (p: nat)
    ensures p > 0
  {
    if n == 0 then 1 else 2 * Power2(n - 1)
  }

  lemma {:induction false} Power2Grows(m: nat, n: nat)
    requires m <= n
    ensures Power2(m) <= Power2(n)
  {
    if m < n { Power2Grows(m, n - 1); }
  }

  /** The ceiling of rung `attempt`: min(max, min * 2^(attempt - 1)), or the top while refused. */
  function Ceiling(attempt: nat, authFailures: nat): (c: nat)
    requires attempt >= 1
    ensures RECONNECT_BACKOFF_MIN_MS <= c <= RECONNECT_BACKOFF_MAX_MS
  {
    Power2Grows(0, attempt - 1);
    if authFailures >= AUTH_FAILURES_BEFORE_CEILING then RECONNECT_BACKOFF_MAX_MS
    else if RECONNECT_BACKOFF_MIN_MS * Power2(attempt - 1) > RECONNECT_BACKOFF_MAX_MS then RECONNECT_BACKOFF_MAX_MS
    else RECONNECT_BACKOFF_MIN_MS * Power2(attempt - 1)
  }

  /** The ladder never comes down between attempts, and its top is rung 6. */
  lemma LadderClimbs(attempt: nat, next: nat, authFailures: nat)
    requires 1 <= attempt <= next
    ensures Ceiling(attempt, authFailures) <= Ceiling(next, authFailures)
    ensures Ceiling(attempt, authFailures) == RECONNECT_BACKOFF_MAX_MS
        <==> attempt >= 6 || authFailures >= AUTH_FAILURES_BEFORE_CEILING
  {
    Power2Grows(attempt - 1, next - 1);
    assert Power2(1) == 2 && Power2(2) == 4 && Power2(3) == 8;
    assert Power2(4) == 16 && Power2(5) == 32;
    if attempt >= 6 { Power2Grows(5, attempt - 1); } else { Power2Grows(attempt - 1, 4); }
  }

  /** Until its top the ladder starts at a second and doubles. */
  lemma LadderDoubles(attempt: nat, authFailures: nat)
    requires 1 <= attempt && authFailures < 5
    ensures Ceiling(1, authFailures) == 1000
    ensures Ceiling(attempt + 1, authFailures) == Min(2 * Ceiling(attempt, authFailures), 30000)
  {
    LadderClimbs(attempt, attempt + 1, authFailures);
  }

  function Min(a: nat, b: nat): nat {
    if a < b then a else b
  }

  /** `draw` is the random source: any value from 0 up to, but not including, its bound. The
      exponent is clamped at 30, which never changes the delay. */
  method FullJitterDelayMs(attempt: nat, authFailures: nat, draw: nat -> nat) returns (delay: nat)
    requires attempt >= 1 && forall bound: nat | bound > 0 :: draw(bound) < bound
    ensures delay <= Ceiling(attempt, authFailures)
    ensures delay == draw(Ceiling(attempt, authFailures) + 1)
  {
    var ceiling: int;
    if authFailures >= AUTH_FAILURES_BEFORE_CEILING {
      ceiling := RECONNECT_BACKOFF_MAX_MS;
    } else {
      var exponent := if attempt - 1 < 30 then attempt - 1 else 30;
      ceiling := RECONNECT_BACKOFF_MIN_MS * Power2(exponent);
      if ceiling > RECONNECT_BACKOFF_MAX_MS || ceiling <= 0 {
        ceiling := RECONNECT_BACKOFF_MAX_MS;
      }
      if attempt - 1 >= 30 {
        LadderClimbs(attempt, attempt, authFailures);
        LadderClimbs(31, 31, authFailures);
      }
    }
    delay := draw(ceiling + 1);
  }
}
