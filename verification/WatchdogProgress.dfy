/**
 That the watchdog does what it is there for: a main loop that hangs in a work stage
 is killed after a bounded number of thread moves, whatever the thread was doing, and
 the calls of the main loop leave behind what their names say.
 */
module WatchdogProgress {
  import opened Watchdog

  // ---------------------------------------------------------------- a hanging main loop

  /** The main loop stands still in a work stage, armed, with a heartbeat as old as the limit. */
  predicate Hung(w: World) {
    && w.shared.armed && !w.shared.stop && w.main == Ready
    && w.shared.stage != Poll && w.shared.stage != Idle && Age(w.clock, w.shared.heartbeat) >= STUCK_MS
  }

  /** A move that is not the main loop's. */
  predicate Idles(m: Move) {
    m.Tick? || m.ThreadMoves?
  }

  function Truth(w: World): Sample {
    Sample(w.shared.heartbeat, w.shared.stage, w.shared.since)
  }

  /** What has been read of the current sample is what is there. */
  predicate Fresh(w: World) {
    match w.thread
    case ReadStage => w.now.heartbeat == w.shared.heartbeat
    case ReadSince => w.now.heartbeat == w.shared.heartbeat && w.now.stage == w.shared.stage
    case Decide => w.now == Truth(w)
    case _ => true
  }

  /** Thread moves until the current or the next sample has been judged. */
  function ToVerdict(t: ThreadPc): nat {
    match t
    case Starting => 12
    case Waiting(_) => 12
    case WaitLock => 11
    case TestStop => 11
    case TestArmed => 10
    case BeforeSleep => 9
    case Sleeping => 8
    case SleepLock => 7
    case AfterSleep => 6
    case StillArmed => 5
    case ReadHeartbeat => 4
    case ReadStage => 3
    case ReadSince => 2
    case Decide => 1
    case _ => 0
  }

  /** Thread moves until the kill: two samples have to agree, and a stale one does not count. */
  function ToKill(w: World): nat {
    ToVerdict(w.thread) + 11 * (if !Fresh(w) then 2 else if w.last != Truth(w) then 1 else 0)
  }

  const ENOUGH: nat := 25

  lemma KillIsNear(w: World)
    requires Ok(w) && Hung(w) && w.thread != Killed
    ensures 1 <= ToKill(w) <= ENOUGH
  {
  }

  lemma HungStays(w: World, m: Move)
    requires Ok(w) && Hung(w) && w.thread != Killed && Idles(m) && Age(Next(w, m).clock, w.shared.heartbeat) >= STUCK_MS
    ensures Hung(Next(w, m)) && Next(w, m).shared == w.shared
  {
  }

  /** Every thread move brings the kill nearer, and time passing does not take it away. */
  lemma MoveTowardsKill(w: World, m: Move)
    requires Ok(w) && Hung(w) && w.thread != Killed && Idles(m)
    ensures Next(w, m).thread == Killed || ToKill(Next(w, m)) <= ToKill(w) - (if m.ThreadMoves? then 1 else 0)
  {
  }

  function CountThread(moves: seq<Move>): nat {
    if moves == [] then 0
    else CountThread(moves[..|moves| - 1]) + (if moves[|moves| - 1].ThreadMoves? then 1 else 0)
  }

  /** The 32-bit age of the heartbeat stays at the limit or above while the moves are made. */
  ghost predicate StaysOld(w: World, moves: seq<Move>) {
    forall i :: 0 <= i <= |moves| ==> Age(Run(w, moves[..i]).clock, w.shared.heartbeat) >= STUCK_MS
  }

  lemma {:induction false} TowardsKill(w: World, moves: seq<Move>)
    requires Ok(w) && Hung(w) && StaysOld(w, moves)
    requires forall i :: 0 <= i < |moves| ==> Idles(moves[i])
    ensures var k := Run(w, moves);
      && Ok(k)
      && (k.thread == Killed ||
            (Hung(k) && k.shared == w.shared && ToKill(k) + CountThread(moves) <= ToKill(w)))
  {
    if moves != [] {
      var n := |moves| - 1;
      var before, m := moves[..n], moves[n];
      assert forall i :: 0 <= i <= n ==> before[..i] == moves[..i];
      assert moves[..n + 1] == moves;
      TowardsKill(w, before);
      var k := Run(w, before);
      NextKeeps(k, m);
      if k.thread != Killed {
        HungStays(k, m);
        MoveTowardsKill(k, m);
      }
    }
  }

  lemma {:induction false} RunAppend(w: World, a: seq<Move>, b: seq<Move>)
    ensures Run(w, a + b) == Run(Run(w, a), b)
  {
    if b == [] {
      assert a + b == a;
    } else {
      assert (a + b)[..|a + b| - 1] == a + b[..|b| - 1];
      RunAppend(w, a, b[..|b| - 1]);
    }
  }

  /**
   No hang goes unnoticed: from every state that a run can reach in which the main loop
   hangs, armed, in a work stage, with a heartbeat that is and stays 3000 ms old, the
   process is killed by the time the thread has made 25 moves, however time passes in
   between and wherever the thread was.
   */
  lemma HangIsKilled(w: World, moves: seq<Move>, hang: seq<Move>)
    requires Initial(w) && Hung(Run(w, moves)) && StaysOld(Run(w, moves), hang)
    requires (forall i :: 0 <= i < |hang| ==> Idles(hang[i])) && CountThread(hang) >= ENOUGH
    ensures Run(w, moves + hang).thread == Killed
  {
    RunKeeps(w, moves);
    RunAppend(w, moves, hang);
    var k := Run(w, moves);
    TowardsKill(k, hang);
    if Run(w, moves + hang).thread != Killed {
      KillIsNear(Run(k, hang));
      if k.thread != Killed {
        KillIsNear(k);
      }
    }
  }

  // ---------------------------------------------------------------- stopping

  /** Thread moves until the thread has ended, once it was told to stop. */
  function ToEnd(t: ThreadPc): nat {
    match t
    case Waiting(_) => 6
    case WaitLock => 5
    case TestArmed => 4
    case Sleeping => 4
    case Starting => 3
    case TestStopAgain => 3
    case SleepLock => 3
    case TestStop => 2
    case BeforeSleep => 2
    case AfterSleep => 2
    case Leaving => 1
    case _ => 0
  }

  /** A stopped watchdog ends: from every reachable state the thread is gone after six moves, and never kills. */
  lemma StopEnds(w: World, moves: seq<Move>, rest: seq<Move>)
    requires Initial(w) && Run(w, moves).shared.stop && Run(w, moves).main == Ready
    requires (forall i :: 0 <= i < |rest| ==> Idles(rest[i])) && CountThread(rest) >= 6
    ensures Run(w, moves + rest).thread == Gone
  {
    RunKeeps(w, moves);
    RunAppend(w, moves, rest);
    TowardsEnd(Run(w, moves), rest);
  }

  lemma {:induction false} TowardsEnd(w: World, moves: seq<Move>)
    requires Ok(w) && w.shared.stop && w.main == Ready
    requires forall i :: 0 <= i < |moves| ==> Idles(moves[i])
    ensures var k := Run(w, moves);
      && Ok(k) && k.shared == w.shared && k.main == Ready && k.thread != Killed
      && (k.thread == Gone || ToEnd(k.thread) + CountThread(moves) <= ToEnd(w.thread) <= 6)
  {
    if moves != [] {
      var before, m := moves[..|moves| - 1], moves[|moves| - 1];
      TowardsEnd(w, before);
      var k := Run(w, before);
      assert Run(w, moves) == Next(k, m);
      NextKeeps(k, m);
      MoveTowardsEnd(k, m);
    }
  }

  lemma MoveTowardsEnd(w: World, m: Move)
    requires Ok(w) && w.shared.stop && w.main == Ready && Idles(m)
    ensures var w' := Next(w, m);
      && w'.shared == w.shared && w'.main == Ready && w'.thread != Killed
      && (w'.thread == Gone || ToEnd(w'.thread) + (if m.ThreadMoves? then 1 else 0) <= ToEnd(w.thread))
  {
  }

  // ---------------------------------------------------------------- what the calls leave behind

  function Thrice(w: World): World {
    MainStep(MainStep(MainStep(w)))
  }

  /** A call that nothing comes in between of, made to its end. */
  function Called(w: World, c: Call): World {
    var begun := Thrice(Begin(w, c));
    match c
    case Heartbeat => begun
    case SetStage(_) => begun
    case StageDone => Thrice(begun)
    case SetArmed(_) => MainStep(begun)
    case Stop => MainStep(begun)
  }

  /**
   A heartbeat stamps heartbeat and stage, entering a stage stores it and its time, and a
   finished stage is a heartbeat and a return to idle; arming and stopping set their flag
   and wake the thread if it waits.
   */
  lemma CallsDo(w: World, c: Call)
    requires w.main == Ready && (c.SetArmed? || c.Stop? ==> w.holder == Free)
    ensures var w' := Called(w, c);
      && w'.main == Ready && w'.holder == w.holder && w'.clock == w.clock
      && w'.shared ==
         match c {
           case Heartbeat => w.shared.(heartbeat := w.clock, since := w.clock)
           case SetStage(s) => w.shared.(stage := s, since := w.clock)
           case StageDone => w.shared.(heartbeat := w.clock, stage := Idle, since := w.clock)
           case SetArmed(b) => w.shared.(armed := b)
           case Stop => w.shared.(stop := true)
         }
      && w'.thread == if (c.SetArmed? || c.Stop?) && w.thread.Waiting? then Waiting(true) else w.thread
  {
    match c {
      case Heartbeat => BeatDone(w, false);
      case SetStage(s) => StageEntered(w, s);
      case StageDone =>
        BeatDone(w, true);
        StageEntered(Thrice(Begin(w, StageDone)).(main := Ready), Idle);
      case SetArmed(b) =>
      case Stop =>
    }
  }

  lemma BeatDone(w: World, done: bool)
    ensures var w' := Thrice(w.(main := BeatClock(done)));
      && w'.shared == w.shared.(heartbeat := w.clock, since := w.clock)
      && w' == w.(shared := w'.shared, stamp := w'.stamp, stamps := w'.stamps,
                  main := if done then StageStore(Idle) else Ready)
  {
  }

  lemma StageEntered(w: World, s: Stage)
    ensures var w' := Thrice(w.(main := StageStore(s)));
      && w'.shared == w.shared.(stage := s, since := w.clock)
      && w' == w.(shared := w'.shared, stamp := w'.stamp, stamps := w'.stamps, main := Ready)
  {
  }
}
