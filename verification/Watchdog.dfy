/**
 The watchdog (src/wayland/watchdog.c) as a transition system: the main loop and
 the watchdog thread take turns, one atomic access, lock operation or wait at a
 time, in any order.  Waits may end without a signal.

 `stamps` is history: every value ever stored in `since`, in order.  `mark` and
 `lastMark` say how many there were when the current and the previous sample read it.
 */
module Watchdog {
  const STUCK_MS: nat := 3000
  const WRAP: nat := 0x1_0000_0000

  datatype Stage =
    | Idle | PanelUpdate | PrepareRead | Flush | Poll | ReadEvents | DispatchPending | AuxIo | KeyRepeat | ConfigReload

  predicate Restful(s: Stage) {
    s == Poll || s == Idle
  }

  /** runtime_age_ms, an unsigned 32-bit number. */
  function Age(now: nat, start: nat): nat {
    if now >= start then (now - start) % WRAP else 0
  }

  datatype Change = Arm(armed: bool) | Halt

  /** Where the main loop is within a call. */
  datatype MainPc =
    | Ready
    | BeatClock(done: bool) | BeatStore(done: bool) | BeatSince(done: bool)     // heartbeat; done: stage_done goes on
    | StageStore(s: Stage) | StageClock | StageSince                            // set_stage
    | WantLock(c: Change) | Storing(c: Change) | Signalling | Unlocking         // set_armed and stop

  datatype Call = Heartbeat | SetStage(s: Stage) | StageDone | SetArmed(armed: bool) | Stop

  /** Where the watchdog thread is. */
  datatype ThreadPc =
    | Starting
    | TestStop | TestArmed | TestStopAgain | Waiting(signalled: bool) | WaitLock
    | BeforeSleep | Sleeping | SleepLock
    | AfterSleep | StillArmed | ReadHeartbeat | ReadStage | ReadSince | Decide
    | Killed | Leaving | Gone

  datatype Holder = Free | Main | Thread

  datatype Sample = Sample(heartbeat: nat, stage: Stage, since: nat)

  datatype Shared = Shared(heartbeat: nat, stage: Stage, since: nat, armed: bool, stop: bool)

  datatype World = World(
    clock: nat, shared: Shared, holder: Holder,
    main: MainPc, stamp: nat,
    thread: ThreadPc, now: Sample, last: Sample,
    stamps: seq<nat>, mark: nat, lastMark: nat, sampled: bool)

  /** The state in which watchdog_start leaves the two threads. */
  predicate Initial(w: World) {
    && w.shared == Shared(0, Idle, 0, false, false) && w.holder == Free
    && w.main == Ready && w.stamp <= w.clock
    && w.thread == Starting && w.last == Sample(0, Idle, 0)
    && w.stamps == [0] && w.mark == 1 && w.lastMark == 1 && !w.sampled
  }

  // ---------------------------------------------------------------- the main loop

  function Begin(w: World, c: Call): World {
    if w.main != Ready then w
    else w.(main := match c
                    case Heartbeat => BeatClock(false)
                    case SetStage(s) => StageStore(s)
                    case StageDone => BeatClock(true)
                    case SetArmed(b) => WantLock(Arm(b))
                    case Stop => WantLock(Halt))
  }

  function StoreSince(w: World, next: MainPc): World {
    w.(shared := w.shared.(since := w.stamp), stamps := w.stamps + [w.stamp], main := next)
  }

  function MainStep(w: World): World {
    match w.main
    case Ready => w
    case BeatClock(done) => w.(stamp := w.clock, main := BeatStore(done))
    case BeatStore(done) => w.(shared := w.shared.(heartbeat := w.stamp), main := BeatSince(done))
    case BeatSince(done) => StoreSince(w, if done then StageStore(Idle) else Ready)
    case StageStore(s) => w.(shared := w.shared.(stage := s), main := StageClock)
    case StageClock => w.(stamp := w.clock, main := StageSince)
    case StageSince => StoreSince(w, Ready)
    case WantLock(c) => if w.holder == Free then w.(holder := Main, main := Storing(c)) else w
    case Storing(c) =>
      w.(shared := if c.Arm? then w.shared.(armed := c.armed) else w.shared.(stop := true), main := Signalling)
    case Signalling => w.(thread := if w.thread.Waiting? then Waiting(true) else w.thread, main := Unlocking)
    case Unlocking => w.(holder := Free, main := Ready)
  }

  // ---------------------------------------------------------------- the watchdog thread

  function Acquire(w: World, next: ThreadPc): World {
    if w.holder == Free then w.(holder := Thread, thread := next) else w
  }

  predicate Unchanged(w: World) {
    w.now == w.last
  }

  function ThreadStep(w: World): World {
    match w.thread
    case Starting => Acquire(w, TestStop)
    case TestStop => w.(thread := if w.shared.stop then Leaving else TestArmed)
    case TestArmed => w.(thread := if w.shared.armed then BeforeSleep else TestStopAgain)
    case TestStopAgain =>
      if w.shared.stop then w.(thread := BeforeSleep) else w.(thread := Waiting(false), holder := Free)
    case Waiting(_) => w.(thread := WaitLock)
    case WaitLock => Acquire(w, TestArmed)
    case BeforeSleep =>
      if w.shared.stop then w.(thread := Leaving) else w.(thread := Sleeping, holder := Free)
    case Sleeping => w.(thread := SleepLock)
    case SleepLock => Acquire(w, AfterSleep)
    case AfterSleep => w.(thread := if w.shared.stop then Leaving else StillArmed)
    case StillArmed => w.(thread := if w.shared.armed then ReadHeartbeat else TestStop)
    case ReadHeartbeat => w.(now := w.now.(heartbeat := w.shared.heartbeat), thread := ReadStage)
    case ReadStage => w.(now := w.now.(stage := w.shared.stage), thread := ReadSince)
    case ReadSince => w.(now := w.now.(since := w.shared.since), mark := |w.stamps|, thread := Decide)
    case Decide =>
      if Unchanged(w) && !Restful(w.now.stage) && Age(w.clock, w.now.heartbeat) >= STUCK_MS
      then w.(thread := Killed)
      else w.(last := w.now, lastMark := w.mark, sampled := true, thread := TestStop)
    case Killed => w
    case Leaving => w.(thread := Gone, holder := Free)
    case Gone => w
  }

  /** One move; a killed process makes none. */
  datatype Move = Tick(ms: nat) | Enter(c: Call) | MainMoves | ThreadMoves

  function Next(w: World, m: Move): World {
    if w.thread == Killed then w
    else match m
         case Tick(ms) => w.(clock := w.clock + ms)
         case Enter(c) => Begin(w, c)
         case MainMoves => MainStep(w)
         case ThreadMoves => ThreadStep(w)
  }

  function Run(w: World, moves: seq<Move>): World {
    if moves == [] then w else Next(Run(w, moves[..|moves| - 1]), moves[|moves| - 1])
  }

  // ---------------------------------------------------------------- the invariant

  predicate ThreadInside(t: ThreadPc) {
    !(t == Starting || t.Waiting? || t == WaitLock || t == Sleeping || t == SleepLock || t == Gone)
  }

  predicate MainInside(m: MainPc) {
    m.Storing? || m == Signalling || m == Unlocking
  }

  /** The lock is held by whoever is in its critical section. */
  predicate LockOk(w: World) {
    (ThreadInside(w.thread) <==> w.holder == Thread) && (MainInside(w.main) <==> w.holder == Main)
  }

  predicate Sampling(t: ThreadPc) {
    t == ReadHeartbeat || t == ReadStage || t == ReadSince || t == Decide || t == Killed
  }

  /**
   What the thread last found still holds while it keeps the lock, and a change made
   while it waits is about to be signalled.
   */
  predicate FlagsOk(w: World) {
    && (w.thread == TestStopAgain ==> !w.shared.armed)
    && (w.thread == StillArmed ==> !w.shared.stop)
    && (Sampling(w.thread) ==> w.shared.armed && !w.shared.stop)
    && (w.thread == Leaving || w.thread == Gone ==> w.shared.stop)
    && (w.thread == Waiting(false) && (w.shared.armed || w.shared.stop) ==> w.main == Signalling)
  }

  predicate Sorted(s: seq<nat>) {
    forall i, j :: 0 <= i < j < |s| ==> s[i] <= s[j]
  }

  predicate StampsOk(w: World) {
    && |w.stamps| > 0 && Sorted(w.stamps) && w.stamps[|w.stamps| - 1] == w.shared.since
    && w.shared.since <= w.clock && w.stamp <= w.clock && w.shared.heartbeat <= w.clock
    && (w.main.BeatStore? || w.main.BeatSince? || w.main == StageSince ==> w.shared.since <= w.stamp)
  }

  predicate SamplesOk(w: World) {
    && 0 < w.lastMark <= w.mark <= |w.stamps|
    && (w.thread == Decide || w.thread == Killed ==> w.now.since == w.stamps[w.mark - 1])
    && (w.sampled ==> w.last.since == w.stamps[w.lastMark - 1])
    && (!w.sampled ==> w.last.stage == Idle)
  }

  /** What a kill rests on. */
  predicate Justified(w: World) {
    && w.sampled && Unchanged(w) && !Restful(w.now.stage)
    && w.clock - w.now.heartbeat >= STUCK_MS
  }

  predicate Ok(w: World) {
    && LockOk(w) && FlagsOk(w) && StampsOk(w) && SamplesOk(w)
    && (w.thread == Killed ==> Justified(w))
  }

  lemma MainStepLock(w: World)
    requires LockOk(w)
    ensures LockOk(MainStep(w))
  {
  }

  lemma MainStepFlags(w: World)
    requires LockOk(w) && FlagsOk(w)
    ensures FlagsOk(MainStep(w))
  {
  }

  lemma SortedSnoc(s: seq<nat>, x: nat)
    requires Sorted(s) && (|s| > 0 ==> s[|s| - 1] <= x)
    ensures Sorted(s + [x])
  {
  }

  lemma MainStepStamps(w: World)
    requires StampsOk(w)
    ensures StampsOk(MainStep(w))
  {
    if w.main.BeatSince? || w.main == StageSince {
      SortedSnoc(w.stamps, w.stamp);
    }
  }

  lemma MainStepSamples(w: World)
    requires SamplesOk(w)
    ensures SamplesOk(MainStep(w))
  {
  }

  lemma MainStepKeeps(w: World)
    requires Ok(w) && w.thread != Killed
    ensures Ok(MainStep(w))
  {
    MainStepLock(w);
    MainStepFlags(w);
    MainStepStamps(w);
    MainStepSamples(w);
    assert MainStep(w).thread != Killed;
  }

  lemma ThreadStepLock(w: World)
    requires LockOk(w)
    ensures LockOk(ThreadStep(w))
  {
  }

  lemma ThreadStepFlags(w: World)
    requires FlagsOk(w)
    ensures FlagsOk(ThreadStep(w))
  {
  }

  lemma ThreadStepSamples(w: World)
    requires |w.stamps| > 0 && w.stamps[|w.stamps| - 1] == w.shared.since && SamplesOk(w)
    ensures SamplesOk(ThreadStep(w))
  {
  }

  lemma ThreadStepStamps(w: World)
    requires StampsOk(w)
    ensures StampsOk(ThreadStep(w))
  {
  }

  lemma DecideKills(w: World)
    requires SamplesOk(w) && w.thread != Killed && ThreadStep(w).thread == Killed
    ensures Justified(ThreadStep(w))
  {
  }

  lemma ThreadStepKeeps(w: World)
    requires Ok(w) && w.thread != Killed
    ensures Ok(ThreadStep(w))
  {
    ThreadStepLock(w);
    ThreadStepFlags(w);
    ThreadStepSamples(w);
    ThreadStepStamps(w);
    if ThreadStep(w).thread == Killed {
      DecideKills(w);
    }
  }

  lemma BeginFrame(w: World, c: Call)
    ensures Begin(w, c) == w.(main := Begin(w, c).main)
    ensures Begin(w, c).main == w.main ||
      (w.main == Ready && (Begin(w, c).main.BeatClock? || Begin(w, c).main.StageStore? || Begin(w, c).main.WantLock?))
  {
  }

  lemma BeginKeeps(w: World, c: Call)
    requires Ok(w) && w.thread != Killed
    ensures Ok(Begin(w, c))
  {
    BeginFrame(w, c);
  }

  lemma TickKeeps(w: World, ms: nat)
    requires Ok(w)
    ensures Ok(w.(clock := w.clock + ms))
  {
  }

  lemma NextKeeps(w: World, m: Move)
    requires Ok(w)
    ensures Ok(Next(w, m))
  {
    if w.thread != Killed {
      match m {
        case Tick(ms) =>
          assert Ok(Next(w, m)) by { TickKeeps(w, ms); }
        case Enter(c) =>
          assert Ok(Next(w, m)) by { BeginKeeps(w, c); }
        case MainMoves =>
          assert Ok(Next(w, m)) by { MainStepKeeps(w); }
        case ThreadMoves =>
          assert Ok(Next(w, m)) by { ThreadStepKeeps(w); }
      }
    }
  }

  lemma {:induction false} RunKeeps(w: World, moves: seq<Move>)
    requires Initial(w)
    ensures Ok(Run(w, moves))
  {
    if moves != [] {
      RunKeeps(w, moves[..|moves| - 1]);
      NextKeeps(Run(w, moves[..|moves| - 1]), moves[|moves| - 1]);
    }
  }

  // ---------------------------------------------------------------- the guarantees

  /**
   Under every interleaving a kill happens only while armed and not stopping,
   after two consecutive samples that agree on a work stage, the heartbeat and the
   stage stamp, with that heartbeat at least 3000 ms old; and between the two
   readings of the stage stamp no heartbeat or stage change carried a later one.
   */
  lemma KillIsJustified(w: World, moves: seq<Move>)
    requires Initial(w) && Run(w, moves).thread == Killed
    ensures var k := Run(w, moves);
      && k.shared.armed && !k.shared.stop
      && k.sampled && k.now == k.last && k.now.stage != Poll && k.now.stage != Idle
      && k.clock >= k.now.heartbeat + STUCK_MS
      && 0 < k.lastMark <= k.mark <= |k.stamps|
      && forall i :: k.lastMark <= i < k.mark ==> k.stamps[i] == k.now.since
  {
    RunKeeps(w, moves);
    SameStampBetween(Run(w, moves));
  }

  lemma SameStampBetween(k: World)
    requires StampsOk(k) && SamplesOk(k) && k.thread == Killed && Justified(k)
    ensures forall i :: k.lastMark <= i < k.mark ==> k.stamps[i] == k.now.since
  {
    forall i | k.lastMark <= i < k.mark
      ensures k.stamps[i] == k.now.since
    {
      assert k.stamps[k.lastMark - 1] <= k.stamps[i];
      assert i < k.mark - 1 ==> k.stamps[i] <= k.stamps[k.mark - 1];
    }
  }

  /**
   No wakeup is lost: whenever the thread waits for arming without a signal
   pending and the main loop is not just about to signal, it is neither armed nor
   told to stop.
   */
  lemma NoLostWakeup(w: World, moves: seq<Move>)
    requires Initial(w)
    ensures var k := Run(w, moves);
      k.thread == Waiting(false) && k.main != Signalling ==> !k.shared.armed && !k.shared.stop
  {
    RunKeeps(w, moves);
  }

  /** The lock is never held by both, and the flags never change while the thread holds it. */
  lemma FlagsStableUnderLock(w: World, moves: seq<Move>, m: Move)
    requires Initial(w) && ThreadInside(Run(w, moves).thread)
    ensures var k := Run(w, moves);
      Next(k, m).shared.armed == k.shared.armed && Next(k, m).shared.stop == k.shared.stop
  {
    RunKeeps(w, moves);
  }

  function ThreadSteps(w: World, n: nat): World {
    if n == 0 then w else Next(ThreadSteps(w, n - 1), ThreadMoves)
  }

  /**
   And a stuck loop is caught: a sample taken in a work stage that finds
   everything as the previous one did kills exactly when the 32-bit age of the
   heartbeat has reached the limit.
   */
  lemma StuckIsKilledIff(w: World)
    requires w.thread == ReadHeartbeat && w.last == Sample(w.shared.heartbeat, w.shared.stage, w.shared.since)
    requires w.shared.stage != Poll && w.shared.stage != Idle && w.shared.heartbeat <= w.clock
    ensures ThreadSteps(w, 4).thread == Killed <==> (w.clock - w.shared.heartbeat) % WRAP >= STUCK_MS
  {
    SampleTaken(w);
    FourthStep(w);
    DecideIff(w.(now := w.last, mark := |w.stamps|, thread := Decide));
  }

  lemma FourthStep(w: World)
    ensures ThreadSteps(w, 4) == Next(ThreadSteps(w, 3), ThreadMoves)
  {
  }

  lemma DecideIff(w: World)
    requires w.thread == Decide && Unchanged(w) && !Restful(w.now.stage) && w.now.heartbeat <= w.clock
    ensures Next(w, ThreadMoves).thread == Killed <==> (w.clock - w.now.heartbeat) % WRAP >= STUCK_MS
  {
  }

  /** Three steps take a sample. */
  lemma SampleTaken(w: World)
    requires w.thread == ReadHeartbeat
    ensures ThreadSteps(w, 3) == w.(now := Sample(w.shared.heartbeat, w.shared.stage, w.shared.since),
                                    mark := |w.stamps|, thread := Decide)
  {
    var a := w.(now := w.now.(heartbeat := w.shared.heartbeat), thread := ReadStage);
    var b := a.(now := a.now.(stage := w.shared.stage), thread := ReadSince);
    assert ThreadSteps(w, 0) == w;
    assert ThreadSteps(w, 1) == Next(w, ThreadMoves) == a;
    assert ThreadSteps(w, 2) == Next(a, ThreadMoves) == b;
    assert ThreadSteps(w, 3) == Next(b, ThreadMoves);
  }
}
