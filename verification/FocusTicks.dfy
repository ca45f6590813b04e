/**
 What single ticks of the focus controller achieve: when the state has
 converged, when the fail-safe stops the daemon, which steps are taken in which
 order, which keys are released, and which activations are acted upon.
 */
module FocusTicks {
  import opened FocusController
  import opened FocusLifecycle
  import opened FocusTheorems

  // ---------------------------------------------------------------- convergence

  /** The resources will be as desired after this tick: no grab is needed, or it comes up. */
  predicate Settles(w: World, s: Surroundings) {
    var e := TickEffects(w, s.engine);
    var want := Reduce(w.facts.(enginePresent := s.engine), w.prev).grab;
    e.createGrab ==> s.creation == Created && (w.vk.bound || (want == SoftPause && w.vk.state == VkBroken))
  }

  /**
   One tick converges: from every state that a run can reach, the next tick
   without new facts has nothing to do, exactly when a needed grab could be
   created and a virtual keyboard is there to take its keymap.  In the one other
   case a broken virtual keyboard is tolerated while paused.
   */
  lemma ConvergesIffSettled(w: World, s: Surroundings, nextEngine: bool)
    requires Ok(w)
    ensures TickEffects(Pipeline(w, s).(facts := FreshFacts()), nextEngine) == NO_EFFECTS <==> Settles(w, s)
  {
    NextTick(Pipeline(w, s), nextEngine);
    QuietAfter(w, s);
  }

  lemma NextTick(w: World, engine: bool)
    ensures TickEffects(w.(facts := FreshFacts()), engine) == NO_EFFECTS <==> Quiet(w.prev.grab, Observe(w).grab)
  {
    QuietIff(w.prev, Observe(w), engine);
    assert Observe(w.(facts := FreshFacts())) == Observe(w);
  }

  /** The grab resource asks for no action. */
  predicate Quiet(want: Want, r: Resource) {
    match want
    case WantNone => r == Absent
    case SoftPause => r != Absent
    case Yes => r == NeedsKeymap || r == Ready
  }

  lemma QuietIff(prev: Desired, a: Actual, engine: bool)
    ensures Diff(Reduce(FreshFacts().(enginePresent := engine), prev), a) == NO_EFFECTS <==> Quiet(prev.grab, a.grab)
  {
  }

  lemma QuietAfter(w: World, s: Surroundings)
    requires Ok(w)
    ensures Quiet(Pipeline(w, s).prev.grab, Observe(Pipeline(w, s)).grab) <==> Settles(w, s)
  {
    KeyboardAfter(w, s);
    BrokenStays(w, s);
  }

  /** What a tick does to the grab and to the state of its virtual keyboard. */
  lemma KeyboardAfter(w: World, s: Surroundings)
    requires Ok(w)
    ensures var e := TickEffects(w, s.engine);
      var w' := Pipeline(w, s);
      && w'.keyboard.present == (if e.createGrab then s.creation == Created else w.keyboard.present && !e.destroyGrab)
      && (e.createGrab && w.vk.bound ==> w'.vk.state == VkNeedsKeymap)
      && (!(e.createGrab && w.vk.bound) && !e.destroyGrab ==> w'.vk.state == w.vk.state)
  {
    EffectsFit(w, s.engine);
    ApplyKeeps(w, TickEffects(w, s.engine), s.creation, s.now);
  }

  lemma HardResetUnbound(w: World)
    requires VkSane(w.vk) && !w.vk.bound
    ensures HardReset(w).vk.state == w.vk.state && HardReset(w).vk.bound == w.vk.bound
  {
  }

  /** Without a virtual keyboard object the state BROKEN can only be left by a reconnect. */
  lemma BrokenStays(w: World, s: Surroundings)
    requires VkSane(w.vk)
    ensures !w.vk.bound ==> Pipeline(w, s).vk.state == w.vk.state
  {
    var e := TickEffects(w, s.engine);
    var w1 := ApplyOut(w, e);
    OutReleases(w, e);
    if !w.vk.bound {
      HardResetUnbound(w1);
      ClearFrame(DestroyGrab(w1, e), e);
      ApplyCreateFrame(ApplyDestroy(w1, e), e, s.creation, s.now);
    }
  }

  lemma ClearFrame(w: World, e: Effects)
    ensures ClearPreedit(w, e) == w.(log := ClearPreedit(w, e).log)
  {
  }

  /** Over runs in which the virtual keyboard stays and grabs can be created, every tick converges. */
  lemma ConvergesWithKeyboard(w: World, s: Surroundings, nextEngine: bool)
    requires Ok(w) && w.vk.bound && s.creation == Created
    ensures TickEffects(Pipeline(w, s).(facts := FreshFacts()), nextEngine) == NO_EFFECTS
  {
    ConvergesIffSettled(w, s, nextEngine);
  }

  // ---------------------------------------------------------------- the fail-safe

  lemma HardResetStops(w: World)
    ensures HardReset(w).running == (w.running && w.vk.state != VkBroken)
  {
  }

  /** A tick stops the daemon exactly when it tears down a grab whose keymap path is broken. */
  lemma TeardownOfBrokenStops(w: World, s: Surroundings)
    requires w.running
    ensures Pipeline(w, s).running <==> !(TickEffects(w, s.engine).destroyGrab && w.vk.state == VkBroken)
  {
    var e := TickEffects(w, s.engine);
    var w1 := ApplyOut(w, e);
    assert w1.running && w1.vk == w.vk;
    HardResetStops(w1);
    var w2 := ApplyDestroy(w1, e);
    ApplyCreateFrame(w2, e, s.creation, s.now);
  }

  /** At every tick of every run: convergence is a matter of this tick's grab and virtual keyboard alone. */
  lemma ConvergesOnRuns(w0: World, its: seq<Iteration>, it: Iteration, nextEngine: bool)
    requires Initial(w0) && it.poll.Dispatch?
    ensures var w := AtPipeline(Run(w0, its), it);
      TickEffects(Pipeline(w, it.poll.surroundings).(facts := FreshFacts()), nextEngine) == NO_EFFECTS
      <==> Settles(w, it.poll.surroundings)
  {
    RunKeeps(w0, its);
    AtPipelineKeeps(Run(w0, its), it);
    ConvergesIffSettled(AtPipeline(Run(w0, its), it), it.poll.surroundings, nextEngine);
  }

  // ---------------------------------------------------------------- pause, hard boundary, timeout

  /** A deactivation alone leaves the field but keeps grab, keymap and generation for the next activation. */
  lemma PauseKeepsGrab(w: World, s: Surroundings)
    requires Ok(w) && w.keyboard.present && w.vk.state != VkAbsent
    requires w.facts.connectionAlive && !w.facts.suspendGap && !w.facts.activateSeen && !w.facts.doneHadActivate
    requires w.facts.deactivateSeen || w.facts.doneHadDeactivate
    ensures var w' := Pipeline(w, s);
      && w'.keyboard == w.keyboard && w'.vk == w.vk && w'.tracker.generation == w.tracker.generation
      && !w'.session.focused && w'.prev.grab == SoftPause && w'.running == w.running
  {
    var e := TickEffects(w, s.engine);
    EffectsFit(w, s.engine);
    ApplyOutKeeps(w, e);
    assert !e.destroyGrab && !e.createGrab && !e.scrubGeneration && !e.sendFocusIn;
    ClearFrame(ApplyOut(w, e), e);
  }

  /** A suspend gap or a lost connection drops the grab, leaves the field and fences the generation. */
  lemma HardBoundaryDropsGrab(w: World, s: Surroundings)
    requires Ok(w) && Observe(w).grab != Absent
    requires w.facts.suspendGap || !w.facts.connectionAlive
    ensures var w' := Pipeline(w, s);
      && !w'.keyboard.present && !w'.keyboard.grab && !w'.session.focused && w'.prev.grab == WantNone
      && w'.tracker.bumps == w.tracker.bumps + 1 && w'.tracker.keys == NoKeys()
  {
    var e := TickEffects(w, s.engine);
    EffectsFit(w, s.engine);
    ApplyKeeps(w, e, s.creation, s.now);
    ApplyOutKeeps(w, e);
    ApplyDestroyKeeps(ApplyOut(w, e), e);
  }

  /** A new grab that gets no keymap is given up exactly when its deadline has come. */
  lemma KeymapTimeout(w: World, now: nat, at: nat)
    requires w.running && w.vk.bound
    ensures var w' := HealthCheck(CreateAndWait(w, Created, now), at);
      && (w'.running <==> at < now + KEYMAP_TIMEOUT_MS) && (w'.keyboard.grab <==> at < now + KEYMAP_TIMEOUT_MS)
  {
  }

  // ---------------------------------------------------------------- the order of effects

  const ORDER: seq<Step> :=
    [Discarded, FocusedOut, GrabDestroyed, PreeditCleared, Committed, GenerationScrubbed, GrabCreated, FocusedIn,
     Reactivated]

  /** Whether an effect set makes a step happen; steps on the input context need a session, a commit needs a `done`. */
  predicate Happens(e: Effects, s: Session, step: Step) {
    match step
    case Discarded => e.discardComposition && s.present
    case FocusedOut => e.sendFocusOut && s.present
    case GrabDestroyed => e.destroyGrab
    case PreeditCleared => e.clearPreedit
    case Committed => e.commit && s.present && s.imSerial != 0
    case GenerationScrubbed => e.scrubGeneration
    case GrabCreated => e.createGrab
    case FocusedIn => e.sendFocusIn && s.present
    case Reactivated => e.reactivate
  }

  function If(b: bool, step: Step): seq<Step> {
    if b then [step] else []
  }

  /** The steps among the first `n` of the contractual order that happen. */
  function Steps(e: Effects, s: Session, n: nat): seq<Step>
    requires n <= |ORDER|
  {
    if n == 0 then [] else Steps(e, s, n - 1) + If(Happens(e, s, ORDER[n - 1]), ORDER[n - 1])
  }

  lemma StepsNext(base: seq<Step>, e: Effects, s: Session, n: nat)
    requires n < |ORDER|
    ensures base + Steps(e, s, n) + If(Happens(e, s, ORDER[n]), ORDER[n]) == base + Steps(e, s, n + 1)
  {
  }

  lemma StepsOut(w: World, e: Effects)
    ensures ApplyOut(w, e).log == w.log + Steps(e, w.session, 2)
    ensures ApplyOut(w, e).session == w.session.(focused := ApplyOut(w, e).session.focused)
  {
    StepsNext(w.log, e, w.session, 0);
    StepsNext(w.log, e, w.session, 1);
    assert w.log + Steps(e, w.session, 0) == w.log;
  }

  lemma HardResetFrame(w: World)
    ensures HardReset(w).log == w.log && HardReset(w).session == w.session
  {
  }

  lemma StepsClear(w: World, e: Effects, base: seq<Step>, s: Session)
    requires w.session.present == s.present && w.session.imSerial == s.imSerial && w.log == base + Steps(e, s, 3)
    ensures ClearPreedit(w, e).session == w.session
    ensures ClearPreedit(w, e).log == base + Steps(e, s, 5)
  {
    StepsNext(base, e, s, 3);
    StepsNext(base, e, s, 4);
  }

  lemma StepsDestroy(w: World, e: Effects, base: seq<Step>, s: Session)
    requires w.session.present == s.present && w.session.imSerial == s.imSerial && w.log == base + Steps(e, s, 2)
    ensures ApplyDestroy(w, e).session == w.session
    ensures ApplyDestroy(w, e).log == base + Steps(e, s, 5)
  {
    HardResetFrame(w);
    StepsNext(base, e, s, 2);
    StepsClear(DestroyGrab(w, e), e, base, s);
  }

  lemma StepsCreate(w: World, e: Effects, c: Creation, now: nat, base: seq<Step>, s: Session)
    requires w.log == base + Steps(e, s, 5)
    ensures ApplyCreate(w, e, c, now).session == w.session
    ensures ApplyCreate(w, e, c, now).log == base + Steps(e, s, 7)
  {
    StepsNext(base, e, s, 5);
    StepsNext(base, e, s, 6);
  }

  lemma StepsIn(w: World, e: Effects, base: seq<Step>, s: Session)
    requires w.session.present == s.present && w.log == base + Steps(e, s, 7)
    ensures ApplyIn(w, e).log == base + Steps(e, s, 9)
  {
    StepsNext(base, e, s, 7);
    StepsNext(base, e, s, 8);
  }

  /** Every effect set is executed in the contractual order, each of its steps once and nothing else. */
  lemma EffectOrder(w: World, e: Effects, c: Creation, now: nat)
    ensures Apply(w, e, c, now).log == w.log + Steps(e, w.session, 9)
  {
    StepsOut(w, e);
    var w1 := ApplyOut(w, e);
    StepsDestroy(w1, e, w.log, w.session);
    var w2 := ApplyDestroy(w1, e);
    StepsCreate(w2, e, c, now, w.log, w.session);
    StepsIn(ApplyCreate(w2, e, c, now), e, w.log, w.session);
  }

  // ---------------------------------------------------------------- released keys

  /** The virtual keyboard accepts key events. */
  predicate CanSend(vk: VirtualKeyboard) {
    vk.bound && vk.state != VkAbsent && vk.state != VkBroken
  }

  lemma NothingHeld(keys: seq<KeyState>)
    requires forall k :: 0 <= k < |keys| ==> !Held(keys[k])
    ensures HeldKeys(keys) == []
  {
  }

  /** Releasing twice sends the same events as releasing once. */
  lemma ReleaseOnce(w: World)
    ensures var w' := ReleaseForwardedKeys(w);
      && w'.released == w.released + (if CanSend(w.vk) then HeldKeys(w.tracker.keys) else [])
      && ReleaseForwardedKeys(w') == w'
  {
    NothingHeld(MarkReleased(w.tracker.keys));
    assert MarkReleased(MarkReleased(w.tracker.keys)) == MarkReleased(w.tracker.keys);
    var w' := ReleaseForwardedKeys(w);
    assert w'.released + [] == w'.released;
  }

  /** What a release would send now. */
  function Due(w: World): seq<nat> {
    if w.keyboard.present && CanSend(w.vk) then HeldKeys(w.tracker.keys) else []
  }

  lemma OutReleases(w: World, e: Effects)
    ensures var w' := ApplyOut(w, e);
      && w'.vk == w.vk && w'.keyboard == w.keyboard
      && if e.sendFocusOut && w.session.present && w.keyboard.present
         then w'.released == w.released + Due(w) && w'.tracker.keys == NoKeys()
         else w'.released == w.released && w'.tracker.keys == w.tracker.keys
  {
    ReleaseOnce(w);
  }

  lemma HardResetReleases(w: World)
    ensures HardReset(w).released == w.released + Due(w)
    ensures HardReset(w).tracker.keys == (if w.keyboard.present then NoKeys() else w.tracker.keys)
  {
    ReleaseOnce(w);
  }

  lemma DestroyReleases(w: World, e: Effects)
    ensures var w' := ApplyDestroy(w, e);
      if e.destroyGrab
      then w'.released == w.released + Due(w) && (w.keyboard.present ==> w'.tracker.keys == NoKeys())
      else w'.released == w.released && w'.tracker.keys == w.tracker.keys
  {
    HardResetReleases(w);
  }

  lemma CreateReleasesNone(w: World, e: Effects, c: Creation, now: nat)
    ensures var w' := ApplyIn(ApplyCreate(w, e, c, now), e);
      w'.released == w.released && (w.tracker.keys == NoKeys() ==> w'.tracker.keys == NoKeys())
  {
  }

  /**
   A tick that leaves the focus or drops the grab releases exactly the keys tracked
   as held, each once and in ascending order, although the
   release runs up to three times; any other tick releases none.
   */
  lemma {:induction false} TickReleasesHeldKeysOnce(w: World, s: Surroundings)
    requires Ok(w)
    ensures var e := TickEffects(w, s.engine);
      Pipeline(w, s).released == w.released +
        (if e.sendFocusOut || e.destroyGrab then Due(w) else [])
    ensures var e := TickEffects(w, s.engine);
      (e.sendFocusOut || e.destroyGrab) && w.keyboard.present ==> Pipeline(w, s).tracker.keys == NoKeys()
  {
    var e := TickEffects(w, s.engine);
    EffectsFit(w, s.engine);
    OutReleases(w, e);
    var w1 := ApplyOut(w, e);
    DestroyReleases(w1, e);
    NothingHeld(NoKeys());
    CreateReleasesNone(ApplyDestroy(w1, e), e, s.creation, s.now);
    assert w.released + Due(w) + [] == w.released + Due(w);
  }

  // ---------------------------------------------------------------- which activations count

  /** Whether there is a session, and how many `done` events it saw since its last activation, if any. */
  datatype Count = Never | Times(n: nat)

  datatype Seen = Seen(session: bool, count: Count)

  /** An activation for which no session can be created has no effect, nor has a `done` without a session. */
  function DonesSinceActivate(session: bool, es: seq<Event>): Seen {
    if es == [] then Seen(session, Never)
    else
      var before := DonesSinceActivate(session, es[..|es| - 1]);
      match es[|es| - 1]
      case ImActivate(created) => if before.session || created then Seen(true, Times(0)) else before
      case ImDone => if before.count.Times? then Seen(true, Times(before.count.n + 1)) else before
      case _ => before
  }

  /** An activation is still visible to the controller while at most one `done` has followed it. */
  predicate ActivationStands(session: bool, es: seq<Event>) {
    var d := DonesSinceActivate(session, es).count;
    d.Times? && d.n <= 1
  }

  /** What one event does to the recorded facts. */
  lemma EventFacts(w: World, e: Event)
    ensures var w' := Handle(w, e);
      var activated := e.ImActivate? && (w.session.present || e.sessionCreated);
      var done := e.ImDone? && w.session.present;
      && w'.session.present == (w.session.present || activated)
      && w'.facts.activateSeen == (activated || (!done && w.facts.activateSeen))
      && w'.facts.doneHadActivate == (if done then w.facts.activateSeen else w.facts.doneHadActivate)
      && w'.facts.suspendGap == w.facts.suspendGap && w'.facts.connectionAlive == w.facts.connectionAlive
  {
  }

  /** What the facts say after some events that started without any recorded activation. */
  predicate FactsTell(w: World, seen: Seen) {
    && w.session.present == seen.session
    && (seen.count.Times? ==> seen.session)
    && (w.facts.activateSeen <==> seen.count == Times(0))
    && (seen.count == Times(1) ==> w.facts.doneHadActivate)
    && (w.facts.doneHadActivate && !w.facts.activateSeen ==> seen.count == Times(1))
  }

  lemma {:induction false} FactsCountDones(w: World, es: seq<Event>)
    requires !w.facts.activateSeen && !w.facts.doneHadActivate
    ensures FactsTell(HandleAll(w, es), DonesSinceActivate(w.session.present, es))
    ensures HandleAll(w, es).facts.suspendGap == w.facts.suspendGap
    ensures HandleAll(w, es).facts.connectionAlive == w.facts.connectionAlive
  {
    if es != [] {
      var before, last := es[..|es| - 1], es[|es| - 1];
      FactsCountDones(w, before);
      EventFacts(HandleAll(w, before), last);
    }
  }

  lemma {:induction false} HandleAllAppend(w: World, a: seq<Event>, b: seq<Event>)
    ensures HandleAll(w, a + b) == HandleAll(HandleAll(w, a), b)
  {
    if b == [] {
      assert a + b == a;
    } else {
      assert (a + b)[..|a + b| - 1] == a + b[..|b| - 1];
      HandleAllAppend(w, a, b[..|b| - 1]);
    }
  }

  /**
   When focus is entered: exactly when the wait delivered something, no resume gap
   was seen, an engine is there, and fewer than two `done` events followed the last
   activation of this iteration.  An activation dispatched before a timed-out or
   interrupted wait is forgotten, and so is one followed by a second `done` in the
   same iteration.
   */
  lemma ActivationTakesEffectIff(w: World, it: Iteration)
    requires w.prev.grab != Yes
    ensures Iterate(w, it).prev.grab == Yes <==>
      && it.poll.Dispatch? && !it.gap && !it.poll.gap && it.poll.surroundings.engine
      && ActivationStands(w.session.present, it.early + it.poll.events)
  {
    var w0 := w.(facts := FreshFacts().(suspendGap := it.gap));
    HandleAllFrame(w0, it.early);
    var w1 := BeforePoll(w, it);
    if it.poll.DisplayLost? {
      HandleAllFrame(w1, it.poll.events);
    }
    if it.poll.Dispatch? {
      FocusedAtTick(w, it);
      HandleFrame(Pipeline(AtPipeline(w, it), it.poll.surroundings), GrabModifiers);
    }
  }

  lemma FocusedAtTick(w: World, it: Iteration)
    requires w.prev.grab != Yes && it.poll.Dispatch?
    ensures Pipeline(AtPipeline(w, it), it.poll.surroundings).prev.grab == Yes <==>
      && !it.gap && !it.poll.gap && it.poll.surroundings.engine
      && ActivationStands(w.session.present, it.early + it.poll.events)
  {
    var w0 := w.(facts := FreshFacts().(suspendGap := it.gap));
    var es := it.early + it.poll.events;
    HandleAllFrame(w0, it.early);
    HandleAllAppend(w0, it.early, it.poll.events);
    HandleAllFrame(w0, es);
    FactsCountDones(w0, es);
  }

  /** Nothing recorded in a skipped iteration reaches the next one. */
  lemma SkippedFactsAreLost(w: World, f: Facts, it: Iteration)
    ensures Iterate(w.(facts := f), it) == Iterate(w, it)
  {
  }

  // ---------------------------------------------------------------- the commit serial

  /** The serial is the count of all done events ever, over every run. */
  predicate SerialOk(s: Session) {
    s.imSerial == s.former + s.dones
  }

  lemma {:induction false} SerialHandleAll(w: World, es: seq<Event>)
    requires SerialOk(w.session)
    ensures SerialOk(HandleAll(w, es).session)
  {
    if es != [] {
      SerialHandleAll(w, es[..|es| - 1]);
    }
  }

  lemma OutSession(w: World, e: Effects)
    ensures ApplyOut(w, e).session == w.session.(focused := ApplyOut(w, e).session.focused)
  {
  }

  /** A tick leaves the serial alone. */
  lemma SerialPipeline(w: World, s: Surroundings)
    requires SerialOk(w.session)
    ensures SerialOk(Pipeline(w, s).session)
  {
    var e := TickEffects(w, s.engine);
    var w1 := ApplyOut(w, e);
    OutSession(w, e);
    HardResetFrame(w1);
    ClearFrame(DestroyGrab(w1, e), e);
    var w2 := ApplyDestroy(w1, e);
    assert w2.session == w1.session;
    ApplyCreateFrame(w2, e, s.creation, s.now);
  }

  lemma SerialReconnect(w: World, r: Rebind)
    requires SerialOk(w.session)
    ensures SerialOk(Reconnect(w, r).session)
  {
  }

  lemma SerialIterate(w: World, it: Iteration)
    requires SerialOk(w.session)
    ensures SerialOk(Iterate(w, it).session)
  {
    SerialHandleAll(w.(facts := FreshFacts().(suspendGap := it.gap)), it.early);
    var w1 := BeforePoll(w, it);
    match it.poll {
      case FlushLost(r) => SerialReconnect(w1, r);
      case DisplayLost(es, r) =>
        SerialHandleAll(w1, es);
        SerialReconnect(HandleAll(w1, es), r);
      case Dispatch(es, _, s, _, _) =>
        SerialDispatch(w, it);
      case _ =>
    }
  }

  lemma SerialDispatch(w: World, it: Iteration)
    requires it.poll.Dispatch? && SerialOk(BeforePoll(w, it).session)
    ensures SerialOk(Pipeline(AtPipeline(w, it), it.poll.surroundings).session)
    ensures SerialOk(Iterate(w, it).session)
  {
    SerialHandleAll(BeforePoll(w, it), it.poll.events);
    SerialPipeline(AtPipeline(w, it), it.poll.surroundings);
    RestOfTick(Pipeline(AtPipeline(w, it), it.poll.surroundings), it.poll.keyRepeat, it.poll.checkedAt);
  }

  /** What follows the pipeline leaves the session alone. */
  lemma RestOfTick(w: World, keyRepeat: bool, at: nat)
    ensures HealthCheck(if keyRepeat then Handle(w, GrabModifiers) else w, at).session == w.session
  {
  }

  lemma {:induction false} SerialRun(w0: World, its: seq<Iteration>)
    requires Initial(w0)
    ensures SerialOk(Run(w0, its).session)
  {
    if its != [] {
      SerialRun(w0, its[..|its| - 1]);
      SerialIterate(Run(w0, its[..|its| - 1]), its[|its| - 1]);
    }
  }

  /** Whether a tick sends a commit, whose serial is `imSerial`. */
  predicate Commits(w: World, engine: bool) {
    Happens(TickEffects(w, engine), w.session, Committed)
  }

  lemma SerialAtPipeline(w0: World, its: seq<Iteration>, it: Iteration)
    requires Initial(w0) && it.poll.Dispatch?
    ensures SerialOk(AtPipeline(Run(w0, its), it).session)
  {
    SerialRun(w0, its);
    SerialHandleAll(Run(w0, its).(facts := FreshFacts().(suspendGap := it.gap)), it.early);
    SerialHandleAll(BeforePoll(Run(w0, its), it), it.poll.events);
  }

  lemma CommitNeedsSerial(w: World, engine: bool)
    ensures Commits(w, engine) ==> w.session.imSerial > 0
  {
  }

  /**
   A commit should carry the number of done events of the current input-method
   object, and none should be sent before its first.  Over every run both hold of
   a tick exactly when no done event came before the last reconnect.
   */
  lemma SerialRightIff(w0: World, its: seq<Iteration>, it: Iteration)
    requires Initial(w0) && it.poll.Dispatch?
    ensures var w := AtPipeline(Run(w0, its), it);
      && (w.session.imSerial == w.session.dones <==> w.session.former == 0)
      && (Commits(w, it.poll.surroundings.engine) && w.session.former == 0 ==> w.session.dones > 0)
  {
    SerialAtPipeline(w0, its, it);
    CommitNeedsSerial(AtPipeline(Run(w0, its), it), it.poll.surroundings.engine);
  }

  /** One done event and a reconnect: the new object starts with serial 1 and has seen none. */
  lemma SerialWrongExample(w0: World)
    requires Initial(w0)
    ensures var w := Iterate(w0, Iteration(false, [ImDone], FlushLost(Rebound)));
      w.running && w.vk.bound && w.session.imSerial == 1 && w.session.dones == 0
  {
    var w := w0.(facts := FreshFacts().(suspendGap := false));
    assert HandleAll(w, []) == w && [ImDone][..0] == [];
    assert HandleAll(w, [ImDone]) == Handle(w, ImDone);
  }
}
