/**
 What the focus lifecycle guarantees over every run: the keymap fence, the
 alternation of focus events, convergence of one tick, the order of effects and
 the release of held keys.
 */
module FocusTheorems {
  import opened FocusController
  import opened FocusLifecycle

  // ---------------------------------------------------------------- generations

  /** The counter in closed form. */
  lemma {:induction false} GenerationClosedForm(n: nat)
    ensures Generation(n) == if n == 0 then 0 else (n - 1) % GENERATIONS + 1
  {
    if n > 1 {
      GenerationClosedForm(n - 1);
      var k, r := (n - 2) / GENERATIONS, (n - 2) % GENERATIONS;
      assert n - 2 == k * GENERATIONS + r;
      if r == GENERATIONS - 1 {
        assert n - 1 == (k + 1) * GENERATIONS;
        assert (n - 1) % GENERATIONS == 0;
      } else {
        assert n - 1 == k * GENERATIONS + (r + 1);
        assert (n - 1) % GENERATIONS == r + 1;
      }
    }
  }

  lemma MultipleIff(q: int, d: int)
    requires 0 < d + GENERATIONS && d < GENERATIONS
    ensures (q * GENERATIONS + d) % GENERATIONS == 0 <==> d == 0
  {
    if d < 0 {
      assert q * GENERATIONS + d == (q - 1) * GENERATIONS + (d + GENERATIONS);
    }
  }

  /** The position of a moment in its cycle of the counter. */
  lemma Cycle(n: nat) returns (q: nat)
    requires n > 0
    ensures 1 <= Generation(n) <= GENERATIONS && n == q * GENERATIONS + Generation(n)
  {
    GenerationClosedForm(n);
    q := (n - 1) / GENERATIONS;
  }

  /** Two moments share a generation exactly when they are a multiple of 2^32 - 1 advances apart. */
  lemma GenerationsCollide(a: nat, b: nat)
    requires 0 < a <= b
    ensures Generation(a) == Generation(b) <==> (b - a) % GENERATIONS == 0
  {
    var p := Cycle(a);
    var q := Cycle(b);
    var d := Generation(b) - Generation(a);
    assert b - a == (q - p) * GENERATIONS + d;
    MultipleIff(q - p, d);
  }

  /** Within one cycle of the counter, the keymap counts as current exactly when no advance came after it. */
  lemma CurrentMeansNow(vk: VirtualKeyboard, t: Tracker)
    requires GenerationsOk(vk, t) && NoWrap(t)
    ensures HasCurrentKeymap(vk, t) <==> vk.keymapAt == t.bumps > 0
  {
    GenerationClosedForm(t.bumps);
    GenerationClosedForm(vk.keymapAt);
  }

  // ---------------------------------------------------------------- the invariant

  /** Focus events in the log alternate, beginning with an entry. */
  predicate Alternates(log: seq<Step>) {
    log == [] ||
    var n := |log| - 1;
    && Alternates(log[..n])
    && (log[n] == FocusedIn ==> !FocusedAfter(log[..n]))
    && (log[n] == FocusedOut ==> FocusedAfter(log[..n]))
  }

  /** Whether the last focus event in the log is an entry. */
  predicate FocusedAfter(log: seq<Step>) {
    log != [] &&
    var n := |log| - 1;
    log[n] == FocusedIn || (log[n] != FocusedOut && FocusedAfter(log[..n]))
  }

  predicate FocusOk(w: World) {
    && (w.session.focused <==> w.prev.grab == Yes)
    && (w.facts.activateSeen || w.facts.doneHadActivate ==> w.session.present)
    && LogOk(w.session, w.log)
  }

  predicate LogOk(s: Session, log: seq<Step>) {
    (s.focused ==> s.present) && Alternates(log) && FocusedAfter(log) == s.focused
  }

  predicate GenerationsOk(vk: VirtualKeyboard, t: Tracker) {
    && t.generation == Generation(t.bumps)
    && vk.keymapGeneration == Generation(vk.keymapAt)
    && vk.keymapAt <= t.bumps
  }

  /** While a keyboard exists its generation stands still, READY means a keymap of this grab, waiting means none yet. */
  predicate FenceOk(k: Keyboard, vk: VirtualKeyboard, t: Tracker) {
    && (k.grab ==> k.present)
    && (k.present ==>
          && t.bumps == k.grabAt > 0
          && (NoWrap(t) && vk.state == VkReady ==> vk.keymapAt == k.grabAt)
          && (vk.state == VkNeedsKeymap ==> vk.keymapAt < k.grabAt && vk.deadline > 0))
  }

  /** A virtual keyboard object is never in the state ABSENT; without one the state is ABSENT or BROKEN. */
  predicate VkSane(vk: VirtualKeyboard) {
    if vk.bound then vk.state != VkAbsent else vk.state == VkAbsent || vk.state == VkBroken
  }

  predicate ResourcesOk(w: World) {
    && GenerationsOk(w.vk, w.tracker) && VkSane(w.vk) && |w.tracker.keys| == MAX_KEYS
    && FenceOk(w.keyboard, w.vk, w.tracker)
  }

  predicate Ok(w: World) {
    FocusOk(w) && ResourcesOk(w)
  }

  /** No more generations than the counter can tell apart. */
  predicate NoWrap(t: Tracker) {
    t.bumps < GENERATIONS
  }

  lemma Snoc<T>(s: seq<T>, x: T)
    ensures (s + [x])[..|s + [x]| - 1] == s
  {
  }

  lemma LogStep(log: seq<Step>, s: Step)
    requires Alternates(log)
    requires s == FocusedIn ==> !FocusedAfter(log)
    requires s == FocusedOut ==> FocusedAfter(log)
    ensures Alternates(log + [s])
    ensures FocusedAfter(log + [s]) == (s == FocusedIn || (s != FocusedOut && FocusedAfter(log)))
  {
    Snoc(log, s);
  }

  // ---------------------------------------------------------------- events keep it

  lemma TryReadyKeeps(w: World)
    requires ResourcesOk(w)
    ensures ResourcesOk(w.(vk := TryReady(w.vk, w.tracker)))
  {
    if NoWrap(w.tracker) {
      CurrentMeansNow(w.vk, w.tracker);
    }
  }

  lemma CheckReadyKeeps(w: World)
    requires ResourcesOk(w)
    ensures ResourcesOk(CheckReady(w))
  {
    TryReadyKeeps(w);
  }

  lemma HandleKeeps(w: World, e: Event)
    requires Ok(w)
    ensures Ok(Handle(w, e))
  {
    if e.GrabModifiers? {
      CheckReadyKeeps(w);
    }
  }

  lemma HandleFrame(w: World, e: Event)
    ensures Handle(w, e).tracker.bumps == w.tracker.bumps && Handle(w, e).log == w.log && Handle(w, e).prev == w.prev
  {
  }

  lemma {:induction false} HandleAllFrame(w: World, es: seq<Event>)
    ensures var w' := HandleAll(w, es);
      w'.tracker.bumps == w.tracker.bumps && w'.log == w.log && w'.prev == w.prev
  {
    if es != [] {
      HandleAllFrame(w, es[..|es| - 1]);
      HandleFrame(HandleAll(w, es[..|es| - 1]), es[|es| - 1]);
    }
  }

  lemma {:induction false} HandleAllKeeps(w: World, es: seq<Event>)
    requires Ok(w)
    ensures Ok(HandleAll(w, es))
  {
    if es != [] {
      HandleAllKeeps(w, es[..|es| - 1]);
      HandleKeeps(HandleAll(w, es[..|es| - 1]), es[|es| - 1]);
    }
  }

  // ---------------------------------------------------------------- a tick keeps it

  /** Everything but the agreement of focus and desired state, which holds again at the end of a tick. */
  predicate MidTick(w: World) {
    ResourcesOk(w) && LogOk(w.session, w.log)
  }

  lemma ReleaseKeeps(w: World)
    requires ResourcesOk(w)
    ensures ResourcesOk(ReleaseForwardedKeys(w))
  {
  }

  lemma DestroyKeeps(w: World)
    requires ResourcesOk(w)
    ensures ResourcesOk(KeyboardDestroy(w))
  {
    ReleaseKeeps(w);
  }

  lemma HardResetKeeps(w: World)
    requires ResourcesOk(w)
    ensures var w' := HardReset(w);
      && ResourcesOk(w') && !w'.keyboard.present
      && w'.session == w.session && w'.facts == w.facts && w'.log == w.log && w'.vk.bound == w.vk.bound
      && w'.tracker.bumps == w.tracker.bumps
  {
    ReleaseKeeps(w);
    DestroyKeeps(ReleaseForwardedKeys(w));
    var w1 := if w.keyboard.present then KeyboardDestroy(ReleaseForwardedKeys(w)) else w;
    CheckReadyKeeps(w1.(vk := CancelKeymapWait(w1.vk, w1.tracker)));
  }

  lemma ApplyOutKeeps(w: World, e: Effects)
    requires MidTick(w) && (e.sendFocusOut ==> w.session.focused)
    ensures var w' := ApplyOut(w, e);
      && MidTick(w') && w'.session == w.session.(focused := w.session.focused && !e.sendFocusOut)
      && w'.keyboard == w.keyboard && w'.facts == w.facts && w'.vk == w.vk && w'.tracker.bumps == w.tracker.bumps
  {
    LogStep(w.log, Discarded);
    var w1 := if e.discardComposition && w.session.present then Log(w, Discarded) else w;
    if e.sendFocusOut {
      LogStep(w1.log, FocusedOut);
      ReleaseKeeps(Log(w1.(session := w1.session.(focused := false)), FocusedOut));
    }
  }

  /** Logging a step that is no focus event. */
  lemma PlainStep(w: World, s: Step)
    requires MidTick(w) && s != FocusedIn && s != FocusedOut
    ensures MidTick(Log(w, s))
  {
    LogStep(w.log, s);
  }

  lemma ApplyDestroyKeeps(w: World, e: Effects)
    requires MidTick(w)
    ensures var w' := ApplyDestroy(w, e);
      && MidTick(w') && w'.session == w.session && w'.facts == w.facts && w'.vk.bound == w.vk.bound
      && w'.tracker.bumps == w.tracker.bumps
      && (if e.destroyGrab then !w'.keyboard.present else w'.keyboard == w.keyboard && w'.vk == w.vk)
  {
    HardResetKeeps(w);
    PlainStep(if e.destroyGrab then HardReset(w) else w, GrabDestroyed);
    var w1 := DestroyGrab(w, e);
    PlainStep(w1, PreeditCleared);
    PlainStep(if e.clearPreedit then Log(w1, PreeditCleared) else w1, Committed);
  }

  lemma BumpKeeps(w: World)
    requires ResourcesOk(w) && !w.keyboard.present
    ensures ResourcesOk(w.(tracker := Bump(w.tracker)))
  {
  }

  /** A new grab may replace a keyboard that was never destroyed: then the virtual keyboard is missing. */
  lemma CreateKeeps(w: World, c: Creation, now: nat)
    requires GenerationsOk(w.vk, w.tracker) && VkSane(w.vk) && |w.tracker.keys| == MAX_KEYS
    ensures ResourcesOk(CreateAndWait(w, c, now))
  {
  }

  lemma ApplyCreateKeeps(w: World, e: Effects, c: Creation, now: nat)
    requires MidTick(w) && (e.scrubGeneration ==> !w.keyboard.present || e.createGrab)
    ensures MidTick(ApplyCreate(w, e, c, now))
  {
    var w0 := w.(tracker := Bump(w.tracker));
    var w1 := if e.scrubGeneration then Log(w0, GenerationScrubbed) else w;
    LogStep(w.log, GenerationScrubbed);
    if e.createGrab {
      CreateKeeps(w1, c, now);
      PlainStep(CreateAndWait(w1, c, now), GrabCreated);
    } else if e.scrubGeneration {
      BumpKeeps(w);
    }
  }

  lemma ApplyCreateFrame(w: World, e: Effects, c: Creation, now: nat)
    ensures var w' := ApplyCreate(w, e, c, now);
      && w'.session == w.session && w'.facts == w.facts && w'.tracker.bumps >= w.tracker.bumps
      && w'.running == w.running
      && w'.keyboard.present == (if e.createGrab then c == Created else w.keyboard.present)
      && w'.vk.state == (if e.createGrab && w.vk.bound then VkNeedsKeymap else w.vk.state)
  {
  }

  lemma ApplyInKeeps(w: World, e: Effects)
    requires MidTick(w) && (e.sendFocusIn ==> w.session.present && !w.session.focused)
    ensures var w' := ApplyIn(w, e);
      && MidTick(w') && w'.session == w.session.(focused := w.session.focused || e.sendFocusIn)
      && w'.keyboard == w.keyboard && w'.vk == w.vk && w'.tracker == w.tracker && w'.facts == w.facts
  {
    if e.sendFocusIn {
      LogStep(w.log, FocusedIn);
    }
    var w1 := if e.sendFocusIn then Log(w.(session := w.session.(focused := true)), FocusedIn) else w;
    LogStep(w1.log, Reactivated);
  }

  lemma ApplyKeeps(w: World, e: Effects, c: Creation, now: nat)
    requires MidTick(w)
    requires e.sendFocusOut ==> w.session.focused
    requires e.sendFocusIn ==> w.session.present && !w.session.focused
    requires e.scrubGeneration ==> !w.keyboard.present || e.destroyGrab || e.createGrab
    ensures var w' := Apply(w, e, c, now);
      && MidTick(w') && w'.facts == w.facts && w'.tracker.bumps >= w.tracker.bumps
      && w'.session == w.session.(focused := (w.session.focused && !e.sendFocusOut) || e.sendFocusIn)
      && w'.keyboard.present == (if e.createGrab then c == Created else w.keyboard.present && !e.destroyGrab)
      && (e.createGrab && w.vk.bound ==> w'.vk.state == VkNeedsKeymap)
      && (!(e.createGrab && w.vk.bound) && !e.destroyGrab ==> w'.vk.state == w.vk.state)
  {
    ApplyOutKeeps(w, e);
    var w1 := ApplyOut(w, e);
    ApplyDestroyKeeps(w1, e);
    var w2 := ApplyDestroy(w1, e);
    ApplyCreateKeeps(w2, e, c, now);
    ApplyCreateFrame(w2, e, c, now);
    var w3 := ApplyCreate(w2, e, c, now);
    ApplyInKeeps(w3, e);
  }

  /** What a tick's effects ask of the state they are applied to. */
  lemma EffectsFit(w: World, engine: bool)
    requires Ok(w)
    ensures var e := TickEffects(w, engine);
      var d := Reduce(w.facts.(enginePresent := engine), w.prev);
      && (e.sendFocusOut ==> w.session.focused)
      && (e.sendFocusIn ==> w.session.present && !w.session.focused)
      && (e.scrubGeneration ==> !w.keyboard.present || e.destroyGrab || e.createGrab)
      && (d.grab == Yes <==> (w.session.focused && !e.sendFocusOut) || e.sendFocusIn)
  {
  }

  /** A whole tick: the invariant holds again, and focus is where the desired state says. */
  lemma PipelineKeeps(w: World, s: Surroundings)
    requires Ok(w)
    ensures Ok(Pipeline(w, s))
  {
    EffectsFit(w, s.engine);
    ApplyKeeps(w, TickEffects(w, s.engine), s.creation, s.now);
  }

  // ---------------------------------------------------------------- every iteration keeps it

  lemma ReconnectKeeps(w: World, r: Rebind)
    requires Ok(w)
    ensures Ok(Reconnect(w, r)) && !Reconnect(w, r).keyboard.present
  {
    DisconnectKeeps(w);
  }

  /** The disconnected baseline keeps the invariant, but its virtual keyboard is unbound. */
  lemma DisconnectKeeps(w: World)
    requires Ok(w)
    ensures var w' := Disconnect(w);
      && FocusOk(w') && !w'.keyboard.present && !w'.vk.bound && GenerationsOk(w'.vk, w'.tracker)
      && |w'.tracker.keys| == MAX_KEYS
  {
    DestroyKeeps(w.(keyboard := w.keyboard.(armed := false)));
  }

  lemma HealthCheckKeeps(w: World, now: nat)
    requires Ok(w)
    ensures Ok(HealthCheck(w, now))
  {
  }

  lemma BeforePollKeeps(w: World, it: Iteration)
    requires Ok(w)
    ensures Ok(BeforePoll(w, it)) && BeforePoll(w, it).tracker.bumps == w.tracker.bumps
  {
    var w0 := w.(facts := FreshFacts().(suspendGap := it.gap));
    HandleAllKeeps(w0, it.early);
    HandleAllFrame(w0, it.early);
  }

  /** The state in which the pipeline of an iteration runs. */
  function AtPipeline(w: World, it: Iteration): World
    requires it.poll.Dispatch?
  {
    var w2 := HandleAll(BeforePoll(w, it), it.poll.events);
    if it.poll.gap then w2.(facts := w2.facts.(suspendGap := true)) else w2
  }

  lemma AtPipelineKeeps(w: World, it: Iteration)
    requires it.poll.Dispatch? && Ok(w)
    ensures Ok(AtPipeline(w, it))
  {
    BeforePollKeeps(w, it);
    HandleAllKeeps(BeforePoll(w, it), it.poll.events);
  }

  lemma AfterPipelineKeeps(w: World, keyRepeat: bool, at: nat)
    requires Ok(w)
    ensures Ok(HealthCheck(if keyRepeat then Handle(w, GrabModifiers) else w, at))
  {
    HandleKeeps(w, GrabModifiers);
    HealthCheckKeeps(if keyRepeat then Handle(w, GrabModifiers) else w, at);
  }

  lemma IterateKeeps(w: World, it: Iteration)
    requires Ok(w)
    ensures Ok(Iterate(w, it))
  {
    BeforePollKeeps(w, it);
    var w1 := BeforePoll(w, it);
    match it.poll {
      case FlushLost(r) => ReconnectKeeps(w1, r);
      case Timeout(at) => HealthCheckKeeps(w1, at);
      case DisplayLost(es, r) =>
        HandleAllKeeps(w1, es);
        ReconnectKeeps(HandleAll(w1, es), r);
      case Dispatch(_, _, s, keyRepeat, at) =>
        AtPipelineKeeps(w, it);
        PipelineKeeps(AtPipeline(w, it), s);
        AfterPipelineKeeps(Pipeline(AtPipeline(w, it), s), keyRepeat, at);
      case _ =>
    }
  }

  lemma {:induction false} RunKeeps(w: World, its: seq<Iteration>)
    requires Initial(w)
    ensures Ok(Run(w, its))
  {
    if its != [] {
      var before := its[..|its| - 1];
      RunKeeps(w, before);
      IterateKeeps(Run(w, before), its[|its| - 1]);
    }
  }

  // ---------------------------------------------------------------- main results

  /** A point of a run: some iterations, and within the next one the facts cleared and some events handled. */
  function Point(w: World, its: seq<Iteration>, gap: bool, events: seq<Event>): World {
    HandleAll(Run(w, its).(facts := FreshFacts().(suspendGap := gap)), events)
  }

  /**
   The keymap fence.  At every point of every run with fewer than 2^32 - 1 key
   generations: if a keyboard exists and the virtual keyboard is ready, the
   keymap is of the active generation and arrived after this grab was created,
   so keys are never routed on a previous grab's keymap; and a grab that waits
   for its keymap always has a deadline.
   */
  lemma KeymapFence(w0: World, its: seq<Iteration>, gap: bool, events: seq<Event>)
    requires Initial(w0) && NoWrap(Run(w0, its).tracker)
    ensures var w := Point(w0, its, gap, events);
      && (w.keyboard.present && w.vk.state == VkReady ==>
            w.vk.keymapGeneration == w.tracker.generation && w.vk.keymapAt == w.keyboard.grabAt == w.tracker.bumps)
      && (CanRouteKeys(Observe(w)) ==> w.keyboard.present && w.vk.keymapAt == w.keyboard.grabAt)
      && (w.keyboard.present && w.vk.state == VkNeedsKeymap ==> w.vk.deadline > 0 && !HasCurrentKeymap(w.vk, w.tracker))
  {
    RunKeeps(w0, its);
    BeforePollKeeps(Run(w0, its), Iteration(gap, events, Interrupted));
    var w := Point(w0, its, gap, events);
    CurrentMeansNow(w.vk, w.tracker);
  }

  /**
   Focus entries and exits strictly alternate over any run, skipped ticks included,
   and focus is where the desired state says.
   */
  lemma FocusAlternates(w0: World, its: seq<Iteration>)
    requires Initial(w0)
    ensures var w := Run(w0, its);
      && Alternates(w.log) && FocusedAfter(w.log) == w.session.focused
      && (w.session.present && w.session.focused <==> w.prev.grab == Yes)
  {
    RunKeeps(w0, its);
  }
}
