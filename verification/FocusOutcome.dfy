/**
 What one tick and one iteration come to, told from the state before and after and
 from the events received: which steps a tick logs, which grab is wanted after an
 iteration, and when a new grab routes keys.
 */
module FocusOutcome {
  import opened FocusController
  import opened FocusLifecycle
  import opened FocusTheorems
  import opened FocusTicks

  // ---------------------------------------------------------------- the steps of a tick

  /** The place of a step in the contractual order. */
  function Rank(s: Step): nat {
    match s
    case Discarded => 0
    case FocusedOut => 1
    case GrabDestroyed => 2
    case PreeditCleared => 3
    case Committed => 4
    case GenerationScrubbed => 5
    case GrabCreated => 6
    case FocusedIn => 7
    case Reactivated => 8
  }

  predicate InOrder(part: seq<Step>) {
    forall i, j :: 0 <= i < j < |part| ==> Rank(part[i]) < Rank(part[j])
  }

  /** The field is left between two states. */
  predicate Leaves(w: World, w': World) {
    w.session.focused && !w'.session.focused
  }

  /** There is a grab, and a virtual keyboard behind it. */
  predicate HasGrab(w: World) {
    w.keyboard.present && w.vk.state != VkAbsent
  }

  /** A grab is given up because none is wanted any more. */
  predicate Drops(w: World, w': World) {
    HasGrab(w) && w'.prev.grab == WantNone
  }

  /** A broken grab is replaced. */
  predicate Replaces(w: World, w': World) {
    w.keyboard.present && w.vk.state == VkBroken && w'.prev.grab == Yes
  }

  /** A grab that is wanted, in use or paused, was missing or broken. */
  predicate Makes(w: World, w': World) {
    (w'.prev.grab != WantNone && !HasGrab(w)) || Replaces(w, w')
  }

  /** Exactly the right steps were logged between two states. */
  predicate Logged(w: World, w': World) {
    && w.log <= w'.log
    && PartOk(w, w', w'.log[|w.log|..])
  }

  predicate PartOk(w: World, w': World, part: seq<Step>) {
    var ends := Leaves(w, w') || Drops(w, w');
    && InOrder(part)
    && (Discarded in part <==> ends && w.session.present)
    && (FocusedOut in part <==> Leaves(w, w'))
    && (GrabDestroyed in part <==> Drops(w, w') || Replaces(w, w'))
    && (PreeditCleared in part <==> ends)
    && (Committed in part <==> ends && w.session.present && w.session.imSerial != 0)
    && (GenerationScrubbed in part <==> Drops(w, w') || Makes(w, w'))
    && (GrabCreated in part <==> Makes(w, w'))
    && (FocusedIn in part <==> !w.session.focused && w'.session.focused)
    && (Reactivated in part <==> w.session.focused && w'.session.focused && w.facts.doneHadActivate)
  }

  lemma {:induction false} StepsAre(e: Effects, s: Session, n: nat)
    requires n <= |ORDER|
    ensures InOrder(Steps(e, s, n))
    ensures forall step: Step :: step in Steps(e, s, n) <==> Rank(step) < n && Happens(e, s, step)
  {
    if n > 0 {
      StepsAre(e, s, n - 1);
      OrderIsRank(n - 1);
      assert forall step: Step :: Rank(step) == n - 1 <==> step == ORDER[n - 1];
    }
  }

  lemma OrderIsRank(i: nat)
    requires i < |ORDER|
    ensures Rank(ORDER[i]) == i
    ensures forall step: Step :: Rank(step) == i ==> step == ORDER[i]
  {
  }

  /** What the nine effects say of the grab that is wanted, before anything is done. */
  lemma EffectsAre(w: World, engine: bool)
    ensures var e := TickEffects(w, engine);
      var want := Reduce(w.facts.(enginePresent := engine), w.prev).grab;
      var drops := HasGrab(w) && want == WantNone;
      var mends := w.keyboard.present && w.vk.state == VkBroken && want == Yes;
      var makes := (want != WantNone && !HasGrab(w)) || mends;
      var ends := (w.prev.grab == Yes && want != Yes) || drops;
      && (e.discardComposition <==> ends) && (e.clearPreedit <==> ends) && (e.commit <==> ends)
      && (e.sendFocusOut <==> w.prev.grab == Yes && want != Yes)
      && (e.sendFocusIn <==> w.prev.grab != Yes && want == Yes)
      && (e.destroyGrab <==> drops || mends) && (e.createGrab <==> makes)
      && (e.scrubGeneration <==> drops || makes)
      && (e.reactivate <==> w.prev.grab == Yes && want == Yes && w.facts.doneHadActivate)
  {
  }

  /** Before and after a tick, focus is where the grab is wanted. */
  lemma FocusFollows(w: World, s: Surroundings)
    requires Ok(w)
    ensures var w' := Pipeline(w, s);
      && w'.prev.grab == Reduce(w.facts.(enginePresent := s.engine), w.prev).grab
      && (w.session.focused <==> w.prev.grab == Yes) && (w'.session.focused <==> w'.prev.grab == Yes)
      && (w.session.focused ==> w.session.present)
      && (w.prev.grab != Yes && w'.prev.grab == Yes ==> w.session.present)
  {
    PipelineKeeps(w, s);
    EffectsFit(w, s.engine);
  }

  /**
   What a tick does, step by step: it discards the composition before leaving the
   field, blanks and commits the preedit whenever it leaves the field or drops the
   grab, and otherwise does none of the three; every other step has its condition
   too, and all come in the contractual order.
   */
  lemma TickLog(w: World, s: Surroundings)
    requires Ok(w)
    ensures Logged(w, Pipeline(w, s))
  {
    var e := TickEffects(w, s.engine);
    var part := Steps(e, w.session, 9);
    EffectOrder(w, e, s.creation, s.now);
    StepsAre(e, w.session, 9);
    EffectsAre(w, s.engine);
    FocusFollows(w, s);
    StepsLogged(w, Pipeline(w, s), e, part);
    assert Pipeline(w, s).log == w.log + part;
    assert Pipeline(w, s).log[|w.log|..] == part;
  }

  lemma StepsLogged(w: World, w': World, e: Effects, part: seq<Step>)
    requires InOrder(part)
    requires forall step: Step :: step in part <==> Rank(step) < 9 && Happens(e, w.session, step)
    requires (w.session.focused <==> w.prev.grab == Yes) && (w'.session.focused <==> w'.prev.grab == Yes)
    requires (w.session.focused ==> w.session.present)
    requires w.prev.grab != Yes && w'.prev.grab == Yes ==> w.session.present
    requires var ends := Leaves(w, w') || Drops(w, w');
      && (e.discardComposition <==> ends) && (e.clearPreedit <==> ends) && (e.commit <==> ends)
      && (e.sendFocusOut <==> w.prev.grab == Yes && w'.prev.grab != Yes)
      && (e.sendFocusIn <==> w.prev.grab != Yes && w'.prev.grab == Yes)
      && (e.destroyGrab <==> Drops(w, w') || Replaces(w, w')) && (e.createGrab <==> Makes(w, w'))
      && (e.scrubGeneration <==> Drops(w, w') || Makes(w, w'))
      && (e.reactivate <==> w.prev.grab == Yes && w'.prev.grab == Yes && w.facts.doneHadActivate)
    ensures PartOk(w, w', part)
  {
  }

  // ---------------------------------------------------------------- the grab wanted after an iteration

  /** Whether there is a session, and how many `done` events it saw since the last deactivation, if any. */
  function DonesSinceDeactivate(session: bool, es: seq<Event>): Seen {
    if es == [] then Seen(session, Never)
    else
      var before := DonesSinceDeactivate(session, es[..|es| - 1]);
      match es[|es| - 1]
      case ImActivate(created) => before.(session := before.session || created)
      case ImDeactivate => before.(count := Times(0))
      case ImDone =>
        if before.session && before.count.Times? then before.(count := Times(before.count.n + 1)) else before
      case _ => before
  }

  /** A deactivation is visible to the controller until a second `done` with a session has followed it. */
  predicate DeactivationStands(session: bool, es: seq<Event>) {
    var d := DonesSinceDeactivate(session, es).count;
    d.Times? && d.n <= 1
  }

  /** What the facts say of deactivations after some events that started without any. */
  predicate DeactivationsTold(w: World, seen: Seen) {
    && w.session.present == seen.session
    && (w.facts.deactivateSeen <==> seen.count == Times(0))
    && (w.facts.doneHadDeactivate && !w.facts.deactivateSeen <==> seen.count == Times(1))
  }

  lemma {:induction false} FactsCountDeactivations(w: World, es: seq<Event>)
    requires !w.facts.deactivateSeen && !w.facts.doneHadDeactivate
    ensures DeactivationsTold(HandleAll(w, es), DonesSinceDeactivate(w.session.present, es))
  {
    if es != [] {
      FactsCountDeactivations(w, es[..|es| - 1]);
      DeactivationStep(HandleAll(w, es[..|es| - 1]), es[|es| - 1]);
    }
  }

  lemma DeactivationStep(w: World, e: Event)
    ensures var w' := Handle(w, e);
      var done := e.ImDone? && w.session.present;
      && w'.session.present == (w.session.present || (e.ImActivate? && e.sessionCreated))
      && w'.facts.deactivateSeen == (e.ImDeactivate? || (!done && w.facts.deactivateSeen))
      && w'.facts.doneHadDeactivate == (if done then w.facts.deactivateSeen else w.facts.doneHadDeactivate)
  {
  }

  /** The grab wanted after an iteration, told from its events. */
  function WantedAfter(session: bool, prev: Want, it: Iteration): Want {
    if !it.poll.Dispatch? then prev
    else
      var es := it.early + it.poll.events;
      if it.gap || it.poll.gap then WantNone
      else if ActivationStands(session, es) then (if it.poll.surroundings.engine then Yes else WantNone)
      else if DeactivationStands(session, es) then SoftPause
      else prev
  }

  lemma FactsAtTick(w: World, it: Iteration)
    requires it.poll.Dispatch?
    ensures var f := AtPipeline(w, it).facts;
      var es := it.early + it.poll.events;
      && (f.activateSeen || f.doneHadActivate <==> ActivationStands(w.session.present, es))
      && (f.deactivateSeen || f.doneHadDeactivate <==> DeactivationStands(w.session.present, es))
      && f.connectionAlive && f.suspendGap == (it.gap || it.poll.gap) && AtPipeline(w, it).prev == w.prev
  {
    var w0 := w.(facts := FreshFacts().(suspendGap := it.gap));
    var es := it.early + it.poll.events;
    HandleAllAppend(w0, it.early, it.poll.events);
    HandleAllFrame(w0, es);
    FactsCountDones(w0, es);
    FactsCountDeactivations(w0, es);
  }

  /**
   Which grab is wanted after an iteration, for every state and all events: a resume
   gap wants none, a standing activation one if there is an engine, a standing
   deactivation a pause, and anything else changes nothing; nor does an iteration
   whose wait delivered nothing.
   */
  lemma WantedAfterIteration(w: World, it: Iteration)
    ensures Iterate(w, it).prev.grab == WantedAfter(w.session.present, w.prev.grab, it)
  {
    HandleAllFrame(w.(facts := FreshFacts().(suspendGap := it.gap)), it.early);
    var w1 := BeforePoll(w, it);
    if it.poll.DisplayLost? {
      HandleAllFrame(w1, it.poll.events);
    }
    if it.poll.Dispatch? {
      FactsAtTick(w, it);
      HandleFrame(Pipeline(AtPipeline(w, it), it.poll.surroundings), GrabModifiers);
    }
  }

  /** A focused field is left for a pause exactly when a deactivation stands, but no activation and no gap. */
  lemma DeactivationTakesEffectIff(w: World, it: Iteration)
    requires w.prev.grab == Yes
    ensures Iterate(w, it).prev.grab == SoftPause <==>
      && it.poll.Dispatch? && !it.gap && !it.poll.gap
      && DeactivationStands(w.session.present, it.early + it.poll.events)
      && !ActivationStands(w.session.present, it.early + it.poll.events)
  {
    WantedAfterIteration(w, it);
  }

  // ---------------------------------------------------------------- what the wait brings

  /** A grab has waited for its keymap until its deadline. */
  predicate Overdue(w: World, at: nat) {
    w.keyboard.present && w.keyboard.grab && w.vk.state == VkNeedsKeymap && 0 < w.vk.deadline <= at
  }

  /** A grab whose keymap could not be passed on. */
  predicate BrokenGrab(w: World) {
    w.keyboard.present && w.keyboard.grab && w.vk.state == VkBroken
  }

  lemma HealthCheckMeans(w: World, at: nat)
    ensures HealthCheck(w, at).running <==> w.running && !Overdue(w, at)
    ensures HealthCheck(w, at).running ==> HealthCheck(w, at) == w
  {
  }

  /** A key repeat, like any forwarded event, stops the daemon if the grab is broken, and leaves a good grab alone. */
  lemma RepeatMeans(w: World)
    ensures var w' := Handle(w, GrabModifiers);
      && (w'.running <==> w.running && !BrokenGrab(w))
      && (w'.running ==> w'.keyboard == w.keyboard && !BrokenGrab(w'))
  {
  }

  /**
   While the daemon runs on, no grab outlives its deadline: every wait that ends
   without a lost connection ends with a look at the clock, and what is found overdue
   then, or broken at a key repeat, stops the daemon; nothing else does at that point.
   */
  lemma NoneOverdue(w: World, it: Iteration)
    requires it.poll.Timeout? || it.poll.Dispatch?
    ensures var w' := Iterate(w, it);
      && (w'.running ==> !Overdue(w', it.poll.checkedAt))
      && (it.poll.Timeout? ==>
            (w'.running <==> BeforePoll(w, it).running && !Overdue(BeforePoll(w, it), it.poll.checkedAt)))
      && (it.poll.Dispatch? && it.poll.keyRepeat && w'.running ==> !BrokenGrab(w'))
      && (it.poll.Dispatch? && !it.poll.keyRepeat ==>
            var ticked := Pipeline(AtPipeline(w, it), it.poll.surroundings);
            w'.running <==> ticked.running && !Overdue(ticked, it.poll.checkedAt))
  {
    if it.poll.Timeout? {
      HealthCheckMeans(BeforePoll(w, it), it.poll.checkedAt);
    } else {
      var ticked := Pipeline(AtPipeline(w, it), it.poll.surroundings);
      RepeatMeans(ticked);
      HealthCheckMeans(if it.poll.keyRepeat then Handle(ticked, GrabModifiers) else ticked, it.poll.checkedAt);
    }
  }

  /** An interrupted wait changes nothing, and any other failure of it stops the daemon. */
  lemma FailedWait(w: World, it: Iteration)
    requires it.poll.Interrupted? || it.poll.PollError?
    ensures var w1 := BeforePoll(w, it);
      Iterate(w, it) == if it.poll.Interrupted? then w1 else w1.(running := false)
  {
  }

  /** The events that were dispatched before the connection was lost. */
  function DispatchedBefore(it: Iteration): seq<Event> {
    it.early + (if it.poll.DisplayLost? then it.poll.events else [])
  }

  /** After a lost connection: no grab, no tracked key, a new generation, perhaps a new virtual keyboard. */
  predicate Fenced(w: World, w': World, r: Rebind) {
    && !w'.keyboard.present && !w'.keyboard.armed
    && w'.tracker.keys == NoKeys() && w'.tracker.bumps == w.tracker.bumps + 1
    && w'.session.dones == 0 && (w'.running ==> r != GaveUp && (w'.vk.bound <==> r == Rebound))
  }

  /** A connection lost while flushing or dispatching is given up cleanly, whatever came before. */
  lemma LossFences(w: World, it: Iteration)
    requires it.poll.FlushLost? || it.poll.DisplayLost?
    ensures var w' := Iterate(w, it);
      && Fenced(w, w', it.poll.rebind)
      && w'.session.imSerial == w.session.imSerial + Dones(DispatchedBefore(it))
      && (it.poll.rebind == GaveUp || ImUnavailable in DispatchedBefore(it) || !w.running ==> !w'.running)
  {
    var w0 := w.(facts := FreshFacts().(suspendGap := it.gap));
    var es := DispatchedBefore(it);
    EventsCount(w0, es);
    HandleAllFrame(w0, es);
    if it.poll.DisplayLost? {
      HandleAllAppend(w0, it.early, it.poll.events);
    } else {
      assert es == it.early;
    }
    ReconnectFences(HandleAll(w0, es), it.poll.rebind);
  }

  lemma ReconnectFences(w: World, r: Rebind)
    ensures Fenced(w, Reconnect(w, r), r)
    ensures Reconnect(w, r).session.imSerial == w.session.imSerial
    ensures Reconnect(w, r).running == (w.running && r != GaveUp)
  {
  }

  // ---------------------------------------------------------------- keys let go

  /** A key whose press the application has seen. */
  predicate Pressed(w: World, k: nat) {
    k < |w.tracker.keys|
    && (w.tracker.keys[k] == Forwarded || w.tracker.keys[k] == BasicPassthrough || w.tracker.keys[k] == AppShortcut)
  }

  /**
   A tick that leaves the field or gives up the grab sends one release for each key
   whose press the application has seen, and every other tick sends none.
   */
  lemma KeysLetGo(w: World, s: Surroundings)
    requires Ok(w)
    ensures var w' := Pipeline(w, s);
      var lets := w.keyboard.present && w.vk.bound && (w.vk.state == VkReady || w.vk.state == VkNeedsKeymap)
                  && (Leaves(w, w') || Drops(w, w'));
      && w.released <= w'.released
      && var part := w'.released[|w.released|..];
         && (forall k: nat :: k in part <==> lets && Pressed(w, k))
         && (forall i, j :: 0 <= i < j < |part| ==> part[i] < part[j])
  {
    TickReleasesHeldKeysOnce(w, s);
    EffectsAre(w, s.engine);
    FocusFollows(w, s);
    var due := if TickEffects(w, s.engine).sendFocusOut || TickEffects(w, s.engine).destroyGrab then Due(w) else [];
    assert Pipeline(w, s).released == w.released + due;
    assert Pipeline(w, s).released[|w.released|..] == due;
    PressedAreHeld(w);
  }

  lemma PressedAreHeld(w: World)
    ensures forall k: nat :: k in HeldKeys(w.tracker.keys) <==> Pressed(w, k)
  {
  }

  // ---------------------------------------------------------------- events

  /** How many of the events are of one kind. */
  function Dones(es: seq<Event>): nat {
    if es == [] then 0 else Dones(es[..|es| - 1]) + (if es[|es| - 1].ImDone? then 1 else 0)
  }

  /** Every done event counts for the serial, and an unavailable input method stops the daemon for good. */
  lemma {:induction false} EventsCount(w: World, es: seq<Event>)
    ensures var w' := HandleAll(w, es);
      && w'.session.imSerial == w.session.imSerial + Dones(es) && w'.session.dones == w.session.dones + Dones(es)
      && (ImUnavailable in es || !w.running ==> !w'.running)
  {
    if es != [] {
      EventsCount(w, es[..|es| - 1]);
      assert ImUnavailable in es ==> ImUnavailable in es[..|es| - 1] || es[|es| - 1] == ImUnavailable;
    }
  }

  /** The emergency exit gives up the grab and stops the daemon; without a grab it is not seen. */
  lemma EmergencyExitStops(w: World)
    ensures var w' := Handle(w, EmergencyExit);
      if w.keyboard.present && w.keyboard.grab then !w'.running && !w'.keyboard.grab else w' == w
  {
  }

  /** A routed key is tracked exactly while the context is focused and the grab's keymap is there. */
  lemma KeyTrackedIff(w: World, k: nat, outcome: KeyState)
    requires k < |w.tracker.keys|
    ensures var w' := Handle(w, GrabKey(k, outcome));
      var routed := w.keyboard.present && w.keyboard.grab && w.vk.state == VkReady
                    && w.session.present && w.session.focused;
      && w' == w.(tracker := w.tracker.(keys := w'.tracker.keys))
      && w'.tracker.keys == if routed then w.tracker.keys[k := outcome] else w.tracker.keys
  {
  }

  /**
   The way into a field: after a tick with an activation, an engine and a grab that
   could be made, the context is focused and the grab is there; its keymap makes the
   virtual keyboard ready; and from then on keys are routed.
   */
  lemma ActivationRoutesKeys(w: World, s: Surroundings, k: nat, outcome: KeyState)
    requires Ok(w) && w.vk.bound && s.engine && s.creation == Created && k < MAX_KEYS
    requires w.facts.connectionAlive && !w.facts.suspendGap && (w.facts.activateSeen || w.facts.doneHadActivate)
    requires w.keyboard.present ==> w.keyboard.grab
    ensures var entered := Pipeline(w, s);
      var mapped := Handle(entered, GrabKeymap(true));
      && entered.session.focused && entered.keyboard.present && entered.keyboard.grab && entered.vk.bound
      && mapped.vk.state == VkReady && mapped.vk.hasKeymap && HasCurrentKeymap(mapped.vk, mapped.tracker)
      && mapped.running == entered.running
      && k < |mapped.tracker.keys| && Handle(mapped, GrabKey(k, outcome)).tracker.keys[k] == outcome
  {
    PipelineKeeps(w, s);
    GenerationClosedForm(w.tracker.bumps);
    GrabAfter(w, s);
    KeyTrackedIff(Handle(Pipeline(w, s), GrabKeymap(true)), k, outcome);
  }

  /** A tick leaves a grab where it makes one or keeps one, and then there is a generation. */
  lemma GrabAfter(w: World, s: Surroundings)
    requires Ok(w) && w.vk.bound && s.creation == Created && TickEffects(w, s.engine).sendFocusOut == false
    requires w.keyboard.present ==> w.keyboard.grab && w.tracker.generation != 0
    requires Reduce(w.facts.(enginePresent := s.engine), w.prev).grab == Yes
    ensures var w' := Pipeline(w, s);
      w'.keyboard.present && w'.keyboard.grab && w'.vk.bound && w'.tracker.generation != 0
  {
  }
}
