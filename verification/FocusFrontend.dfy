/**
 The focus lifecycle in place: the key tracker, the virtual keyboard and the
 frontend are objects whose methods update their fields.  Each method is proved
 to do to the objects what its counterpart in FocusLifecycle.dfy does to the
 state, so the theorems there hold of the running event loop.
 */
module FocusFrontend {
  import opened FocusController
  import opened L = FocusLifecycle
  import T = FocusTheorems
  import K = FocusTicks
  import O = FocusOutcome

  /** src/wayland/keyboard/policy/tracker.c and the generation counter beside it. */
  class KeyTracker {
    const states: array<KeyState>
    var generation: nat
    ghost var bumps: nat

    ghost predicate Valid()
      reads this
    {
      states.Length == MAX_KEYS && generation <= GENERATIONS
    }

    ghost function View(): Tracker
      reads this, states
    {
      Tracker(generation, states[..], bumps)
    }

    constructor ()
      ensures Valid() && fresh(states) && View() == Tracker(0, NoKeys(), 0)
    {
      states := new KeyState[MAX_KEYS](_ => Idle);
      generation := 0;
      bumps := 0;
      new;
      assert states[..] == NoKeys();
    }

    /** typio_wl_key_tracking_reset */
    method Reset()
      requires Valid()
      modifies states
      ensures View() == ResetKeys(old(View()))
    {
      var i := 0;
      while i < states.Length
        invariant i <= states.Length
        invariant forall k :: 0 <= k < i ==> states[k] == Idle
      {
        states[i] := Idle;
        i := i + 1;
      }
      assert states[..] == NoKeys();
    }

    /** The advance of `active_generation`, a 32-bit counter that skips 0, with the tracking reset. */
    method Advance()
      requires Valid()
      modifies this, states
      ensures Valid() && View() == Bump(old(View()))
    {
      generation := if generation + 1 < 0x1_0000_0000 then generation + 1 else 0;
      if generation == 0 {
        generation := 1;
      }
      bumps := bumps + 1;
      Reset();
    }

    /** typio_wl_key_tracking_mark_released_pending */
    method MarkReleasedPending() returns (changed: nat)
      requires Valid()
      modifies states
      ensures View() == old(View()).(keys := MarkReleased(old(View()).keys))
      ensures changed == |HeldKeys(old(View()).keys)|
    {
      ghost var keys := states[..];
      changed := 0;
      var i := 0;
      while i < states.Length
        invariant i <= states.Length
        invariant forall k :: i <= k < states.Length ==> states[k] == keys[k]
        invariant forall k :: 0 <= k < i ==> states[k] == MarkReleased(keys)[k]
        invariant changed == |HeldKeys(keys[..i])|
      {
        assert keys[..i + 1][..i] == keys[..i];
        if Held(states[i]) {
          states[i] := ReleasedPending;
          changed := changed + 1;
        }
        i := i + 1;
      }
      assert keys[..i] == keys;
      assert states[..] == MarkReleased(keys);
    }
  }

  /** The virtual keyboard half of src/wayland/keyboard/bridge.c. */
  class Vk {
    var bound: bool
    var state: VkState
    var hasKeymap: bool
    var keymapGeneration: nat
    var deadline: nat
    var drops: nat
    ghost var keymapAt: nat

    ghost function View(): VirtualKeyboard
      reads this
    {
      VirtualKeyboard(bound, state, hasKeymap, keymapGeneration, deadline, drops, keymapAt)
    }

    constructor ()
      ensures View() == VirtualKeyboard(true, VkNeedsKeymap, false, 0, 0, 0, 0)
    {
      bound, state, hasKeymap, keymapGeneration, deadline, drops, keymapAt := true, VkNeedsKeymap, false, 0, 0, 0, 0;
    }

    function CurrentKeymap(t: KeyTracker): (r: bool)
      reads this, t, t.states
      ensures r == HasCurrentKeymap(View(), t.View())
    {
      t.generation != 0 && keymapGeneration == t.generation
    }

    /** typio_wl_vk_set_state */
    method SetState(t: KeyTracker, s: VkState)
      modifies this
      ensures View() == L.SetState(old(View()), t.View(), s)
    {
      var previous := state;
      state := s;
      hasKeymap := s == VkReady && CurrentKeymap(t);
      if s == VkReady || s == VkBroken || s == VkAbsent {
        deadline := 0;
      }
      if previous != s && s == VkReady {
        drops := 0;
      }
    }

    /** typio_wl_vk_expect_keymap */
    method ExpectKeymap(t: KeyTracker, now: nat)
      modifies this
      ensures View() == L.ExpectKeymap(old(View()), t.View(), now)
      // a waiting keyboard has a deadline
      ensures T.VkSane(old(View())) ==> T.VkSane(View()) && (bound ==> state == VkNeedsKeymap && deadline > now)
    {
      if bound {
        deadline := now + KEYMAP_TIMEOUT_MS;
        SetState(t, VkNeedsKeymap);
      }
    }

    /** typio_wl_vk_cancel_keymap_wait */
    method CancelKeymapWait(t: KeyTracker)
      modifies this
      ensures View() == L.CancelKeymapWait(old(View()), t.View())
      // ready only with a current keymap, and no wait is left
      ensures state == VkReady ==> old(state) == VkReady || CurrentKeymap(t)
      ensures state == VkNeedsKeymap ==> deadline == 0 && !CurrentKeymap(t)
    {
      if state == VkNeedsKeymap {
        if CurrentKeymap(t) {
          SetState(t, VkReady);
        } else {
          deadline := 0;
        }
      }
    }

    /** typio_wl_vk_is_ready up to the fail-safe. */
    method TryReady(t: KeyTracker) returns (ready: bool)
      modifies this
      ensures View() == L.TryReady(old(View()), t.View()) && ready == (state == VkReady)
      ensures T.VkSane(old(View())) ==> T.VkSane(View())
      ensures ready <==> old(state) == VkReady || (bound && old(state) == VkNeedsKeymap && CurrentKeymap(t))
    {
      if bound && state == VkNeedsKeymap && CurrentKeymap(t) {
        SetState(t, VkReady);
      }
      ready := state == VkReady;
      if !ready {
        drops := drops + 1;
      }
    }

    /** typio_wl_vk_forward_keymap */
    method ForwardKeymap(t: KeyTracker, duplicated: bool)
      modifies this
      ensures View() == L.ForwardKeymap(old(View()), t.View(), duplicated)
      ensures T.VkSane(old(View())) ==> T.VkSane(View())
      ensures bound && duplicated && t.generation != 0 ==> state == VkReady && hasKeymap && CurrentKeymap(t)
      ensures bound && !duplicated ==> state == VkBroken && !hasKeymap
    {
      if bound {
        if !duplicated {
          SetState(t, VkBroken);
        } else {
          keymapGeneration := t.generation;
          keymapAt := t.bumps;
          SetState(t, VkReady);
        }
      }
    }
  }

  /** The frontend: everything else that one iteration of the event loop reads and writes. */
  class Frontend {
    const vk: Vk
    const tracker: KeyTracker
    var running: bool
    var session: Session
    var facts: Facts
    var prev: Desired
    var keyboardPresent: bool
    var keyboardGrab: bool
    var armed: bool
    ghost var grabAt: nat
    ghost var released: seq<nat>
    ghost var log: seq<Step>

    ghost predicate Valid()
      reads this, tracker
    {
      tracker.Valid()
    }

    ghost function View(): World
      reads this, vk, tracker, tracker.states
    {
      World(running, session, facts, prev, Keyboard(keyboardPresent, keyboardGrab, armed, grabAt),
            vk.View(), tracker.View(), released, log)
    }

    constructor ()
      ensures Valid() && Initial(View()) && fresh(vk) && fresh(tracker) && fresh(tracker.states)
    {
      vk := new Vk();
      tracker := new KeyTracker();
      running, session, facts := true, Session(false, false, 0, 0, 0), FreshFacts();
      prev := Desired(WantNone, false, false, false);
      keyboardPresent, keyboardGrab, armed, grabAt := false, false, false, 0;
      released, log := [], [];
    }

    // -------------------------------------------------------------- bridge.c

    /** typio_wl_vk_trigger_fail_safe */
    method FailSafe()
      modifies `running, `keyboardGrab
      ensures View() == L.FailSafe(old(View()))
    {
      if running {
        keyboardGrab := false;
        running := false;
      }
    }

    /** typio_wl_vk_is_ready */
    method CheckReady()
      modifies `running, `keyboardGrab, vk
      ensures View() == L.CheckReady(old(View()))
    {
      var ready := vk.TryReady(tracker);
      if !ready && vk.state == VkBroken {
        FailSafe();
      }
    }

    /** typio_wl_vk_health_check */
    method HealthCheck(now: nat)
      modifies `running, `keyboardGrab
      ensures View() == L.HealthCheck(old(View()), now)
    {
      if running && keyboardPresent && keyboardGrab && vk.state == VkNeedsKeymap && vk.deadline != 0 {
        if vk.deadline <= now {
          FailSafe();
        }
      }
    }

    /** typio_wl_vk_release_forwarded_keys: one release per held key, in ascending order. */
    method ReleaseForwardedKeys()
      requires Valid()
      modifies `released, tracker.states
      ensures View() == L.ReleaseForwardedKeys(old(View()))
    {
      if !vk.bound || vk.state == VkAbsent || vk.state == VkBroken {
        return;
      }
      ghost var keys := tracker.states[..];
      var key := 0;
      while key < MAX_KEYS
        invariant key <= MAX_KEYS && tracker.states[..] == keys
        invariant released == old(released) + HeldKeys(keys[..key])
      {
        HeldKeysNext(keys, key);
        if Held(tracker.states[key]) {
          released := released + [key];
        }
        key := key + 1;
      }
      assert keys[..key] == keys;
      var changed := tracker.MarkReleasedPending();
    }

    // -------------------------------------------------------------- keyboard.c

    /** typio_wl_keyboard_create */
    method KeyboardCreate(c: Creation)
      requires Valid()
      modifies `keyboardPresent, `keyboardGrab, `armed, `grabAt, tracker, tracker.states
      ensures Valid() && View() == L.KeyboardCreate(old(View()), c)
      // a grab or none, never the old one; the keys are fenced whether or not the grab came up
      ensures keyboardPresent == keyboardGrab == (c == Created)
      ensures c == Created ==> grabAt == tracker.bumps
      ensures c != NoKeyboard ==> armed
      ensures c != NoKeyboard ==> tracker.bumps == old(tracker.bumps) + 1 && tracker.states[..] == NoKeys()
      ensures c == NoKeyboard ==> tracker.View() == old(tracker.View()) && armed == old(armed)
    {
      keyboardPresent, keyboardGrab := false, false;
      if c != NoKeyboard {
        tracker.Advance();
        armed := true;
        if c == Created {
          keyboardPresent, keyboardGrab := true, true;
          grabAt := tracker.bumps;
        }
      }
    }

    /** typio_wl_keyboard_destroy */
    method KeyboardDestroy()
      requires Valid()
      modifies `released, `keyboardPresent, `keyboardGrab, `armed, tracker.states
      ensures View() == L.KeyboardDestroy(old(View()))
      // no grab and no held key is left, and the application saw each held key go up once
      ensures !keyboardPresent && !keyboardGrab && !armed && tracker.states[..] == NoKeys()
      ensures released == old(released) + (if K.CanSend(vk.View()) then HeldKeys(old(tracker.states[..])) else [])
    {
      armed := false;
      ReleaseForwardedKeys();
      keyboardGrab := false;
      tracker.Reset();
      keyboardPresent := false;
    }

    /** typio_wl_keyboard_pause */
    method KeyboardPause()
      requires Valid()
      modifies `released, tracker.states
      ensures View() == L.KeyboardPause(old(View()))
      // no held key is left, and the application saw each of them go up once
      ensures tracker.states[..] == NoKeys()
      ensures released == old(released) + (if K.CanSend(vk.View()) then HeldKeys(old(tracker.states[..])) else [])
    {
      ReleaseForwardedKeys();
      tracker.Reset();
    }

    // -------------------------------------------------------------- focus_effects.c

    /** typio_wl_focus_observe */
    method Observe() returns (a: Actual)
      ensures a == L.Observe(View())
    {
      var grab := Absent;
      if !keyboardPresent {
        grab := Absent;
      } else if vk.state == VkBroken {
        grab := Broken;
      } else if vk.state == VkNeedsKeymap {
        grab := NeedsKeymap;
      } else if vk.state == VkReady {
        grab := Ready;
      }
      a := Actual(true, session.present && session.focused, grab);
    }

    /** focus_hard_reset_keyboard */
    method HardReset()
      requires Valid()
      modifies `running, `released, `keyboardPresent, `keyboardGrab, `armed, vk, tracker.states
      ensures View() == L.HardReset(old(View()))
      // although the release runs twice, each held key goes up once; a broken keyboard stops the daemon
      ensures !keyboardPresent && released == old(released) + old(K.Due(View()))
      ensures old(keyboardPresent) ==> tracker.states[..] == NoKeys()
      ensures running == (old(running) && old(vk.state) != VkBroken)
    {
      K.HardResetReleases(View());
      K.HardResetStops(View());
      if keyboardPresent {
        ReleaseForwardedKeys();
        KeyboardDestroy();
      }
      vk.CancelKeymapWait(tracker);
      CheckReady();
    }

    ghost method Note(s: Step)
      modifies `log
      ensures View() == Log(old(View()), s)
    {
      log := log + [s];
    }

    method ApplyOut(e: Effects)
      requires Valid()
      modifies `session, `released, `log, tracker.states
      ensures View() == L.ApplyOut(old(View()), e)
      // leaving the field releases the keys that are due; nothing else does
      ensures released == old(released)
        + (if e.sendFocusOut && old(session.present) && keyboardPresent then old(K.Due(View())) else [])
    {
      K.OutReleases(View(), e);
      if e.discardComposition && session.present {
        Note(Discarded);
      }
      if e.sendFocusOut && session.present {
        session := session.(focused := false);
        Note(FocusedOut);
        if keyboardPresent {
          KeyboardPause();
        }
      }
    }

    method ApplyDestroy(e: Effects)
      requires Valid()
      modifies `running, `released, `keyboardPresent, `keyboardGrab, `armed, `log, vk, tracker.states
      ensures View() == L.ApplyDestroy(old(View()), e)
      // dropping the grab releases the keys that are due; nothing else does
      ensures released == old(released) + (if e.destroyGrab then old(K.Due(View())) else [])
      ensures e.destroyGrab ==> !keyboardPresent
    {
      K.DestroyReleases(View(), e);
      if e.destroyGrab {
        HardReset();
        Note(GrabDestroyed);
      }
      if e.clearPreedit {
        Note(PreeditCleared);
      }
      if e.commit && session.present && session.imSerial != 0 {
        Note(Committed);
      }
    }

    method ApplyCreate(e: Effects, c: Creation, now: nat)
      requires Valid()
      modifies `keyboardPresent, `keyboardGrab, `armed, `grabAt, `log, vk, tracker, tracker.states
      ensures Valid() && View() == L.ApplyCreate(old(View()), e, c, now)
      ensures keyboardPresent == (if e.createGrab then c == Created else old(keyboardPresent))
    {
      if e.scrubGeneration {
        tracker.Advance();
        Note(GenerationScrubbed);
      }
      if e.createGrab {
        KeyboardCreate(c);
        vk.ExpectKeymap(tracker, now);
        Note(GrabCreated);
      }
    }

    method ApplyIn(e: Effects)
      modifies `session, `log
      ensures View() == L.ApplyIn(old(View()), e)
      ensures session.focused == (old(session.focused) || (e.sendFocusIn && session.present))
    {
      if e.sendFocusIn && session.present {
        session := session.(focused := true);
        Note(FocusedIn);
      }
      if e.reactivate {
        Note(Reactivated);
      }
    }

    /** typio_wl_focus_apply */
    method Apply(e: Effects, c: Creation, now: nat)
      requires Valid()
      modifies this, vk, tracker, tracker.states
      ensures Valid() && View() == L.Apply(old(View()), e, c, now)
    {
      ApplyOut(e);
      ApplyDestroy(e);
      ApplyCreate(e, c, now);
      ApplyIn(e);
    }

    // -------------------------------------------------------------- input_method.c and event_loop.c

    /** run_focus_controller_pipeline */
    method Pipeline(s: Surroundings)
      requires Valid()
      modifies this, vk, tracker, tracker.states
      ensures Valid() && View() == L.Pipeline(old(View()), s)
      // the due steps, in the contractual order, and nothing else; the invariant of every run is kept
      ensures log == old(log) + K.Steps(old(TickEffects(View(), s.engine)), old(session), 9)
      ensures T.Ok(old(View())) ==> T.Ok(View()) && (session.focused <==> prev.grab == Yes)
      // which steps those are, told from the states before and after
      ensures T.Ok(old(View())) ==> O.Logged(old(View()), View())
    {
      if T.Ok(View()) {
        O.TickLog(View(), s);
      }
      K.EffectOrder(View(), TickEffects(View(), s.engine), s.creation, s.now);
      if T.Ok(View()) {
        T.PipelineKeeps(View(), s);
      }
      var desired := Reduce(facts.(enginePresent := s.engine), prev);
      var actual := Observe();
      Apply(Diff(desired, actual), s.creation, s.now);
      prev := desired;
    }

    method ImActivate(created: bool)
      modifies `session, `facts
      ensures View() == L.Handle(old(View()), L.ImActivate(created))
    {
      if !session.present {
        if !created {
          return;
        }
        session := session.(present := true);
      }
      facts := facts.(activateSeen := true);
    }

    method ImDone()
      modifies `session, `facts
      ensures View() == L.Handle(old(View()), L.ImDone)
    {
      session := session.(imSerial := session.imSerial + 1, dones := session.dones + 1);
      if session.present {
        facts := facts.(doneHadActivate := facts.activateSeen,
                        doneHadDeactivate := facts.deactivateSeen,
                        doneSerial := session.imSerial);
        facts := facts.(activateSeen := false, deactivateSeen := false);
      }
    }

    /** A routed key; the router's outcome replaces its tracked state. */
    method RouteKey(key: nat, outcome: KeyState)
      requires Valid()
      modifies tracker.states
      ensures View() == L.Handle(old(View()), L.GrabKey(key, outcome))
    {
      var a := Observe();
      if keyboardPresent && keyboardGrab && CanRouteKeys(a) && key < tracker.states.Length {
        tracker.states[key] := outcome;
        assert tracker.states[..] == old(tracker.states[..])[key := outcome];
      }
    }

    method Handle(e: Event)
      requires Valid()
      modifies `running, `session, `facts, `keyboardGrab, vk, tracker.states
      ensures View() == L.Handle(old(View()), e)
    {
      match e {
        case ImActivate(created) => ImActivate(created);
        case ImDeactivate => facts := facts.(deactivateSeen := true);
        case ImDone => ImDone();
        case ImUnavailable => running := false;
        case GrabKeymap(duplicated) =>
          if keyboardPresent && keyboardGrab {
            vk.ForwardKeymap(tracker, duplicated);
          }
        case GrabModifiers =>
          if keyboardPresent && keyboardGrab {
            CheckReady();
          }
        case GrabKey(key, outcome) =>
          RouteKey(key, outcome);
        case EmergencyExit =>
          if keyboardPresent && keyboardGrab {
            keyboardGrab := false;
            running := false;
          }
      }
    }

    method HandleAll(es: seq<Event>)
      requires Valid()
      modifies `running, `session, `facts, `keyboardGrab, vk, tracker.states
      ensures View() == L.HandleAll(old(View()), es)
    {
      var i := 0;
      while i < |es|
        invariant i <= |es|
        invariant View() == L.HandleAll(old(View()), es[..i])
      {
        Handle(es[i]);
        assert es[..i + 1][..i] == es[..i];
        i := i + 1;
      }
      assert es[..i] == es;
    }

    /** typio_wl_frontend_wayland_unbind as far as the lifecycle sees it. */
    method Unbind()
      requires Valid()
      modifies `released, `keyboardPresent, `keyboardGrab, `armed, vk, tracker.states
      ensures View() == L.Unbind(old(View()))
    {
      if keyboardPresent {
        KeyboardDestroy();
      }
      if vk.bound {
        vk.SetState(tracker, VkAbsent);
        vk.bound := false;
      }
    }

    /** The disconnected baseline up to the fence. */
    method Detach()
      requires Valid()
      modifies `session, `released, `keyboardPresent, `keyboardGrab, `armed, vk, tracker.states
      ensures Valid() && View().(tracker := L.Bump(View().tracker)) == L.Disconnect(old(View()))
    {
      armed := false;
      session := session.(dones := 0, former := session.former + session.dones);
      Unbind();
    }

    method Disconnect()
      requires Valid()
      modifies `session, `released, `keyboardPresent, `keyboardGrab, `armed, vk, tracker, tracker.states
      ensures Valid() && View() == L.Disconnect(old(View()))
    {
      Detach();
      ghost var detached := View();
      tracker.Advance();
      assert View() == detached.(tracker := L.Bump(detached.tracker));
    }

    /** typio_wl_frontend_reconnect and event_loop_recover */
    method Reconnect(r: Rebind)
      requires Valid()
      modifies this, vk, tracker, tracker.states
      ensures Valid() && View() == L.Reconnect(old(View()), r)
      // no grab, no held key, a new generation, and the invariant of every run
      ensures !keyboardPresent && tracker.states[..] == NoKeys() && tracker.bumps == old(tracker.bumps) + 1
      ensures running == (old(running) && r != GaveUp)
      // the virtual keyboard of the new connection, if one could be made
      ensures old(running) && r != GaveUp ==>
        vk.bound == (r == Rebound) && vk.hasKeymap == false
        && vk.state == (if r == Rebound then VkNeedsKeymap else if r == VkFailed then VkBroken else VkAbsent)
      ensures T.Ok(old(View())) ==> T.Ok(View())
    {
      if T.Ok(View()) {
        T.ReconnectKeeps(View(), r);
      }
      Disconnect();
      if !running || r == GaveUp {
        running := false;
      } else if r == Rebound {
        vk.bound := true;
        vk.SetState(tracker, VkNeedsKeymap);
      } else {
        vk.SetState(tracker, if r == VkFailed then VkBroken else VkAbsent);
      }
    }

    /** What follows the wait when it delivered something. */
    method AfterPoll(es: seq<Event>, gap: bool, s: Surroundings, keyRepeat: bool, at: nat)
      requires Valid()
      modifies this, vk, tracker, tracker.states
      ensures Valid()
      ensures var w2 := L.HandleAll(old(View()), es);
        var w3 := L.Pipeline(if gap then w2.(facts := w2.facts.(suspendGap := true)) else w2, s);
        View() == L.HealthCheck(if keyRepeat then L.Handle(w3, GrabModifiers) else w3, at)
    {
      HandleAll(es);
      if gap {
        facts := facts.(suspendGap := true);
      }
      Pipeline(s);
      if keyRepeat {
        Handle(GrabModifiers);
      }
      HealthCheck(at);
    }

    method OnPoll(poll: Poll)
      requires Valid()
      modifies this, vk, tracker, tracker.states
      ensures Valid() && View() == L.OnPoll(old(View()), poll)
    {
      match poll {
        case FlushLost(r) => Reconnect(r);
        case Interrupted =>
        case PollError => running := false;
        case Timeout(at) => HealthCheck(at);
        case DisplayLost(es, r) =>
          HandleAll(es);
          Reconnect(r);
        case Dispatch(es, gap, s, keyRepeat, at) => AfterPoll(es, gap, s, keyRepeat, at);
      }
    }

    /** One iteration of the loop in typio_wl_frontend_run keeps the invariant of every run. */
    method Iterate(it: Iteration)
      requires Valid()
      modifies this, vk, tracker, tracker.states
      ensures Valid() && View() == L.Iterate(old(View()), it)
      ensures T.Ok(old(View())) ==> T.Ok(View())
      // the grab wanted from now on, told from the events
      ensures prev.grab == O.WantedAfter(old(session.present), old(prev.grab), it)
    {
      O.WantedAfterIteration(View(), it);
      if T.Ok(View()) {
        T.IterateKeeps(View(), it);
      }
      facts := FreshFacts();
      if it.gap {
        facts := facts.(suspendGap := true);
      }
      HandleAll(it.early);
      OnPoll(it.poll);
    }

    /** typio_wl_frontend_run: the fence and the alternation hold of the objects themselves. */
    method Run(its: seq<Iteration>)
      requires Valid() && Initial(View())
      modifies this, vk, tracker, tracker.states
      ensures Valid() && View() == L.Run(old(View()), its)
      ensures tracker.bumps < GENERATIONS && keyboardPresent && vk.state == VkReady ==>
        vk.keymapGeneration == tracker.generation && vk.keymapAt == grabAt
      ensures T.Alternates(log) && (session.present && session.focused <==> prev.grab == Yes)
    {
      var i := 0;
      while i < |its| && running
        invariant i <= |its| && Valid()
        invariant View() == L.Run(old(View()), its[..i])
      {
        assert its[..i + 1][..i] == its[..i];
        Iterate(its[i]);
        i := i + 1;
      }
      StoppedStays(old(View()), its, i);
      T.FocusAlternates(old(View()), its);
      if tracker.bumps < GENERATIONS {
        T.KeymapFence(old(View()), its, false, []);
      }
    }
  }

  lemma HeldKeysNext(keys: seq<KeyState>, k: nat)
    requires k < |keys|
    ensures HeldKeys(keys[..k + 1]) == HeldKeys(keys[..k]) + (if Held(keys[k]) then [k] else [])
  {
    assert keys[..k + 1][..k] == keys[..k];
  }

  /** Once `running` is cleared, nothing more happens. */
  lemma {:induction false} StoppedStays(w: World, its: seq<Iteration>, i: nat)
    requires i <= |its| && (i < |its| ==> !L.Run(w, its[..i]).running)
    ensures L.Run(w, its) == L.Run(w, its[..i])
    decreases |its|
  {
    if i < |its| {
      var n := |its| - 1;
      assert its[..n][..i] == its[..i];
      StoppedStays(w, its[..n], i);
    } else {
      assert its[..i] == its;
    }
  }
}
