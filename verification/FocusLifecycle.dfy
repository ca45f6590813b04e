/**
 The focus, grab and keymap lifecycle as a transition system
 (src/wayland/focus_effects.c, src/wayland/keyboard/bridge.c,
 src/wayland/keyboard/keyboard.c, src/wayland/input_method.c,
 src/wayland/event_loop.c, src/wayland/frontend.c).

 `World` holds what the lifecycle reads and writes.  Every function below is one
 C function on that state; FocusFrontend.dfy is the in-place form.  The compositor, the
 clock, the key router and allocation are inputs.  Five fields are history only:
 `bumps` counts the advances of the key generation, `keymapAt` and `grabAt` are its
 values when the last keymap arrived and when the current grab was created; `dones`
 counts the done events of the current input-method object and `former` those of
 the objects before it.
 */
module FocusLifecycle {
  import opened FocusController

  const MAX_KEYS: nat := 512
  const KEYMAP_TIMEOUT_MS: nat := 1500
  const GENERATIONS: nat := 0xffff_ffff     // nonzero values of the 32-bit counter

  datatype VkState = VkAbsent | VkNeedsKeymap | VkReady | VkBroken

  datatype KeyState =
    | Idle | Forwarded | BasicPassthrough | AppShortcut | ReleasedPending
    | SuppressedStartup | EngineNotReady | VoicePtt | VoicePttUnavailable

  /** What the effect executor did, in order. */
  datatype Step =
    | Discarded | FocusedOut | GrabDestroyed | PreeditCleared | Committed
    | GenerationScrubbed | GrabCreated | FocusedIn | Reactivated

  datatype Session = Session(present: bool, focused: bool, imSerial: nat, dones: nat, former: nat)

  /** `armed` is the watchdog's; it follows the keyboard object. */
  datatype Keyboard = Keyboard(present: bool, grab: bool, armed: bool, grabAt: nat)

  datatype VirtualKeyboard = VirtualKeyboard(
    bound: bool, state: VkState, hasKeymap: bool, keymapGeneration: nat, deadline: nat, drops: nat, keymapAt: nat)

  datatype Tracker = Tracker(generation: nat, keys: seq<KeyState>, bumps: nat)

  datatype World = World(
    running: bool, session: Session, facts: Facts, prev: Desired,
    keyboard: Keyboard, vk: VirtualKeyboard, tracker: Tracker,
    released: seq<nat>, log: seq<Step>)

  /** One advance of the 32-bit generation counter; it skips 0 when it wraps. */
  function NextGeneration(g: nat): nat {
    if g == GENERATIONS then 1 else g + 1
  }

  /** The counter after `n` advances. */
  function Generation(n: nat): nat {
    if n == 0 then 0 else NextGeneration(Generation(n - 1))
  }

  // ---------------------------------------------------------------- bridge.c

  predicate HasCurrentKeymap(vk: VirtualKeyboard, t: Tracker) {
    t.generation != 0 && vk.keymapGeneration == t.generation
  }

  /** typio_wl_vk_set_state */
  function SetState(vk: VirtualKeyboard, t: Tracker, s: VkState): VirtualKeyboard {
    vk.(state := s,
        hasKeymap := s == VkReady && HasCurrentKeymap(vk, t),
        deadline := if s == VkNeedsKeymap then vk.deadline else 0,
        drops := if s == VkReady && vk.state != VkReady then 0 else vk.drops)
  }

  /** typio_wl_vk_expect_keymap */
  function ExpectKeymap(vk: VirtualKeyboard, t: Tracker, now: nat): VirtualKeyboard {
    if !vk.bound then vk else SetState(vk.(deadline := now + KEYMAP_TIMEOUT_MS), t, VkNeedsKeymap)
  }

  /** typio_wl_vk_cancel_keymap_wait */
  function CancelKeymapWait(vk: VirtualKeyboard, t: Tracker): VirtualKeyboard {
    if vk.state != VkNeedsKeymap then vk
    else if HasCurrentKeymap(vk, t) then SetState(vk, t, VkReady)
    else vk.(deadline := 0)
  }

  /** The state part of typio_wl_vk_is_ready. */
  function TryReady(vk: VirtualKeyboard, t: Tracker): VirtualKeyboard {
    var vk1 :=
      if vk.bound && vk.state == VkNeedsKeymap && HasCurrentKeymap(vk, t) then SetState(vk, t, VkReady) else vk;
    if vk1.state == VkReady then vk1 else vk1.(drops := vk1.drops + 1)
  }

  /** typio_wl_vk_trigger_fail_safe: release the grab and stop. */
  function FailSafe(w: World): World {
    if !w.running then w else w.(keyboard := w.keyboard.(grab := false), running := false)
  }

  /** typio_wl_vk_is_ready */
  function CheckReady(w: World): World {
    var w1 := w.(vk := TryReady(w.vk, w.tracker));
    if w1.vk.state == VkBroken then FailSafe(w1) else w1
  }

  /** typio_wl_vk_health_check */
  function HealthCheck(w: World, now: nat): World {
    if w.running && w.keyboard.present && w.keyboard.grab && w.vk.state == VkNeedsKeymap
       && w.vk.deadline != 0 && w.vk.deadline <= now
    then FailSafe(w)
    else w
  }

  /** typio_wl_vk_forward_keymap */
  function ForwardKeymap(vk: VirtualKeyboard, t: Tracker, duplicated: bool): VirtualKeyboard {
    if !vk.bound then vk
    else if !duplicated then SetState(vk, t, VkBroken)
    else SetState(vk.(keymapGeneration := t.generation, keymapAt := t.bumps), t, VkReady)
  }

  predicate Held(s: KeyState) {
    s == Forwarded || s == BasicPassthrough || s == AppShortcut
  }

  /** The keys tracked as held, in ascending order; keys passed through in a soft pause are not tracked. */
  function HeldKeys(keys: seq<KeyState>): (r: seq<nat>)
    ensures forall i :: 0 <= i < |r| ==> r[i] < |keys| && Held(keys[r[i]])
    ensures forall k: nat :: k < |keys| && Held(keys[k]) ==> k in r
    ensures forall i, j :: 0 <= i < j < |r| ==> r[i] < r[j]
  {
    if keys == [] then []
    else
      var n := |keys| - 1;
      HeldKeys(keys[..n]) + (if Held(keys[n]) then [n] else [])
  }

  function MarkReleased(keys: seq<KeyState>): (r: seq<KeyState>)
    ensures |r| == |keys|
  {
    seq(|keys|, i requires 0 <= i < |keys| => if Held(keys[i]) then ReleasedPending else keys[i])
  }

  /** typio_wl_vk_release_forwarded_keys */
  function ReleaseForwardedKeys(w: World): World {
    if !w.vk.bound || w.vk.state == VkAbsent || w.vk.state == VkBroken then w
    else w.(released := w.released + HeldKeys(w.tracker.keys),
            tracker := w.tracker.(keys := MarkReleased(w.tracker.keys)))
  }

  // ---------------------------------------------------------------- keyboard.c

  /** The tracker after a reset. */
  function NoKeys(): (r: seq<KeyState>)
    ensures |r| == MAX_KEYS && forall k :: 0 <= k < MAX_KEYS ==> r[k] == Idle
  {
    seq(MAX_KEYS, _ => Idle)
  }

  /** What typio_wl_keyboard_create can come to: a grab, a failure before or after the generation advanced. */
  datatype Creation = Created | GrabFailed | NoKeyboard

  function Bump(t: Tracker): Tracker {
    Tracker(NextGeneration(t.generation), NoKeys(), t.bumps + 1)
  }

  function ResetKeys(t: Tracker): Tracker {
    t.(keys := NoKeys())
  }

  /** typio_wl_keyboard_create, whose result replaces the keyboard pointer. */
  function KeyboardCreate(w: World, c: Creation): World {
    if c == NoKeyboard then
      w.(keyboard := w.keyboard.(present := false, grab := false))
    else
      w.(tracker := Bump(w.tracker),
         keyboard := Keyboard(c == Created, c == Created, true,
                              if c == Created then w.tracker.bumps + 1 else w.keyboard.grabAt))
  }

  /** typio_wl_keyboard_destroy, after which the keyboard pointer is cleared. */
  function KeyboardDestroy(w: World): World {
    var w1 := ReleaseForwardedKeys(w);
    w1.(keyboard := w1.keyboard.(present := false, grab := false, armed := false), tracker := ResetKeys(w1.tracker))
  }

  /** typio_wl_keyboard_pause */
  function KeyboardPause(w: World): World {
    var w1 := ReleaseForwardedKeys(w);
    w1.(tracker := ResetKeys(w1.tracker))
  }

  // ---------------------------------------------------------------- focus_effects.c

  /** typio_wl_focus_observe */
  function Observe(w: World): Actual {
    Actual(true, w.session.present && w.session.focused,
           if !w.keyboard.present then Absent
           else match w.vk.state
                case VkBroken => Broken
                case VkNeedsKeymap => NeedsKeymap
                case VkReady => Ready
                case VkAbsent => Absent)
  }

  /** focus_hard_reset_keyboard */
  function HardReset(w: World): World {
    var w1 := if w.keyboard.present then KeyboardDestroy(ReleaseForwardedKeys(w)) else w;
    CheckReady(w1.(vk := CancelKeymapWait(w1.vk, w1.tracker)))
  }

  function Log(w: World, s: Step): World {
    w.(log := w.log + [s])
  }

  function ApplyOut(w: World, e: Effects): World {
    var w1 := if e.discardComposition && w.session.present then Log(w, Discarded) else w;
    if e.sendFocusOut && w.session.present then
      var w2 := Log(w1.(session := w1.session.(focused := false)), FocusedOut);
      if w2.keyboard.present then KeyboardPause(w2) else w2
    else
      w1
  }

  function DestroyGrab(w: World, e: Effects): World {
    if e.destroyGrab then Log(HardReset(w), GrabDestroyed) else w
  }

  function ClearPreedit(w: World, e: Effects): World {
    var w1 := if e.clearPreedit then Log(w, PreeditCleared) else w;
    if e.commit && w1.session.present && w1.session.imSerial != 0 then Log(w1, Committed) else w1
  }

  function ApplyDestroy(w: World, e: Effects): World {
    ClearPreedit(DestroyGrab(w, e), e)
  }

  function CreateAndWait(w: World, c: Creation, now: nat): World {
    var w1 := KeyboardCreate(w, c);
    w1.(vk := ExpectKeymap(w1.vk, w1.tracker, now))
  }

  function ApplyCreate(w: World, e: Effects, c: Creation, now: nat): World {
    var w1 := if e.scrubGeneration then Log(w.(tracker := Bump(w.tracker)), GenerationScrubbed) else w;
    if e.createGrab then Log(CreateAndWait(w1, c, now), GrabCreated) else w1
  }

  function ApplyIn(w: World, e: Effects): World {
    var w1 :=
      if e.sendFocusIn && w.session.present then Log(w.(session := w.session.(focused := true)), FocusedIn) else w;
    if e.reactivate then Log(w1, Reactivated) else w1
  }

  /** typio_wl_focus_apply: the nine effects in their contractual order. */
  function Apply(w: World, e: Effects, c: Creation, now: nat): World {
    ApplyIn(ApplyCreate(ApplyDestroy(ApplyOut(w, e), e), e, c, now), e)
  }

  // ---------------------------------------------------------------- event_loop.c

  /** What one run of the pipeline takes from its surroundings. */
  datatype Surroundings = Surroundings(engine: bool, creation: Creation, now: nat)

  function TickEffects(w: World, engine: bool): Effects {
    Diff(Reduce(w.facts.(enginePresent := engine), w.prev), Observe(w))
  }

  /** run_focus_controller_pipeline */
  function Pipeline(w: World, s: Surroundings): World {
    Apply(w, TickEffects(w, s.engine), s.creation, s.now)
    .(prev := Reduce(w.facts.(enginePresent := s.engine), w.prev))
  }

  function FreshFacts(): Facts {
    Facts(false, false, false, false, 0, true, false, false)
  }

  /** One Wayland event; grab events only arrive while the grab exists. */
  datatype Event =
    | ImActivate(sessionCreated: bool)
    | ImDeactivate
    | ImDone
    | ImUnavailable
    | GrabKeymap(duplicated: bool)
    | GrabModifiers            // and every other forwarded key or modifier
    | GrabKey(key: nat, outcome: KeyState)    // a routed key, and what the router made of it
    | EmergencyExit            // and the stuck-press guard

  function Handle(w: World, e: Event): World {
    match e
    case ImActivate(created) =>
      if !w.session.present && !created then w
      else w.(session := w.session.(present := true), facts := w.facts.(activateSeen := true))
    case ImDeactivate =>
      w.(facts := w.facts.(deactivateSeen := true))
    case ImDone =>
      var serial := w.session.imSerial + 1;
      var w1 := w.(session := w.session.(imSerial := serial, dones := w.session.dones + 1));
      if !w.session.present then w1
      else w1.(facts := w.facts.(doneHadActivate := w.facts.activateSeen, doneHadDeactivate := w.facts.deactivateSeen,
                                 doneSerial := serial, activateSeen := false, deactivateSeen := false))
    case ImUnavailable => w.(running := false)
    case GrabKeymap(duplicated) =>
      if w.keyboard.present && w.keyboard.grab then w.(vk := ForwardKeymap(w.vk, w.tracker, duplicated)) else w
    case GrabModifiers => if w.keyboard.present && w.keyboard.grab then CheckReady(w) else w
    case GrabKey(key, outcome) =>
      if w.keyboard.present && w.keyboard.grab && CanRouteKeys(Observe(w)) && key < |w.tracker.keys|
      then w.(tracker := w.tracker.(keys := w.tracker.keys[key := outcome]))
      else w
    case EmergencyExit =>
      if w.keyboard.present && w.keyboard.grab then w.(keyboard := w.keyboard.(grab := false), running := false) else w
  }

  function HandleAll(w: World, es: seq<Event>): World {
    if es == [] then w else Handle(HandleAll(w, es[..|es| - 1]), es[|es| - 1])
  }

  /** Outcome of a reconnect: the virtual keyboard is made, cannot be made, has no manager, or there is no display. */
  datatype Rebind = Rebound | VkFailed | NoVkManager | GaveUp

  /** typio_wl_frontend_wayland_unbind as far as the lifecycle sees it. */
  function Unbind(w: World): World {
    var w1 := if w.keyboard.present then KeyboardDestroy(w) else w;
    w1.(vk := if w1.vk.bound then SetState(w1.vk, w1.tracker, VkAbsent).(bound := false) else w1.vk)
  }

  /** The clean disconnected baseline; the commit serial is not reset with its object. */
  function Disconnect(w: World): World {
    var w1 := Unbind(w.(keyboard := w.keyboard.(armed := false),
                        session := w.session.(dones := 0, former := w.session.former + w.session.dones)));
    w1.(tracker := Bump(w1.tracker))
  }

  function BindVk(vk: VirtualKeyboard, t: Tracker, r: Rebind): VirtualKeyboard {
    match r
    case Rebound => SetState(vk.(bound := true), t, VkNeedsKeymap)
    case VkFailed => SetState(vk, t, VkBroken)
    case _ => SetState(vk, t, VkAbsent)
  }

  /** typio_wl_frontend_reconnect and event_loop_recover. */
  function Reconnect(w: World, r: Rebind): World {
    var w1 := Disconnect(w);
    if !w.running || r == GaveUp then w1.(running := false)
    else w1.(vk := BindVk(w1.vk, w1.tracker, r))
  }

  /** How the wait of one iteration ended. */
  datatype Poll =
    | FlushLost(rebind: Rebind)
    | Interrupted
    | PollError
    | Timeout(checkedAt: nat)
    | Dispatch(events: seq<Event>, gap: bool, surroundings: Surroundings, keyRepeat: bool, checkedAt: nat)
    | DisplayLost(events: seq<Event>, rebind: Rebind)

  /** One iteration: a resume gap seen at the start, events dispatched before the wait, and the wait. */
  datatype Iteration = Iteration(gap: bool, early: seq<Event>, poll: Poll)

  function BeforePoll(w: World, it: Iteration): World {
    HandleAll(w.(facts := FreshFacts().(suspendGap := it.gap)), it.early)
  }

  /** The wait and what follows it; the pipeline only runs when the wait delivered something. */
  function OnPoll(w: World, poll: Poll): World {
    match poll
    case FlushLost(r) => Reconnect(w, r)
    case Interrupted => w
    case PollError => w.(running := false)
    case Timeout(at) => HealthCheck(w, at)
    case DisplayLost(es, r) => Reconnect(HandleAll(w, es), r)
    case Dispatch(es, gap, s, keyRepeat, at) =>
      var w2 := HandleAll(w, es);
      var w3 := Pipeline(if gap then w2.(facts := w2.facts.(suspendGap := true)) else w2, s);
      HealthCheck(if keyRepeat then Handle(w3, GrabModifiers) else w3, at)
  }

  /** The body of the loop in typio_wl_frontend_run. */
  function Iterate(w: World, it: Iteration): World {
    OnPoll(BeforePoll(w, it), it.poll)
  }

  /** The state in which the loop is entered; the virtual keyboard was bound before. */
  predicate Initial(w: World) {
    && w.running && w.session == Session(false, false, 0, 0, 0)
    && w.prev == Desired(WantNone, false, false, false) && w.facts == FreshFacts()
    && w.keyboard == Keyboard(false, false, false, 0)
    && w.vk == VirtualKeyboard(true, VkNeedsKeymap, false, 0, 0, 0, 0)
    && w.tracker == Tracker(0, NoKeys(), 0)
    && w.released == [] && w.log == []
  }

  /** The loop runs until `running` is cleared. */
  function Run(w: World, its: seq<Iteration>): World {
    if its == [] then w
    else
      var w1 := Run(w, its[..|its| - 1]);
      if w1.running then Iterate(w1, its[|its| - 1]) else w1
  }
}
