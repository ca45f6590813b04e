/**
 The pure half of the focus controller (src/engine/focus_controller.c): facts of
 one tick become a desired state, and the gap between desired and actual state
 becomes a set of effects.
 */
module FocusController {

  /** Facts recorded during one event-loop iteration. */
  datatype Facts = Facts(
    activateSeen: bool, deactivateSeen: bool,
    doneHadActivate: bool, doneHadDeactivate: bool, doneSerial: nat,
    connectionAlive: bool, suspendGap: bool, enginePresent: bool)

  datatype Want = WantNone | SoftPause | Yes

  datatype Desired = Desired(grab: Want, focusIn: bool, focusOut: bool, reactivate: bool)

  datatype Resource = Absent | NeedsKeymap | Ready | Broken

  datatype Actual = Actual(connectionAlive: bool, icFocused: bool, grab: Resource)

  datatype Effects = Effects(
    destroyGrab: bool, createGrab: bool, scrubGeneration: bool,
    sendFocusIn: bool, sendFocusOut: bool,
    discardComposition: bool, clearPreedit: bool, commit: bool, reactivate: bool)

  const NO_EFFECTS: Effects := Effects(false, false, false, false, false, false, false, false, false)

  function WantedGrab(f: Facts, prev: Want): Want {
    if !f.connectionAlive || f.suspendGap then WantNone
    else if f.activateSeen || f.doneHadActivate then (if f.enginePresent then Yes else WantNone)
    else if f.deactivateSeen || f.doneHadDeactivate then SoftPause
    else prev
  }

  /** typio_wl_focus_reduce */
  function Reduce(f: Facts, prev: Desired): Desired {
    var grab := WantedGrab(f, prev.grab);
    Desired(grab,
            grab == Yes && prev.grab != Yes,
            grab != Yes && prev.grab == Yes,
            grab == Yes && prev.grab == Yes && f.doneHadActivate)
  }

  /** typio_wl_focus_diff */
  function Diff(d: Desired, a: Actual): Effects {
    var teardown := d.grab == WantNone && a.grab != Absent;
    var creation := d.grab != WantNone && a.grab == Absent;
    var rebuild := d.grab == Yes && a.grab == Broken;
    Effects(
      teardown || rebuild,
      creation || rebuild,
      teardown || creation || rebuild,
      d.focusIn,
      d.focusOut,
      teardown || d.focusOut,
      teardown || d.focusOut,
      teardown || d.focusOut,
      d.reactivate)
  }

  predicate CanRouteKeys(a: Actual) {
    a.icFocused && a.grab == Ready
  }

  predicate CanRouteModifiers(a: Actual) {
    a.grab == NeedsKeymap || a.grab == Ready
  }

  predicate IsTransitioning(a: Actual) {
    a.icFocused && (a.grab == Absent || a.grab == NeedsKeymap || a.grab == Broken)
  }

  datatype DoneAction = Noop | FirstActivate | Deactivate | Reactivate

  function ClassifyDone(wasActive: bool, nowActive: bool, activateSeen: bool): DoneAction {
    if nowActive && !wasActive then FirstActivate
    else if wasActive && !nowActive then Deactivate
    else if wasActive && nowActive && activateSeen then Reactivate
    else Noop
  }

  /** In every effect set the key generation is scrubbed exactly when the grab object changes. */
  lemma ScrubIffGrabChanges(d: Desired, a: Actual)
    ensures var e := Diff(d, a); e.scrubGeneration <==> e.destroyGrab || e.createGrab
  {
  }

  /** For a focused context that can route modifiers, routing keys and being in transition are opposites. */
  lemma RoutingPartition(a: Actual)
    ensures a.icFocused ==> (CanRouteKeys(a) <==> !IsTransitioning(a))
    ensures CanRouteKeys(a) ==> CanRouteModifiers(a)
    ensures IsTransitioning(a) && CanRouteModifiers(a) <==> a.icFocused && a.grab == NeedsKeymap
  {
  }

  /** The event-level classifier and the reducer agree on a batch that moves focus and carries no hard boundary. */
  lemma ClassifierAgrees(f: Facts, prev: Desired)
    requires f.connectionAlive && !f.suspendGap && f.enginePresent && !f.activateSeen && !f.deactivateSeen
    requires prev.grab == Yes || !f.doneHadDeactivate || f.doneHadActivate
    ensures var d := Reduce(f, prev);
      match ClassifyDone(prev.grab == Yes, d.grab == Yes, f.doneHadActivate)
      case FirstActivate => d.focusIn && !d.focusOut && !d.reactivate
      case Deactivate => d.focusOut && !d.focusIn && !d.reactivate
      case Reactivate => d.reactivate && !d.focusIn && !d.focusOut
      case Noop => !d.focusIn && !d.focusOut && !d.reactivate && d.grab == prev.grab
  {
  }
}
