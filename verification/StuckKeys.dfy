/**
 Keys that stay tracked as held after they were let go of: when the key arbiter
 (src/wayland/keyboard/arbiter.c) consumes a chord without sending their release, and
 when it replays a broken chord whose buffer had no room for it.
 */
module StuckKeys {
  import opened Common
  import opened KeyArbiter
  import L = FocusLifecycle

  // ---------------------------------------------------------------- a chord that completes

  predicate IsRelease(e: KeyEvent, k: nat) {
    !e.press && e.key == k
  }

  /** The first held event; buffering began with it. */
  function Start(fate: seq<Fate>): (b: nat)
    ensures b <= |fate| && (forall j :: 0 <= j < b ==> fate[j] != Waiting)
    ensures b < |fate| ==> fate[b] == Waiting
  {
    if fate == [] then 0
    else
      var n := |fate| - 1;
      var b := Start(fate[..n]);
      assert forall j :: 0 <= j < n ==> fate[..n][j] == fate[j];
      if b < n || fate[n] == Waiting then b else n + 1
  }

  /** Key `k` was let go of since input `b`. */
  predicate Released(inputs: seq<KeyEvent>, b: nat, k: nat) {
    exists j :: b <= j < |inputs| && IsRelease(inputs[j], k)
  }

  /** Every release of key `k` since input `b` met a full buffer. */
  predicate ReleasesLost(s: State, b: nat, k: nat) {
    |s.inputs| == |s.fate| &&
    forall j :: b <= j < |s.inputs| && IsRelease(s.inputs[j], k) ==> s.fate[j] == Lost
  }

  predicate ReleasedWith(inputs: seq<KeyEvent>, fate: seq<Fate>, f: Fate, k: nat)
    requires |inputs| == |fate|
  {
    exists j :: 0 <= j < |inputs| && fate[j] == f && IsRelease(inputs[j], k)
  }

  lemma SplitExists(inputs: seq<KeyEvent>, fate: seq<Fate>, f: Fate, k: nat)
    requires |inputs| == |fate| > 0
    ensures var n := |inputs| - 1;
      ReleasedWith(inputs, fate, f, k) <==>
        ReleasedWith(inputs[..n], fate[..n], f, k) || (fate[n] == f && IsRelease(inputs[n], k))
  {
    var n := |inputs| - 1;
    if ReleasedWith(inputs[..n], fate[..n], f, k) {
      var j :| 0 <= j < n && fate[..n][j] == f && IsRelease(inputs[..n][j], k);
      assert fate[j] == f && IsRelease(inputs[j], k);
    }
    if ReleasedWith(inputs, fate, f, k) {
      var j :| 0 <= j < |inputs| && fate[j] == f && IsRelease(inputs[j], k);
      if j < n {
        assert fate[..n][j] == f && IsRelease(inputs[..n][j], k);
      }
    }
  }

  /** A release is among the selected events exactly if one with that fate was input. */
  lemma {:induction false} SelectedRelease(inputs: seq<KeyEvent>, fate: seq<Fate>, f: Fate, k: nat)
    requires |inputs| == |fate|
    ensures ReleaseHeld(Select(inputs, fate, f), k) <==> ReleasedWith(inputs, fate, f, k)
  {
    if inputs != [] {
      var n := |inputs| - 1;
      var before := Select(inputs[..n], fate[..n], f);
      SelectedRelease(inputs[..n], fate[..n], f, k);
      SplitExists(inputs, fate, f, k);
      if fate[n] == f {
        assert (before + [inputs[n]])[..|before|] == before;
        ReleaseHeldSnoc(before + [inputs[n]], k);
      } else {
        assert before + [] == before;
      }
    }
  }

  /** From the first held event on, the buffer lacks a release exactly if it was lost. */
  lemma LackedIsLost(s: State, k: nat)
    requires Accounted(s)
    ensures !ReleaseHeld(s.buffer, k) <==> ReleasesLost(s, Start(s.fate), k)
  {
    SelectedRelease(s.inputs, s.fate, Waiting, k);
    var b := Start(s.fate);
    assert forall j :: b <= j < |s.fate| ==> s.fate[j] == Waiting || s.fate[j] == Lost;
  }

  /**
   Over every run: when a chord completes, a key that was let go of since buffering
   began stays tracked as held exactly if it was held otherwise than as forwarded,
   or if every such release met a full buffer.
   */
  lemma StuckOverRun(s: State, chord: set<Modifier>, route: Router, inputs: seq<Input>, e: KeyEvent,
                     phys: set<Modifier>, k: nat)
    requires Initial(s)
    requires var before := Run(s, chord, route, inputs);
      before.buffering && k < |before.keys| && Clean(Key(e, phys), chord) && !e.press && ChordComplete(chord, phys)
    ensures var before := Run(s, chord, route, inputs);
      var after := Run(s, chord, route, inputs + [Key(e, phys)]);
      var b := Start(before.fate);
      && b < |after.inputs| && k < |after.keys|
      && (Released(after.inputs, b, k) ==>
            (L.Held(after.keys[k]) <==>
              L.Held(before.keys[k]) && (before.keys[k] != L.Forwarded || ReleasesLost(after, b, k))))
  {
    Conservation(s, chord, route, inputs);
    RunSnoc(s, chord, route, inputs, Key(e, phys));
    StuckAtConsume(Run(s, chord, route, inputs), chord, e, k);
  }

  lemma StuckAtConsume(s: State, chord: set<Modifier>, e: KeyEvent, k: nat)
    requires Ok(s, chord) && s.buffering && !e.press && k < |s.keys|
    ensures var b := Start(s.fate);
      var after := Consume(Push(s, e));
      && b < |s.inputs| && |after.keys| == |s.keys|
      && (L.Held(after.keys[k]) <==>
            L.Held(s.keys[k]) && (s.keys[k] != L.Forwarded || ReleasesLost(after, b, k)))
  {
    var pushed := Push(s, e);
    PushKeeps(s, chord, e);
    SomethingHeld(s);
    StartStays(s.fate, pushed.fate[|s.fate|]);
    LackedIsLost(pushed, k);
    ConsumedHeldIff(pushed, k);
    SettledLost(pushed, Start(s.fate), k);
  }

  /** Consuming lets go of exactly the forwarded keys whose release is in the buffer. */
  lemma ConsumedHeldIff(s: State, k: nat)
    requires k < |s.keys|
    ensures |Consume(s).keys| == |s.keys|
    ensures L.Held(Consume(s).keys[k]) <==>
      L.Held(s.keys[k]) && (s.keys[k] != L.Forwarded || !ReleaseHeld(s.buffer, k))
  {
    OrphansReleasedOnce(s.buffer, s.keys);
  }

  /** Discarding the held events does not change which are lost. */
  lemma SettledLost(s: State, b: nat, k: nat)
    ensures ReleasesLost(Consume(s), b, k) <==> ReleasesLost(s, b, k)
  {
    var after := Consume(s);
    assert forall j :: 0 <= j < |s.fate| ==> (after.fate[j] == Lost <==> s.fate[j] == Lost);
  }

  lemma SomethingHeld(s: State)
    requires Accounted(s) && s.buffer != []
    ensures Start(s.fate) < |s.fate|
  {
    if Start(s.fate) == |s.fate| {
      NoneSelected(s.inputs, s.fate, Waiting);
    }
  }

  lemma StartStays(fate: seq<Fate>, f: Fate)
    requires Start(fate) < |fate|
    ensures Start(fate + [f]) == Start(fate)
  {
    assert (fate + [f])[..|fate|] == fate;
  }

  // ---------------------------------------------------------------- a chord that is broken off

  /** The router changes the state of no other key than the event's. */
  ghost predicate OwnKeyOnly(route: Router) {
    forall e: KeyEvent, keys: seq<L.KeyState>, j: nat {:trigger Routed(route, e, keys)[j]} ::
      j < |keys| && j != e.key ==> Routed(route, e, keys)[j] == keys[j]
  }

  /** A release that it routes leaves its key not held. */
  ghost predicate LetsGo(route: Router) {
    forall e: KeyEvent, keys: seq<L.KeyState> {:trigger Routed(route, e, keys)} ::
      !e.press && e.key < |keys| ==> !L.Held(Routed(route, e, keys)[e.key])
  }

  /** The event makes the arbiter give up on the chord and replay. */
  predicate BreaksOff(s: State, chord: set<Modifier>, e: KeyEvent, phys: set<Modifier>) {
    s.buffering && (ShouldCancel(chord, e.keysym, phys, e.press) || (e.press && |s.buffer| >= MAX_BUFFERED - 1))
  }

  /** The last event of key `k`. */
  function LastOn(es: seq<KeyEvent>, k: nat): (r: Option<KeyEvent>)
    ensures r.Some? ==> r.value.key == k
  {
    if es == [] then None
    else if es[|es| - 1].key == k then Some(es[|es| - 1])
    else LastOn(es[..|es| - 1], k)
  }

  /** The position of the last input of key `k`. */
  function LastInput(es: seq<KeyEvent>, k: nat): (r: Option<nat>)
    ensures r.Some? ==> r.value < |es| && es[r.value].key == k
    ensures r.Some? ==> forall j :: r.value < j < |es| ==> es[j].key != k
  {
    if es == [] then None
    else if es[|es| - 1].key == k then Some(|es| - 1)
    else LastInput(es[..|es| - 1], k)
  }

  predicate PressedSince(inputs: seq<KeyEvent>, b: nat, k: nat) {
    exists j :: b <= j < |inputs| && inputs[j].press && inputs[j].key == k
  }

  predicate PressHeld(es: seq<KeyEvent>, k: nat) {
    exists j :: 0 <= j < |es| && es[j].press && es[j].key == k
  }

  /** A key whose last routed event is a release ends up not held. */
  lemma {:induction false} LastReleaseLetsGo(route: Router, es: seq<KeyEvent>, keys: seq<L.KeyState>, k: nat)
    requires OwnKeyOnly(route) && LetsGo(route) && k < |keys|
    requires LastOn(es, k).Some? && !LastOn(es, k).value.press
    ensures !L.Held(RoutedAll(route, es, keys)[k])
  {
    var n := |es| - 1;
    var before := RoutedAll(route, es[..n], keys);
    assert RoutedAll(route, es, keys) == Routed(route, es[n], before);
    if es[n].key != k {
      LastReleaseLetsGo(route, es[..n], keys, k);
      assert Routed(route, es[n], before)[k] == before[k];
    }
  }

  /** Without presses of its own, a key stays as it was held exactly if no release of it is routed. */
  lemma {:induction false} RoutedHeldIff(route: Router, es: seq<KeyEvent>, keys: seq<L.KeyState>, k: nat)
    requires OwnKeyOnly(route) && LetsGo(route) && k < |keys| && !PressHeld(es, k)
    ensures L.Held(RoutedAll(route, es, keys)[k]) <==> L.Held(keys[k]) && !ReleaseHeld(es, k)
  {
    if es != [] {
      var n := |es| - 1;
      var before := RoutedAll(route, es[..n], keys);
      assert RoutedAll(route, es, keys) == Routed(route, es[n], before);
      ReleaseHeldSnoc(es, k);
      assert forall j :: 0 <= j < n ==> es[..n][j] == es[j];
      RoutedHeldIff(route, es[..n], keys, k);
      if es[n].key == k {
        assert !es[n].press;
      } else {
        assert Routed(route, es[n], before)[k] == before[k];
      }
    }
  }

  lemma {:induction false} SelectedPress(inputs: seq<KeyEvent>, fate: seq<Fate>, f: Fate, k: nat, b: nat)
    requires |inputs| == |fate| && !PressedSince(inputs, b, k) && forall j :: 0 <= j < b && j < |fate| ==> fate[j] != f
    ensures !PressHeld(Select(inputs, fate, f), k)
  {
    if inputs != [] {
      var n := |inputs| - 1;
      assert forall j :: 0 <= j < n ==> inputs[..n][j] == inputs[j] && fate[..n][j] == fate[j];
      SelectedPress(inputs[..n], fate[..n], f, k, b);
    }
  }

  /** The last event of a key among those with one fate, if its last input has that fate. */
  lemma {:induction false} SelectedLast(inputs: seq<KeyEvent>, fate: seq<Fate>, f: Fate, k: nat)
    requires |inputs| == |fate| && LastInput(inputs, k).Some? && fate[LastInput(inputs, k).value] == f
    ensures LastOn(Select(inputs, fate, f), k) == Some(inputs[LastInput(inputs, k).value])
  {
    var n := |inputs| - 1;
    var before := Select(inputs[..n], fate[..n], f);
    if inputs[n].key != k {
      SelectedLast(inputs[..n], fate[..n], f, k);
      if fate[n] == f {
        assert (before + [inputs[n]])[..|before|] == before;
      } else {
        assert before + [] == before;
      }
    }
  }

  lemma BreakReplays(s: State, chord: set<Modifier>, route: Router, e: KeyEvent, phys: set<Modifier>)
    requires BreaksOff(s, chord, e, phys)
    ensures var after := Step(s, chord, route, Key(e, phys));
      && after == Pass(Replay(s, route), route, e)
      && after.keys == RoutedAll(route, s.buffer + [e], s.keys)
  {
    assert (s.buffer + [e])[..|s.buffer|] == s.buffer;
  }

  /** A key whose last input is a release of this chord, or the breaking event, is let go of unless it was lost. */
  lemma HeldIsLost(s: State, chord: set<Modifier>, route: Router, e: KeyEvent, k: nat, j: nat)
    requires Ok(s, chord) && s.buffering && OwnKeyOnly(route) && LetsGo(route) && k < |s.keys|
    requires LastInput(s.inputs + [e], k) == Some(j) && Start(s.fate) <= j && !(s.inputs + [e])[j].press
    requires L.Held(RoutedAll(route, s.buffer + [e], s.keys)[k])
    ensures j < |s.fate| && s.fate[j] == Lost
  {
    var kept := s.buffer + [e];
    assert kept[..|s.buffer|] == s.buffer && (s.inputs + [e])[..|s.inputs|] == s.inputs;
    if e.key == k {
      LastReleaseLetsGo(route, kept, s.keys, k);
    } else if s.fate[j] != Lost {
      assert s.fate[j] == Waiting;
      SelectedLast(s.inputs, s.fate, Waiting, k);
      LastReleaseLetsGo(route, kept, s.keys, k);
    }
  }

  /** After the replay the lost releases are those that were lost before. */
  lemma BrokenLost(s: State, chord: set<Modifier>, route: Router, e: KeyEvent, k: nat)
    requires Ok(s, chord) && s.buffering
    ensures ReleasesLost(Pass(Replay(s, route), route, e), Start(s.fate), k)
       <==> !ReleaseHeld(s.buffer + [e], k)
  {
    var after := Pass(Replay(s, route), route, e);
    var b := Start(s.fate);
    SomethingHeld(s);
    LackedIsLost(s, k);
    assert (s.buffer + [e])[..|s.buffer|] == s.buffer;
    ReleaseHeldSnoc(s.buffer + [e], k);
    assert after.fate[|s.fate|] == Passed && after.inputs[|s.fate|] == e;
    assert forall j :: 0 <= j < |s.fate| ==>
      after.inputs[j] == s.inputs[j] && (after.fate[j] == Lost <==> s.fate[j] == Lost);
  }

  /**
   Over every run, when a chord is broken off: the replay does not bring lost releases
   back.  A key whose last input since buffering began is a release is still held
   only if that release was lost; and a key not pressed since is still held exactly
   if it was held and every release of it since then was lost.
   */
  lemma StuckAfterBreak(s: State, chord: set<Modifier>, route: Router, inputs: seq<Input>, e: KeyEvent,
                        phys: set<Modifier>, k: nat)
    requires Initial(s) && OwnKeyOnly(route) && LetsGo(route)
    requires BreaksOff(Run(s, chord, route, inputs), chord, e, phys) && k < |Run(s, chord, route, inputs).keys|
    ensures var before := Run(s, chord, route, inputs);
      var after := Run(s, chord, route, inputs + [Key(e, phys)]);
      var b, last := Start(before.fate), LastInput(after.inputs, k);
      && b < |after.inputs| == |after.fate| && k < |after.keys|
      && (last.Some? && b <= last.value && !after.inputs[last.value].press && L.Held(after.keys[k]) ==>
            after.fate[last.value] == Lost)
      && (!PressedSince(after.inputs, b, k) ==>
            (L.Held(after.keys[k]) <==> L.Held(before.keys[k]) && ReleasesLost(after, b, k)))
  {
    var before := Run(s, chord, route, inputs);
    Conservation(s, chord, route, inputs);
    RunSnoc(s, chord, route, inputs, Key(e, phys));
    BreakReplays(before, chord, route, e, phys);
    StuckAtBreak(before, chord, route, e, k);
  }

  lemma StuckAtBreak(s: State, chord: set<Modifier>, route: Router, e: KeyEvent, k: nat)
    requires Ok(s, chord) && s.buffering && OwnKeyOnly(route) && LetsGo(route) && k < |s.keys|
    ensures var after := Pass(Replay(s, route), route, e);
      var b, last := Start(s.fate), LastInput(after.inputs, k);
      && b < |s.inputs| && |after.inputs| == |after.fate| && |after.keys| == |s.keys|
      && after.keys == RoutedAll(route, s.buffer + [e], s.keys)
      && (last.Some? && b <= last.value && !after.inputs[last.value].press && L.Held(after.keys[k]) ==>
            after.fate[last.value] == Lost)
      && (!PressedSince(after.inputs, b, k) ==>
            (L.Held(after.keys[k]) <==> L.Held(s.keys[k]) && ReleasesLost(after, b, k)))
  {
    var after := Pass(Replay(s, route), route, e);
    var b, last := Start(s.fate), LastInput(after.inputs, k);
    assert (s.buffer + [e])[..|s.buffer|] == s.buffer;
    SomethingHeld(s);
    if last.Some? && b <= last.value && !after.inputs[last.value].press && L.Held(after.keys[k]) {
      HeldIsLost(s, chord, route, e, k, last.value);
    }
    if !PressedSince(after.inputs, b, k) {
      NoPressKept(s, e, b, k);
      RoutedHeldIff(route, s.buffer + [e], s.keys, k);
      BrokenLost(s, chord, route, e, k);
    }
  }

  lemma NoPressKept(s: State, e: KeyEvent, b: nat, k: nat)
    requires Accounted(s) && b == Start(s.fate) && !PressedSince(s.inputs + [e], b, k)
    ensures !PressHeld(s.buffer + [e], k)
  {
    var all := s.inputs + [e];
    assert all[|s.inputs|] == e && forall j :: 0 <= j < |s.inputs| ==> all[j] == s.inputs[j];
    SelectedPress(s.inputs, s.fate, Waiting, k, b);
    assert b <= |s.inputs| && !(e.press && e.key == k);
  }

  // ---------------------------------------------------------------- runs that leave a key stuck

  const CTRL: nat := 29
  const SHIFT: nat := 42
  const LETTER: nat := 46

  const BOTH: set<Modifier> := {Ctrl, Shift}

  /** A router that passes every press on, letters as application shortcuts, and tracks releases as idle. */
  function Tracks(e: KeyEvent, keys: seq<L.KeyState>): seq<L.KeyState> {
    if e.key >= |keys| then keys
    else keys[e.key := if !e.press then L.Idle else if e.keysym.ModifierKey? then L.Forwarded else L.AppShortcut]
  }

  lemma TracksTracks()
    ensures OwnKeyOnly(Tracks) && LetsGo(Tracks)
  {
  }

  function CtrlEvent(press: bool): KeyEvent {
    KeyEvent(press, CTRL, ModifierKey(Ctrl), 0, 0, 0)
  }

  function ShiftEvent(press: bool): KeyEvent {
    KeyEvent(press, SHIFT, ModifierKey(Shift), 0, 0, 0)
  }

  function LetterEvent(press: bool): KeyEvent {
    KeyEvent(press, LETTER, OtherKey(LETTER), 0, 0, 0)
  }

  function CtrlDown(): seq<Input> {
    [Key(CtrlEvent(true), {Ctrl})]
  }

  function LetterDown(): seq<Input> {
    CtrlDown() + [Key(LetterEvent(true), {Ctrl})]
  }

  /** After `first`, with Ctrl held, Shift is tapped `n` times. */
  function Taps(first: seq<Input>, n: nat): seq<Input> {
    if n == 0 then first
    else Taps(first, n - 1) + [Key(ShiftEvent(true), {Ctrl, Shift})] + [Key(ShiftEvent(false), {Ctrl})]
  }

  lemma ChordFacts()
    ensures ShouldStart(BOTH, ModifierKey(Shift), {Ctrl, Shift}) && !ShouldStart(BOTH, ModifierKey(Ctrl), {Ctrl})
    ensures !ShouldCancel(BOTH, ModifierKey(Shift), {Ctrl, Shift}, true)
    ensures !ShouldCancel(BOTH, ModifierKey(Shift), {Ctrl}, false) && !ChordComplete(BOTH, {Ctrl})
    ensures !ShouldCancel(BOTH, ModifierKey(Ctrl), {}, false) && ChordComplete(BOTH, {})
    ensures !ShouldCancel(BOTH, OtherKey(LETTER), {Ctrl, Shift}, false) && !ChordComplete(BOTH, {Ctrl, Shift})
    ensures !ShouldCancel(BOTH, OtherKey(LETTER), {Ctrl}, false)
  {
    assert Shift !in {Ctrl} && Ctrl in {Ctrl} * BOTH && Ctrl in {Ctrl, Shift} * BOTH;
  }

  lemma PassesPress(s: State, e: KeyEvent)
    requires !s.buffering && e.press && !ShouldStart(BOTH, e.keysym, {Ctrl})
    ensures Step(s, BOTH, Tracks, Key(e, {Ctrl})) == Pass(s, Tracks, e)
  {
  }

  lemma FirstEvents(s: State)
    requires Initial(s) && |s.keys| > LETTER
    ensures var c, l := Run(s, BOTH, Tracks, CtrlDown()), Run(s, BOTH, Tracks, LetterDown());
      && c == Pass(s, Tracks, CtrlEvent(true)) && c.keys[CTRL] == L.Forwarded
      && l == Pass(c, Tracks, LetterEvent(true)) && l.keys[CTRL] == L.Forwarded && l.keys[LETTER] == L.AppShortcut
  {
    ChordFacts();
    var c := Pass(s, Tracks, CtrlEvent(true));
    assert Run(s, BOTH, Tracks, CtrlDown()) == c by {
      assert CtrlDown()[..0] == [];
      PassesPress(s, CtrlEvent(true));
    }
    RunSnoc(s, BOTH, Tracks, CtrlDown(), Key(LetterEvent(true), {Ctrl}));
    PassesPress(c, LetterEvent(true));
  }

  /** Each tap buffers two events and changes nothing else. */
  lemma {:induction false} TapsFill(s: State, first: seq<Input>, n: nat)
    requires n <= 4
    requires var r := Run(s, BOTH, Tracks, first); !r.buffering && r.buffer == []
    ensures var before := Run(s, BOTH, Tracks, first);
      var r := Run(s, BOTH, Tracks, Taps(first, n));
      && r.buffering == (n > 0) && |r.buffer| == 2 * n && (forall i :: 0 <= i < |r.buffer| ==> r.buffer[i].key == SHIFT)
      && r.switches == before.switches && r.keys == before.keys
  {
    if n > 0 {
      TapsFill(s, first, n - 1);
      var down, up := Key(ShiftEvent(true), {Ctrl, Shift}), Key(ShiftEvent(false), {Ctrl});
      RunSnoc(s, BOTH, Tracks, Taps(first, n - 1), down);
      RunSnoc(s, BOTH, Tracks, Taps(first, n - 1) + [down], up);
      TapHeld(Run(s, BOTH, Tracks, Taps(first, n - 1)), n - 1);
    }
  }

  lemma TapHeld(s: State, n: nat)
    requires s.buffering == (n > 0) && |s.buffer| == 2 * n && n < 4
    ensures var r := Step(Step(s, BOTH, Tracks, Key(ShiftEvent(true), {Ctrl, Shift})),
                          BOTH, Tracks, Key(ShiftEvent(false), {Ctrl}));
      && r.buffering && r.keys == s.keys && r.switches == s.switches
      && r.buffer == s.buffer + [ShiftEvent(true)] + [ShiftEvent(false)]
  {
    ChordFacts();
  }

  /**
   Hold Ctrl, tap Shift four times, let go of Ctrl: the last release is lost, the
   language is switched, and Ctrl stays tracked as forwarded.
   */
  lemma StuckExample(s: State)
    requires Initial(s) && |s.keys| > LETTER
    ensures var after := Run(s, BOTH, Tracks, Taps(CtrlDown(), 4) + [Key(CtrlEvent(false), {})]);
      && |after.inputs| == |after.fate| > 0 && |after.keys| > CTRL
      && after.inputs[|after.inputs| - 1] == CtrlEvent(false) && after.fate[|after.fate| - 1] == Lost
      && !after.buffering && after.switches == s.switches + 1 && after.keys[CTRL] == L.Forwarded
  {
    ChordFacts();
    FirstEvents(s);
    TapsFill(s, CtrlDown(), 4);
    var before := Run(s, BOTH, Tracks, Taps(CtrlDown(), 4));
    RunSnoc(s, BOTH, Tracks, Taps(CtrlDown(), 4), Key(CtrlEvent(false), {}));
    Conservation(s, BOTH, Tracks, Taps(CtrlDown(), 4));
    StuckIff(before, BOTH, Tracks, CtrlEvent(false), {}, CTRL);
    LostIff(before, BOTH, Tracks, CtrlEvent(false), {});
  }

  /** What the six events of the next example come to. */
  function ShortcutEnd(s: State): State {
    var shifted := Push(s.(buffering := true), ShiftEvent(true));
    var lettered := Push(shifted, LetterEvent(false));
    Consume(Push(Push(lettered, ShiftEvent(false)), CtrlEvent(false)))
  }

  function ShortcutEvents(): seq<Input> {
    LetterDown() + [Key(ShiftEvent(true), {Ctrl, Shift})] + [Key(LetterEvent(false), {Ctrl, Shift})]
    + [Key(ShiftEvent(false), {Ctrl})] + [Key(CtrlEvent(false), {})]
  }

  lemma ShortcutRun(s: State)
    requires Initial(s) && |s.keys| > LETTER
    ensures Run(s, BOTH, Tracks, ShortcutEvents()) == ShortcutEnd(Run(s, BOTH, Tracks, LetterDown()))
  {
    ChordFacts();
    FirstEvents(s);
    var i1 := LetterDown() + [Key(ShiftEvent(true), {Ctrl, Shift})];
    var i2 := i1 + [Key(LetterEvent(false), {Ctrl, Shift})];
    var i3 := i2 + [Key(ShiftEvent(false), {Ctrl})];
    RunSnoc(s, BOTH, Tracks, LetterDown(), Key(ShiftEvent(true), {Ctrl, Shift}));
    RunSnoc(s, BOTH, Tracks, i1, Key(LetterEvent(false), {Ctrl, Shift}));
    RunSnoc(s, BOTH, Tracks, i2, Key(ShiftEvent(false), {Ctrl}));
    RunSnoc(s, BOTH, Tracks, i3, Key(CtrlEvent(false), {}));
  }

  lemma ShortcutEnds(s: State)
    requires s.buffer == [] && |s.inputs| == 2 && s.fate == [Passed, Passed]
    requires |s.keys| > LETTER && s.keys[LETTER] == L.AppShortcut
    ensures var after := ShortcutEnd(s);
      && after.fate == [Passed, Passed, Swallowed, Swallowed, Swallowed, Swallowed]
      && |after.inputs| == 6 && after.inputs[3] == LetterEvent(false)
      && !after.buffering && after.switches == s.switches + 1
      && s.releases <= after.releases && LETTER !in after.releases[|s.releases|..]
      && |after.keys| > LETTER && after.keys[LETTER] == L.AppShortcut
  {
    var shifted := Push(s.(buffering := true), ShiftEvent(true));
    var lettered := Push(shifted, LetterEvent(false));
    var full := Push(Push(lettered, ShiftEvent(false)), CtrlEvent(false));
    assert full.fate == [Passed, Passed, Waiting, Waiting, Waiting, Waiting];
    assert full.keys == s.keys && full.releases == s.releases;
    OrphansReleasedOnce(full.buffer, full.keys);
    var sent := ReleaseOrphans(full.buffer, full.keys).sent;
    assert (s.releases + sent)[|s.releases|..] == sent;
  }

  /**
   Ctrl and a letter down, Shift down, then letter, Shift and Ctrl up: no event is
   lost and the language is switched, but the letter, an application shortcut, gets
   no release and stays tracked as held.
   */
  lemma ShortcutStuckExample(s: State)
    requires Initial(s) && |s.keys| > LETTER
    ensures var after := Run(s, BOTH, Tracks, ShortcutEvents());
      && after.fate == [Passed, Passed, Swallowed, Swallowed, Swallowed, Swallowed]
      && |after.inputs| == 6 && after.inputs[3] == LetterEvent(false)
      && !after.buffering && after.switches == s.switches + 1
      && s.releases <= after.releases && LETTER !in after.releases[|s.releases|..]
      && |after.keys| > LETTER && after.keys[LETTER] == L.AppShortcut
  {
    FirstEvents(s);
    ShortcutRun(s);
    ShortcutEnds(Run(s, BOTH, Tracks, LetterDown()));
  }

  /** A letter let go of while eight events are buffered: its release is lost. */
  lemma LetterLost(s: State)
    requires s.buffering && |s.buffer| == MAX_BUFFERED
    ensures Step(s, BOTH, Tracks, Key(LetterEvent(false), {Ctrl}))
         == s.(inputs := s.inputs + [LetterEvent(false)], fate := s.fate + [Lost])
  {
    ChordFacts();
  }

  /** Any other key then breaks the chord off, and the letter stays as it was. */
  lemma BreakKeepsLetter(s: State, other: KeyEvent)
    requires s.buffering && (forall i :: 0 <= i < |s.buffer| ==> s.buffer[i].key != LETTER)
    requires |s.inputs| == |s.fate| && |s.keys| > LETTER && L.Held(s.keys[LETTER])
    requires other.press && other.keysym.OtherKey? && other.key != LETTER
    ensures var after := Step(s, BOTH, Tracks, Key(other, {Ctrl}));
      && !after.buffering && after.switches == s.switches && after.inputs == s.inputs + [other]
      && after.fate == Settle(s.fate, Passed) + [Passed]
      && |after.keys| > LETTER && L.Held(after.keys[LETTER])
  {
    TracksTracks();
    BreakReplays(s, BOTH, Tracks, other, {Ctrl});
    RoutedHeldIff(Tracks, s.buffer + [other], s.keys, LETTER);
  }

  /**
   Ctrl and a letter down, four taps of Shift, the letter up, another key down: the
   release is lost, and the replay of the broken chord leaves the letter held.
   */
  lemma BrokenStuckExample(s: State, other: KeyEvent)
    requires Initial(s) && |s.keys| > LETTER
    requires other.press && other.keysym.OtherKey? && other.key != LETTER
    ensures var after := Run(s, BOTH, Tracks,
        Taps(LetterDown(), 4) + [Key(LetterEvent(false), {Ctrl})] + [Key(other, {Ctrl})]);
      && |after.inputs| == |after.fate| > 2
      && after.inputs[|after.inputs| - 2] == LetterEvent(false) && after.fate[|after.fate| - 2] == Lost
      && !after.buffering && after.switches == s.switches
      && |after.keys| > LETTER && L.Held(after.keys[LETTER])
  {
    FirstEvents(s);
    TapsFill(s, LetterDown(), 4);
    var i0 := Taps(LetterDown(), 4);
    RunSnoc(s, BOTH, Tracks, i0, Key(LetterEvent(false), {Ctrl}));
    RunSnoc(s, BOTH, Tracks, i0 + [Key(LetterEvent(false), {Ctrl})], Key(other, {Ctrl}));
    Conservation(s, BOTH, Tracks, i0);
    var full := Run(s, BOTH, Tracks, i0);
    LetterLost(full);
    BreakKeepsLetter(Step(full, BOTH, Tracks, Key(LetterEvent(false), {Ctrl})), other);
  }
}
