/**
 The key arbiter (src/wayland/keyboard/arbiter.c, policy/chords.c): key events that may
 belong to a modifier-only chord are held back, then either replayed downstream
 or consumed together.

 What the key router does with an event is not part of this model: it is any
 function on the tracked key states.  The physical modifiers are read at each
 call and are a parameter here.
 */
module KeyArbiter {
  import L = FocusLifecycle

  const MAX_BUFFERED: nat := 8

  datatype Modifier = Ctrl | Shift | Alt | Super

  const ALL: set<Modifier> := {Ctrl, Shift, Alt, Super}

  /** The left and right keys of a modifier are alike here. */
  datatype Keysym = ModifierKey(m: Modifier) | OtherKey(code: nat)

  datatype KeyEvent = KeyEvent(press: bool, key: nat, keysym: Keysym, modifiers: nat, unicode: nat, time: nat)

  // ---------------------------------------------------------------- policy

  /** typio_wl_shortcut_chord_is_switch_modifier */
  predicate IsChordKey(chord: set<Modifier>, k: Keysym) {
    k.ModifierKey? && k.m in chord
  }

  predicate ShouldStart(chord: set<Modifier>, k: Keysym, phys: set<Modifier>) {
    IsChordKey(chord, k) && chord <= phys && phys * (ALL - chord) == {}
  }

  predicate ChordComplete(chord: set<Modifier>, phys: set<Modifier>) {
    phys * chord == {}
  }

  predicate ShouldCancel(chord: set<Modifier>, k: Keysym, phys: set<Modifier>, press: bool) {
    (press && !IsChordKey(chord, k)) || phys * (ALL - chord) != {}
  }

  /** Buffering starts exactly with the press that makes the held modifiers equal to the chord. */
  lemma StartsWithExactChord(chord: set<Modifier>, k: Keysym, phys: set<Modifier>)
    ensures ShouldStart(chord, k, phys) <==> IsChordKey(chord, k) && phys == chord
  {
    if IsChordKey(chord, k) && chord <= phys && phys * (ALL - chord) == {} {
      forall m | m in phys
        ensures m in chord
      {
        assert m == Ctrl || m == Shift || m == Alt || m == Super;
        assert m !in phys * (ALL - chord);
      }
    }
    if phys == chord {
      assert phys * (ALL - chord) == {};
    }
  }

  // ---------------------------------------------------------------- the machine

  datatype Fate = Passed | Swallowed | Waiting | Lost

  /** The arbiter, the tracked keys, and the history of its inputs with what became of each. */
  datatype State = State(
    buffering: bool, buffer: seq<KeyEvent>, keys: seq<L.KeyState>,
    downstream: seq<KeyEvent>, releases: seq<nat>, switches: nat,
    inputs: seq<KeyEvent>, fate: seq<Fate>)

  type Router = (KeyEvent, seq<L.KeyState>) -> seq<L.KeyState>

  /** Whatever the router does, there are as many keys afterwards. */
  function Routed(route: Router, e: KeyEvent, keys: seq<L.KeyState>): (r: seq<L.KeyState>)
    ensures |r| == |keys|
  {
    var r := route(e, keys);
    if |r| == |keys| then r else keys
  }

  function RoutedAll(route: Router, es: seq<KeyEvent>, keys: seq<L.KeyState>): (r: seq<L.KeyState>)
    ensures |r| == |keys|
  {
    if es == [] then keys else Routed(route, es[|es| - 1], RoutedAll(route, es[..|es| - 1], keys))
  }

  /** All held events get another fate. */
  function Settle(fate: seq<Fate>, f: Fate): (r: seq<Fate>)
    ensures |r| == |fate|
    ensures forall i :: 0 <= i < |r| ==> r[i] == if fate[i] == Waiting then f else fate[i]
  {
    seq(|fate|, i requires 0 <= i < |fate| => if fate[i] == Waiting then f else fate[i])
  }

  /** typio_wl_keyboard_process_key_press and its counterpart for releases. */
  function Pass(s: State, route: Router, e: KeyEvent): State {
    s.(downstream := s.downstream + [e], keys := Routed(route, e, s.keys),
       inputs := s.inputs + [e], fate := s.fate + [Passed])
  }

  /** arbiter_replay */
  function Replay(s: State, route: Router): State {
    s.(buffering := false, buffer := [],
       downstream := s.downstream + s.buffer, keys := RoutedAll(route, s.buffer, s.keys),
       fate := Settle(s.fate, Passed))
  }

  /** arbiter_buffer_push */
  function Push(s: State, e: KeyEvent): State {
    if |s.buffer| >= MAX_BUFFERED
    then s.(inputs := s.inputs + [e], fate := s.fate + [Lost])
    else s.(buffer := s.buffer + [e], inputs := s.inputs + [e], fate := s.fate + [Waiting])
  }

  datatype Orphans = Orphans(keys: seq<L.KeyState>, sent: seq<nat>)

  /** arbiter_release_orphaned_keys */
  function ReleaseOrphans(buffer: seq<KeyEvent>, keys: seq<L.KeyState>): (r: Orphans)
    ensures |r.keys| == |keys|
  {
    if buffer == [] then Orphans(keys, [])
    else
      var n := |buffer| - 1;
      var r := ReleaseOrphans(buffer[..n], keys);
      var k := buffer[n].key;
      if buffer[n].press || k >= |keys| || r.keys[k] != L.Forwarded then r
      else Orphans(r.keys[k := L.Idle], r.sent + [k])
  }

  /** arbiter_consume */
  function Consume(s: State): State {
    var r := ReleaseOrphans(s.buffer, s.keys);
    s.(buffering := false, buffer := [], keys := r.keys, releases := s.releases + r.sent,
       switches := s.switches + 1, fate := Settle(s.fate, Swallowed))
  }

  /** typio_wl_key_arbiter_press */
  function Press(s: State, chord: set<Modifier>, route: Router, e: KeyEvent, phys: set<Modifier>): State {
    if !s.buffering then
      if ShouldStart(chord, e.keysym, phys) then Push(s.(buffering := true), e) else Pass(s, route, e)
    else if ShouldCancel(chord, e.keysym, phys, true) || |s.buffer| >= MAX_BUFFERED - 1 then
      Pass(Replay(s, route), route, e)
    else
      Push(s, e)
  }

  /** typio_wl_key_arbiter_release */
  function Release(s: State, chord: set<Modifier>, route: Router, e: KeyEvent, phys: set<Modifier>): State {
    if !s.buffering then Pass(s, route, e)
    else if ShouldCancel(chord, e.keysym, phys, false) then Pass(Replay(s, route), route, e)
    else if ChordComplete(chord, phys) then Consume(Push(s, e))
    else Push(s, e)
  }

  /** typio_wl_key_arbiter_reset */
  function Reset(s: State): State {
    s.(buffering := false, buffer := [], fate := Settle(s.fate, Swallowed))
  }

  /** A pause resets the arbiter and forgets the tracked keys. */
  datatype Input = Key(e: KeyEvent, phys: set<Modifier>) | Pause

  function AllIdle(n: nat): (r: seq<L.KeyState>)
    ensures |r| == n && forall k :: 0 <= k < n ==> r[k] == L.Idle
  {
    seq(n, _ => L.Idle)
  }

  function Step(s: State, chord: set<Modifier>, route: Router, i: Input): State {
    match i
    case Key(e, phys) => if e.press then Press(s, chord, route, e, phys) else Release(s, chord, route, e, phys)
    case Pause => Reset(s).(keys := AllIdle(|s.keys|))
  }

  function Run(s: State, chord: set<Modifier>, route: Router, inputs: seq<Input>): State {
    if inputs == [] then s
    else Step(Run(s, chord, route, inputs[..|inputs| - 1]), chord, route, inputs[|inputs| - 1])
  }

  predicate Initial(s: State) {
    !s.buffering && s.buffer == [] && s.downstream == [] && s.inputs == [] && s.fate == []
  }

  // ---------------------------------------------------------------- conservation

  /** The inputs with a given fate, in their order. */
  function Select(inputs: seq<KeyEvent>, fate: seq<Fate>, f: Fate): seq<KeyEvent>
    requires |inputs| == |fate|
  {
    if inputs == [] then []
    else
      var n := |inputs| - 1;
      Select(inputs[..n], fate[..n], f) + (if fate[n] == f then [inputs[n]] else [])
  }

  /** After a held event come only held and lost ones. */
  predicate HeldLast(fate: seq<Fate>) {
    forall i, j :: 0 <= i < j < |fate| && fate[i] == Waiting ==> fate[j] == Waiting || fate[j] == Lost
  }

  /**
   Every input has one fate; what went downstream and what is buffered are
   exactly the inputs with that fate, unchanged and in order.
   */
  predicate Accounted(s: State) {
    && |s.inputs| == |s.fate|
    && s.downstream == Select(s.inputs, s.fate, Passed)
    && s.buffer == Select(s.inputs, s.fate, Waiting)
    && HeldLast(s.fate)
  }

  /** Presses are never lost, and only chord modifiers are ever held or discarded as presses. */
  predicate PressesKept(s: State, chord: set<Modifier>) {
    |s.inputs| == |s.fate| &&
    forall i :: 0 <= i < |s.inputs| && s.inputs[i].press && s.fate[i] != Passed ==>
      s.fate[i] != Lost && IsChordKey(chord, s.inputs[i].keysym)
  }

  predicate Ok(s: State, chord: set<Modifier>) {
    && Accounted(s) && PressesKept(s, chord)
    && (s.buffering <==> |s.buffer| > 0) && |s.buffer| <= MAX_BUFFERED
  }

  lemma SelectSnoc(inputs: seq<KeyEvent>, fate: seq<Fate>, e: KeyEvent, g: Fate, f: Fate)
    requires |inputs| == |fate|
    ensures Select(inputs + [e], fate + [g], f) == Select(inputs, fate, f) + (if g == f then [e] else [])
  {
    assert (inputs + [e])[..|inputs|] == inputs && (fate + [g])[..|fate|] == fate;
  }

  lemma {:induction false} NoneSelected(inputs: seq<KeyEvent>, fate: seq<Fate>, f: Fate)
    requires |inputs| == |fate| && forall i :: 0 <= i < |fate| ==> fate[i] != f
    ensures Select(inputs, fate, f) == []
  {
    if inputs != [] {
      NoneSelected(inputs[..|inputs| - 1], fate[..|inputs| - 1], f);
    }
  }

  lemma SettlePrefix(fate: seq<Fate>, f: Fate, n: nat)
    requires n <= |fate|
    ensures Settle(fate, f)[..n] == Settle(fate[..n], f)
  {
  }

  /** Settling the held events appends them, in order, to those that already had the fate. */
  lemma {:induction false} SelectSettled(inputs: seq<KeyEvent>, fate: seq<Fate>, f: Fate)
    requires |inputs| == |fate| && HeldLast(fate) && (f == Passed || f == Swallowed)
    ensures Select(inputs, Settle(fate, f), f) == Select(inputs, fate, f) + Select(inputs, fate, Waiting)
  {
    if inputs != [] {
      var n := |inputs| - 1;
      var had, held, last := Select(inputs[..n], fate[..n], f), Select(inputs[..n], fate[..n], Waiting), [inputs[n]];
      SettlePrefix(fate, f, n);
      SelectSettled(inputs[..n], fate[..n], f);
      if fate[n] == f {
        NoneSelected(inputs[..n], fate[..n], Waiting);
        assert (had + []) + last == (had + last) + [];
      } else if fate[n] == Waiting {
        assert (had + held) + last == had + (held + last);
      }
    }
  }

  /** Settling leaves the other fates alone and no event held. */
  lemma {:induction false} SelectOthers(inputs: seq<KeyEvent>, fate: seq<Fate>, f: Fate, g: Fate)
    requires |inputs| == |fate| && f != Waiting && g != f
    ensures Select(inputs, Settle(fate, f), g) == if g == Waiting then [] else Select(inputs, fate, g)
  {
    if inputs != [] {
      var n := |inputs| - 1;
      SettlePrefix(fate, f, n);
      SelectOthers(inputs[..n], fate[..n], f, g);
    }
  }

  lemma PassKeeps(s: State, chord: set<Modifier>, route: Router, e: KeyEvent)
    requires Ok(s, chord) && !s.buffering
    ensures Ok(Pass(s, route, e), chord)
  {
    SelectSnoc(s.inputs, s.fate, e, Passed, Passed);
    SelectSnoc(s.inputs, s.fate, e, Passed, Waiting);
    HeldMeansBuffered(s.inputs, s.fate);
  }

  /** A held event is in the buffer, so an empty buffer means that none is held. */
  lemma {:induction false} HeldMeansBuffered(inputs: seq<KeyEvent>, fate: seq<Fate>)
    requires |inputs| == |fate| && Select(inputs, fate, Waiting) == []
    ensures forall i :: 0 <= i < |fate| ==> fate[i] != Waiting
  {
    if inputs != [] {
      var n := |inputs| - 1;
      HeldMeansBuffered(inputs[..n], fate[..n]);
      assert forall i :: 0 <= i < n ==> fate[..n][i] == fate[i];
    }
  }

  lemma ReplayKeeps(s: State, chord: set<Modifier>, route: Router)
    requires Ok(s, chord)
    ensures Ok(Replay(s, route), chord) && !Replay(s, route).buffering
  {
    SelectSettled(s.inputs, s.fate, Passed);
    SelectOthers(s.inputs, s.fate, Passed, Waiting);
  }

  /** Consuming and resetting both discard what is held. */
  lemma DiscardKeeps(s: State, chord: set<Modifier>)
    requires Ok(s, chord)
    ensures Ok(Reset(s), chord) && Ok(Consume(s), chord)
  {
    SelectOthers(s.inputs, s.fate, Swallowed, Passed);
    SelectOthers(s.inputs, s.fate, Swallowed, Waiting);
  }

  lemma PushKeeps(s: State, chord: set<Modifier>, e: KeyEvent)
    requires Accounted(s) && PressesKept(s, chord) && |s.buffer| <= MAX_BUFFERED && s.buffering
    requires e.press ==> IsChordKey(chord, e.keysym) && |s.buffer| < MAX_BUFFERED
    ensures Ok(Push(s, e), chord)
  {
    var g := if |s.buffer| >= MAX_BUFFERED then Lost else Waiting;
    SelectSnoc(s.inputs, s.fate, e, g, Passed);
    SelectSnoc(s.inputs, s.fate, e, g, Waiting);
  }

  lemma PressKeeps(s: State, chord: set<Modifier>, route: Router, e: KeyEvent, phys: set<Modifier>)
    requires Ok(s, chord) && e.press
    ensures Ok(Press(s, chord, route, e, phys), chord)
  {
    if !s.buffering {
      if ShouldStart(chord, e.keysym, phys) {
        PushKeeps(s.(buffering := true), chord, e);
      } else {
        PassKeeps(s, chord, route, e);
      }
    } else if ShouldCancel(chord, e.keysym, phys, true) || |s.buffer| >= MAX_BUFFERED - 1 {
      ReplayKeeps(s, chord, route);
      PassKeeps(Replay(s, route), chord, route, e);
    } else {
      PushKeeps(s, chord, e);
    }
  }

  lemma ReleaseKeeps(s: State, chord: set<Modifier>, route: Router, e: KeyEvent, phys: set<Modifier>)
    requires Ok(s, chord) && !e.press
    ensures Ok(Release(s, chord, route, e, phys), chord)
  {
    if !s.buffering {
      PassKeeps(s, chord, route, e);
    } else if ShouldCancel(chord, e.keysym, phys, false) {
      ReplayKeeps(s, chord, route);
      PassKeeps(Replay(s, route), chord, route, e);
    } else {
      PushKeeps(s, chord, e);
      DiscardKeeps(Push(s, e), chord);
    }
  }

  lemma StepKeeps(s: State, chord: set<Modifier>, route: Router, i: Input)
    requires Ok(s, chord)
    ensures Ok(Step(s, chord, route, i), chord)
  {
    match i {
      case Key(e, phys) =>
        if e.press {
          PressKeeps(s, chord, route, e, phys);
        } else {
          ReleaseKeeps(s, chord, route, e, phys);
        }
      case Pause => DiscardKeeps(s, chord);
    }
  }

  /**
   Conservation over every run: each input event was passed downstream, discarded
   by a consumed chord or a reset, is still buffered, or was a release that met a
   full buffer; downstream and buffer hold theirs unchanged and in order; no press
   is lost; no press but of a chord modifier is swallowed; and the arbiter is
   buffering exactly while its buffer holds something.
   */
  lemma {:induction false} Conservation(s: State, chord: set<Modifier>, route: Router, inputs: seq<Input>)
    requires Initial(s)
    ensures Ok(Run(s, chord, route, inputs), chord)
  {
    if inputs != [] {
      var before := inputs[..|inputs| - 1];
      Conservation(s, chord, route, before);
      StepKeeps(Run(s, chord, route, before), chord, route, inputs[|inputs| - 1]);
    }
  }

  /** An event is lost exactly if it is a release that goes on with a chord while eight events are buffered. */
  lemma LostIff(s: State, chord: set<Modifier>, route: Router, e: KeyEvent, phys: set<Modifier>)
    requires Ok(s, chord)
    ensures var after := Step(s, chord, route, Key(e, phys));
      && |after.fate| == |s.fate| + 1 && after.inputs == s.inputs + [e]
      && (forall i :: 0 <= i < |s.fate| && after.fate[i] == Lost ==> s.fate[i] == Lost)
      && (after.fate[|s.fate|] == Lost <==>
            !e.press && s.buffering && !ShouldCancel(chord, e.keysym, phys, false) && |s.buffer| == MAX_BUFFERED)
  {
    if e.press {
      PressNeverLost(s, chord, route, e, phys);
    } else if s.buffering && !ShouldCancel(chord, e.keysym, phys, false) {
      var pushed := Push(s, e);
      assert pushed.fate == s.fate + [if |s.buffer| == MAX_BUFFERED then Lost else Waiting];
      assert Settle(pushed.fate, Swallowed)[|s.fate|] == Lost <==> pushed.fate[|s.fate|] == Lost;
    }
  }

  lemma PressNeverLost(s: State, chord: set<Modifier>, route: Router, e: KeyEvent, phys: set<Modifier>)
    requires Ok(s, chord)
    ensures var after := Press(s, chord, route, e, phys);
      && |after.fate| == |s.fate| + 1 && after.inputs == s.inputs + [e] && after.fate[|s.fate|] != Lost
      && forall i :: 0 <= i < |s.fate| && after.fate[i] == Lost ==> s.fate[i] == Lost
  {
  }

  // ---------------------------------------------------------------- when the chord switches

  /** An input that does not break off a chord. */
  predicate Clean(i: Input, chord: set<Modifier>) {
    i.Key? && !ShouldCancel(chord, i.e.keysym, i.phys, i.e.press)
  }

  /** Input `j` pressed a chord key while exactly the chord was held, and nothing broke it off since. */
  ghost predicate ChordSince(inputs: seq<Input>, chord: set<Modifier>, j: nat) {
    && j < |inputs| && inputs[j].Key? && inputs[j].e.press
    && IsChordKey(chord, inputs[j].e.keysym) && inputs[j].phys == chord
    && forall k :: j < k < |inputs| ==> Clean(inputs[k], chord)
  }

  lemma {:induction false} BufferingSince(s: State, chord: set<Modifier>, route: Router, inputs: seq<Input>)
    requires Initial(s) && Run(s, chord, route, inputs).buffering
    ensures exists j: nat :: ChordSince(inputs, chord, j)
  {
    var n := |inputs| - 1;
    var before, i := inputs[..n], inputs[n];
    if Run(s, chord, route, before).buffering {
      BufferingSince(s, chord, route, before);
      var j: nat :| ChordSince(before, chord, j);
      assert forall k :: 0 <= k < n ==> before[k] == inputs[k];
      assert ChordSince(inputs, chord, j);
    } else {
      StartsWithExactChord(chord, i.e.keysym, i.phys);
      assert ChordSince(inputs, chord, n);
    }
  }

  /**
   The language is switched exactly by the release that lets go of the last chord
   modifier, and only if at some earlier press exactly the chord was held and
   since then no other key was pressed and no other modifier held.
   */
  lemma SwitchOnlyByChord(s: State, chord: set<Modifier>, route: Router, inputs: seq<Input>, i: Input)
    requires Initial(s)
    ensures var before := Run(s, chord, route, inputs);
      var after := Run(s, chord, route, inputs + [i]);
      && (after.switches != before.switches <==>
            before.buffering && Clean(i, chord) && !i.e.press && ChordComplete(chord, i.phys))
      && (after.switches != before.switches ==>
            after.switches == before.switches + 1 && exists j: nat :: ChordSince(inputs, chord, j))
  {
    assert (inputs + [i])[..|inputs|] == inputs;
    if Run(s, chord, route, inputs).buffering {
      BufferingSince(s, chord, route, inputs);
    }
  }

  // told from the events and the held modifiers alone

  predicate IsPressOf(i: Input, chord: set<Modifier>) {
    i.Key? && i.e.press && i.e.keysym.ModifierKey? && i.e.keysym.m in chord
  }

  /** A press of a chord key or any release, with no modifier held that is not of the chord. */
  predicate Continues(i: Input, chord: set<Modifier>) {
    i.Key? && (i.e.press ==> IsPressOf(i, chord)) && i.phys <= chord
  }

  /** A release after which no modifier of the chord is held. */
  predicate LetsGoOfAll(i: Input, chord: set<Modifier>) {
    i.Key? && !i.e.press && forall m :: m in chord ==> m !in i.phys
  }

  lemma PolicyMeans(i: Input, chord: set<Modifier>)
    requires i.Key?
    ensures Clean(i, chord) <==> Continues(i, chord)
    ensures !i.e.press && ChordComplete(chord, i.phys) <==> LetsGoOfAll(i, chord)
    ensures i.e.press && ShouldStart(chord, i.e.keysym, i.phys) <==> IsPressOf(i, chord) && i.phys == chord
  {
    OthersHeld(chord, i.phys);
    if i.e.press {
      StartsWithExactChord(chord, i.e.keysym, i.phys);
    }
    if forall m :: m in chord ==> m !in i.phys {
      assert i.phys * chord == {};
    }
    assert forall m :: m in chord && m in i.phys ==> m in i.phys * chord;
  }

  lemma OthersHeld(chord: set<Modifier>, phys: set<Modifier>)
    ensures phys * (ALL - chord) == {} <==> phys <= chord
  {
    forall m: Modifier
      ensures m in ALL
    {
      assert m == Ctrl || m == Shift || m == Alt || m == Super;
    }
    assert forall m :: m in phys && m !in chord ==> m in phys * (ALL - chord);
  }

  /**
   A switch over any run: a release left no chord modifier held, and before it exactly
   the chord had been held and nothing else since.
   */
  lemma SwitchMeans(s: State, chord: set<Modifier>, route: Router, inputs: seq<Input>, i: Input)
    requires Initial(s) && Run(s, chord, route, inputs + [i]).switches != Run(s, chord, route, inputs).switches
    ensures LetsGoOfAll(i, chord) && Continues(i, chord)
    ensures exists j: nat :: j < |inputs| && IsPressOf(inputs[j], chord) && inputs[j].phys == chord
                             && forall k :: j < k < |inputs| ==> Continues(inputs[k], chord)
  {
    SwitchOnlyByChord(s, chord, route, inputs, i);
    PolicyMeans(i, chord);
    var j: nat :| ChordSince(inputs, chord, j);
    PolicyMeans(inputs[j], chord);
    forall k | j < k < |inputs|
      ensures Continues(inputs[k], chord)
    {
      PolicyMeans(inputs[k], chord);
    }
  }

  /**
   And a chord does switch: from an arbiter that is not buffering, a press that completes
   the chord, up to six events that continue without letting go of it, and a release
   that lets go of it all.
   */
  lemma ChordSwitches(s: State, chord: set<Modifier>, route: Router, before: seq<Input>, start: Input,
                      middle: seq<Input>, end: Input)
    requires !Run(s, chord, route, before).buffering && Run(s, chord, route, before).buffer == []
    requires IsPressOf(start, chord) && start.phys == chord && |middle| <= 6
    requires forall k :: 0 <= k < |middle| ==> Continues(middle[k], chord) && !LetsGoOfAll(middle[k], chord)
    requires Continues(end, chord) && LetsGoOfAll(end, chord)
    ensures var was := Run(s, chord, route, before);
      var now := Run(s, chord, route, before + [start] + middle + [end]);
      now.switches == was.switches + 1 && now.downstream == was.downstream && !now.buffering
  {
    var head := before + [start];
    ChordStarts(s, chord, route, before, start);
    MiddleHolds(s, chord, route, head, middle);
    PolicyMeans(end, chord);
    RunSnoc(s, chord, route, head + middle, end);
  }

  lemma RunSnoc(s: State, chord: set<Modifier>, route: Router, inputs: seq<Input>, i: Input)
    ensures Run(s, chord, route, inputs + [i]) == Step(Run(s, chord, route, inputs), chord, route, i)
  {
    assert (inputs + [i])[..|inputs|] == inputs;
  }

  lemma ChordStarts(s: State, chord: set<Modifier>, route: Router, before: seq<Input>, start: Input)
    requires !Run(s, chord, route, before).buffering && Run(s, chord, route, before).buffer == []
    requires IsPressOf(start, chord) && start.phys == chord
    ensures var was := Run(s, chord, route, before);
      var now := Run(s, chord, route, before + [start]);
      now.buffering && |now.buffer| == 1 && now.switches == was.switches && now.downstream == was.downstream
  {
    PolicyMeans(start, chord);
    RunSnoc(s, chord, route, before, start);
  }

  lemma {:induction false} MiddleHolds(s: State, chord: set<Modifier>, route: Router, head: seq<Input>,
                                       middle: seq<Input>)
    requires Run(s, chord, route, head).buffering && |Run(s, chord, route, head).buffer| == 1 && |middle| <= 6
    requires forall k :: 0 <= k < |middle| ==> Continues(middle[k], chord) && !LetsGoOfAll(middle[k], chord)
    ensures var was := Run(s, chord, route, head);
      var now := Run(s, chord, route, head + middle);
      && now.buffering && |now.buffer| == 1 + |middle|
      && now.switches == was.switches && now.downstream == was.downstream
  {
    if middle == [] {
      assert head + middle == head;
    } else {
      var n := |middle| - 1;
      MiddleHolds(s, chord, route, head, middle[..n]);
      HoldsOn(Run(s, chord, route, head + middle[..n]), chord, route, middle[n]);
      RunSnoc(s, chord, route, head + middle[..n], middle[n]);
      assert head + middle[..n] + [middle[n]] == head + middle;
    }
  }

  lemma HoldsOn(s: State, chord: set<Modifier>, route: Router, i: Input)
    requires s.buffering && |s.buffer| < MAX_BUFFERED - 1 && Continues(i, chord) && !LetsGoOfAll(i, chord)
    ensures Step(s, chord, route, i) == Push(s, i.e)
  {
    PolicyMeans(i, chord);
  }

  /** A pause discards what is held and forgets every key, but passes, releases and switches nothing. */
  lemma PauseForgets(s: State, chord: set<Modifier>, route: Router)
    ensures var after := Step(s, chord, route, Pause);
      && !after.buffering && after.buffer == [] && |after.keys| == |s.keys| && |after.fate| == |s.fate|
      && (forall k :: 0 <= k < |s.keys| ==> after.keys[k] == L.Idle)
      && (forall i :: 0 <= i < |s.fate| ==>
            after.fate[i] == if s.fate[i] == Waiting then Swallowed else s.fate[i])
      && after.inputs == s.inputs && after.downstream == s.downstream
      && after.releases == s.releases && after.switches == s.switches
  {
  }

  // ---------------------------------------------------------------- a consumed chord

  /** The release of key `k` is in the buffer. */
  predicate ReleaseHeld(buffer: seq<KeyEvent>, k: nat) {
    exists i :: 0 <= i < |buffer| && !buffer[i].press && buffer[i].key == k
  }

  predicate NoRepeats(s: seq<nat>) {
    forall i, j :: 0 <= i < j < |s| ==> s[i] != s[j]
  }

  /** Exactly the forwarded keys whose release was held back get one release each and become idle. */
  lemma {:induction false} OrphansReleasedOnce(buffer: seq<KeyEvent>, keys: seq<L.KeyState>)
    ensures var r := ReleaseOrphans(buffer, keys);
      && NoRepeats(r.sent)
      && (forall i :: 0 <= i < |r.sent| ==> r.sent[i] < |keys| && r.keys[r.sent[i]] == L.Idle)
      && forall k: nat :: k < |keys| ==>
           (k in r.sent <==> keys[k] == L.Forwarded && ReleaseHeld(buffer, k))
           && r.keys[k] == if k in r.sent then L.Idle else keys[k]
  {
    if buffer != [] {
      var n := |buffer| - 1;
      OrphansReleasedOnce(buffer[..n], keys);
      forall k: nat
        ensures ReleaseHeld(buffer, k) <==> ReleaseHeld(buffer[..n], k) || (!buffer[n].press && buffer[n].key == k)
      {
        ReleaseHeldSnoc(buffer, k);
      }
    }
  }

  lemma ReleaseHeldSnoc(buffer: seq<KeyEvent>, k: nat)
    requires buffer != []
    ensures var n := |buffer| - 1;
      ReleaseHeld(buffer, k) <==> ReleaseHeld(buffer[..n], k) || (!buffer[n].press && buffer[n].key == k)
  {
    var n := |buffer| - 1;
    if ReleaseHeld(buffer[..n], k) {
      var i :| 0 <= i < n && !buffer[..n][i].press && buffer[..n][i].key == k;
      assert buffer[i] == buffer[..n][i];
    }
    if ReleaseHeld(buffer, k) {
      var i :| 0 <= i < |buffer| && !buffer[i].press && buffer[i].key == k;
      if i < n {
        assert buffer[..n][i] == buffer[i];
      }
    }
  }

  /**
   When the chord completes, a forwarded key stays stuck exactly when its release
   is neither buffered nor the completing event, or that event met a full buffer.
   */
  lemma StuckIff(s: State, chord: set<Modifier>, route: Router, e: KeyEvent, phys: set<Modifier>, k: nat)
    requires s.buffering && !e.press && !ShouldCancel(chord, e.keysym, phys, false) && ChordComplete(chord, phys)
    requires k < |s.keys| && s.keys[k] == L.Forwarded
    ensures Release(s, chord, route, e, phys).keys[k] == L.Forwarded
      <==> !ReleaseHeld(s.buffer, k) && (e.key != k || |s.buffer| >= MAX_BUFFERED)
  {
    OrphansReleasedOnce(Push(s, e).buffer, s.keys);
    if |s.buffer| < MAX_BUFFERED {
      assert (s.buffer + [e])[..|s.buffer|] == s.buffer;
      ReleaseHeldSnoc(s.buffer + [e], k);
    }
  }
}
