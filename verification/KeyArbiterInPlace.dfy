/**
 The key arbiter in place: its buffer of eight events and the tracked key states
 are arrays that the methods write, each as its counterpart in KeyArbiter.dfy says.
 */
module KeyArbiterInPlace {
  import L = FocusLifecycle
  import opened A = KeyArbiter

  /** The arbiter with its buffer of eight and the key states it shares with the tracker. */
  class Arbiter {
    const chord: set<Modifier>
    const route: Router
    const buffer: array<KeyEvent>
    const tracked: array<L.KeyState>
    var buffering: bool
    var count: nat
    ghost var downstream: seq<KeyEvent>
    ghost var releases: seq<nat>
    ghost var switches: nat
    ghost var inputs: seq<KeyEvent>
    ghost var fate: seq<Fate>

    ghost predicate Valid()
      reads this
    {
      buffer.Length == MAX_BUFFERED && count <= MAX_BUFFERED
    }

    ghost function View(): State
      requires Valid()
      reads this, buffer, tracked
    {
      State(buffering, buffer[..count], tracked[..], downstream, releases, switches, inputs, fate)
    }

    /** typio_wl_key_arbiter_init */
    constructor (chord: set<Modifier>, route: Router, tracked: array<L.KeyState>)
      ensures Valid() && Initial(View()) && fresh(buffer)
      ensures this.chord == chord && this.route == route && this.tracked == tracked
    {
      this.chord, this.route, this.tracked := chord, route, tracked;
      buffer := new KeyEvent[MAX_BUFFERED](_ => KeyEvent(false, 0, OtherKey(0), 0, 0, 0));
      buffering, count := false, 0;
      downstream, releases, switches, inputs, fate := [], [], 0, [], [];
    }

    /** What the router makes of one event. */
    method RouteKey(e: KeyEvent)
      modifies tracked
      ensures tracked[..] == Routed(route, e, old(tracked[..]))
    {
      var after := Routed(route, e, tracked[..]);
      forall k | 0 <= k < tracked.Length {
        tracked[k] := after[k];
      }
    }

    method Pass(e: KeyEvent)
      requires Valid()
      modifies `downstream, `inputs, `fate, tracked
      ensures Valid() && View() == A.Pass(old(View()), route, e)
    {
      RouteKey(e);
      downstream, inputs, fate := downstream + [e], inputs + [e], fate + [Passed];
    }

    method Push(e: KeyEvent)
      requires Valid()
      modifies `count, `inputs, `fate, buffer
      ensures Valid() && View() == A.Push(old(View()), e)
    {
      inputs := inputs + [e];
      fate := fate + [if count >= MAX_BUFFERED then Lost else Waiting];
      if count >= MAX_BUFFERED {
        return;
      }
      buffer[count] := e;
      count := count + 1;
      assert buffer[..count] == old(buffer[..count]) + [e];
    }

    method Replay()
      requires Valid()
      modifies `buffering, `count, `downstream, `fate, tracked
      ensures Valid() && View() == A.Replay(old(View()), route)
    {
      ghost var held := buffer[..count];
      ghost var before := tracked[..];
      var i := 0;
      while i < count
        invariant i <= count == |held| && buffer[..count] == held
        invariant tracked[..] == RoutedAll(route, held[..i], before)
        invariant downstream == old(downstream) + held[..i]
        invariant fate == old(fate)
      {
        assert held[..i + 1][..i] == held[..i] && held[i] == buffer[i];
        RouteKey(buffer[i]);
        downstream := downstream + [buffer[i]];
        i := i + 1;
      }
      assert held[..i] == held;
      fate := Settle(fate, Passed);
      count := 0;
      buffering := false;
    }

    method ReleaseOrphanedKeys()
      requires Valid()
      modifies `releases, tracked
      ensures var r := ReleaseOrphans(buffer[..count], old(tracked[..]));
        tracked[..] == r.keys && releases == old(releases) + r.sent
    {
      ghost var held := buffer[..count];
      ghost var before := tracked[..];
      var i := 0;
      while i < count
        invariant i <= count && buffer[..count] == held
        invariant tracked[..] == ReleaseOrphans(held[..i], before).keys
        invariant releases == old(releases) + ReleaseOrphans(held[..i], before).sent
      {
        assert held[..i + 1][..i] == held[..i] && held[i] == buffer[i];
        var e := buffer[i];
        if !e.press && e.key < tracked.Length {
          if tracked[e.key] == L.Forwarded {
            releases := releases + [e.key];
            tracked[e.key] := L.Idle;
          }
        }
        i := i + 1;
      }
      assert held[..i] == held;
    }

    /**
     arbiter_consume: the held events are discarded, and exactly the forwarded keys whose
     release was among them are released, once each; every input stays accounted for.
     */
    method Consume()
      requires Valid()
      modifies `buffering, `count, `releases, `switches, `fate, tracked
      ensures Valid() && View() == A.Consume(old(View()))
      ensures forall k: nat :: k < tracked.Length ==>
        tracked[k] == if old(tracked[k] == L.Forwarded && ReleaseHeld(buffer[..count], k)) then L.Idle
                      else old(tracked[k])
      ensures Ok(old(View()), chord) ==> Ok(View(), chord) && !buffering
    {
      OrphansReleasedOnce(buffer[..count], tracked[..]);
      if Ok(View(), chord) {
        DiscardKeeps(View(), chord);
      }
      ReleaseOrphanedKeys();
      switches := switches + 1;
      fate := Settle(fate, Swallowed);
      count := 0;
      buffering := false;
    }

    /** typio_wl_key_arbiter_reset: no event stays held, and every input stays accounted for. */
    method Reset()
      requires Valid()
      modifies `buffering, `count, `fate
      ensures Valid() && View() == A.Reset(old(View()))
      ensures Waiting !in fate && (Ok(old(View()), chord) ==> Ok(View(), chord))
    {
      if Ok(View(), chord) {
        DiscardKeeps(View(), chord);
      }
      fate := Settle(fate, Swallowed);
      count := 0;
      buffering := false;
    }

    /** The tracker's reset in a pause. */
    method ForgetKeys()
      modifies tracked
      ensures tracked[..] == AllIdle(tracked.Length)
    {
      var k := 0;
      while k < tracked.Length
        invariant k <= tracked.Length && forall j :: 0 <= j < k ==> tracked[j] == L.Idle
      {
        tracked[k] := L.Idle;
        k := k + 1;
      }
    }

    /** typio_wl_key_arbiter_press: a press is never lost, and every input stays accounted for. */
    method Press(e: KeyEvent, phys: set<Modifier>)
      requires Valid()
      modifies this, buffer, tracked
      ensures Valid() && View() == A.Press(old(View()), chord, route, e, phys)
      ensures e.press && Ok(old(View()), chord) ==>
        Ok(View(), chord) && inputs == old(inputs) + [e] && fate[|fate| - 1] != Lost
    {
      if e.press && Ok(View(), chord) {
        PressKeeps(View(), chord, route, e, phys);
        PressNeverLost(View(), chord, route, e, phys);
      }
      if !buffering {
        if ShouldStart(chord, e.keysym, phys) {
          buffering := true;
          Push(e);
        } else {
          Pass(e);
        }
      } else if ShouldCancel(chord, e.keysym, phys, true) || count >= MAX_BUFFERED - 1 {
        Replay();
        Pass(e);
      } else {
        Push(e);
      }
    }

    /** typio_wl_key_arbiter_release: lost exactly if it goes on with a chord while the buffer is full. */
    method Release(e: KeyEvent, phys: set<Modifier>)
      requires Valid()
      modifies this, buffer, tracked
      ensures Valid() && View() == A.Release(old(View()), chord, route, e, phys)
      ensures !e.press && Ok(old(View()), chord) ==>
        Ok(View(), chord) && inputs == old(inputs) + [e]
        && (fate[|fate| - 1] == Lost <==>
              old(buffering && count == MAX_BUFFERED) && !ShouldCancel(chord, e.keysym, phys, false))
    {
      if !e.press && Ok(View(), chord) {
        ReleaseKeeps(View(), chord, route, e, phys);
        LostIff(View(), chord, route, e, phys);
      }
      if !buffering {
        Pass(e);
      } else if ShouldCancel(chord, e.keysym, phys, false) {
        Replay();
        Pass(e);
      } else {
        Push(e);
        if ChordComplete(chord, phys) {
          Consume();
        }
      }
    }

    /** One input event, or the reset by a pause. */
    method Handle(i: Input)
      requires Valid()
      modifies this, buffer, tracked
      ensures Valid() && View() == A.Step(old(View()), chord, route, i)
    {
      match i {
        case Key(e, phys) =>
          if e.press {
            Press(e, phys);
          } else {
            Release(e, phys);
          }
        case Pause =>
          Reset();
          ForgetKeys();
      }
    }

    /** From a fresh arbiter on, every input is accounted for. */
    method HandleAll(es: seq<Input>)
      requires Valid() && Initial(View())
      modifies this, buffer, tracked
      ensures Valid() && View() == A.Run(old(View()), chord, route, es) && Ok(View(), chord)
    {
      var i := 0;
      while i < |es|
        invariant i <= |es| && Valid() && View() == A.Run(old(View()), chord, route, es[..i])
      {
        assert es[..i + 1][..i] == es[..i];
        Handle(es[i]);
        i := i + 1;
      }
      assert es[..i] == es;
      Conservation(old(View()), chord, route, es);
    }
  }
}
