/**
 Deferred freeing of geometries and shapes (src/ui/panel/surface.c): a ring of three
 growable slots indexed by the count of successful presents.

 Every retired pointer gets a number.  Its fate is history: where it is parked, or
 how it came to be freed: how many presents succeeded since it was retired,
 whether the device was idle in between, and whether there was anything to
 present on at all.
 */
module PanelRetire {
  const DEPTH: nat := 3
  const SLOT_MAX: nat := 256

  datatype Slot = Slot(items: seq<nat>, cap: nat)

  datatype Fate =
    | Parked(slot: nat, i: nat)
    | Freed(presents: nat, idled: bool, onScreen: bool)

  /** When a pointer was retired: the count of presents and the position among retirements and device waits. */
  datatype Birth = Birth(epoch: nat, moment: nat)

  /** Not freed under the GPU: three presents succeeded since, or the device idled, or nothing was ever on screen. */
  predicate Safe(f: Fate) {
    f.Freed? ==> f.presents >= DEPTH || f.idled || !f.onScreen
  }

  /** The fates of what a slot holds say so, and no others. */
  ghost predicate Tracked(slots: seq<Slot>, fate: seq<Fate>) {
    && (forall k, i {:trigger slots[k].items[i]} :: 0 <= k < |slots| && 0 <= i < |slots[k].items| ==>
          slots[k].items[i] < |fate| && fate[slots[k].items[i]] == Parked(k, i))
    && (forall id :: 0 <= id < |fate| && fate[id].Parked? ==>
          fate[id].slot < |slots| && fate[id].i < |slots[fate[id].slot].items|
          && slots[fate[id].slot].items[fate[id].i] == id)
  }

  /** A parked pointer waits in the slot of its epoch, for at most two more presents. */
  ghost predicate OnTime(birth: seq<Birth>, fate: seq<Fate>, epoch: nat) {
    |birth| == |fate| && forall id :: 0 <= id < |fate| && fate[id].Parked? ==>
      birth[id].epoch <= epoch < birth[id].epoch + DEPTH && fate[id].slot == birth[id].epoch % DEPTH
  }

  /** No parked pointer was retired after `epoch`. */
  ghost predicate BornBy(birth: seq<Birth>, fate: seq<Fate>, epoch: nat) {
    |birth| == |fate| && forall id :: 0 <= id < |fate| && fate[id].Parked? ==> birth[id].epoch <= epoch
  }

  ghost predicate AllSafe(fate: seq<Fate>) {
    forall id :: 0 <= id < |fate| ==> Safe(fate[id])
  }

  /** What freeing a slot does to the fates. */
  function Drained(fate: seq<Fate>, birth: seq<Birth>, k: nat, epoch: nat, lastIdle: nat, n: nat): (r: seq<Fate>)
    requires BornBy(birth, fate, epoch)
    ensures |r| == |fate|
    ensures forall id {:trigger r[id]} :: 0 <= id < |r| ==>
      r[id] == if fate[id].Parked? && fate[id].slot == k && fate[id].i < n
               then Freed(epoch - birth[id].epoch, lastIdle > birth[id].moment, true)
               else fate[id]
  {
    seq(|fate|, id requires 0 <= id < |fate| =>
      if fate[id].Parked? && fate[id].slot == k && fate[id].i < n
      then Freed(epoch - birth[id].epoch, lastIdle > birth[id].moment, true) else fate[id])
  }

  /** A slot that has to grow for the next pointer; a slot at the limit is drained instead. */
  predicate Full(s: Slot) {
    |s.items| == s.cap < SLOT_MAX
  }

  predicate WasParked(f: Fate, k: nat) {
    f.Parked? && f.slot == k
  }

  predicate IdleFreed(f: Fate) {
    f.Freed? && f.idled
  }

  /** Exactly what was retired three presents before `epoch` is freed between the two fates. */
  ghost predicate Advanced(before: seq<Fate>, after: seq<Fate>, birth: seq<Birth>, epoch: nat, lastIdle: nat) {
    && |after| == |before| == |birth|
    && forall id {:trigger after[id]} :: 0 <= id < |after| ==>
         after[id] == if before[id].Parked? && birth[id].epoch + DEPTH == epoch
                      then Freed(DEPTH, lastIdle > birth[id].moment, true) else before[id]
  }

  /** The slot that a present turns to holds what was retired three presents ago. */
  lemma NextSlot(epoch: nat, born: nat)
    requires born <= epoch < born + DEPTH
    ensures (epoch + 1) % DEPTH == born % DEPTH <==> epoch + 1 == born + DEPTH
  {
  }

  lemma PresentFrees(slots: seq<Slot>, fate: seq<Fate>, birth: seq<Birth>, epoch: nat, lastIdle: nat)
    requires |slots| == DEPTH && Tracked(slots, fate) && OnTime(birth, fate, epoch) && AllSafe(fate)
    ensures BornBy(birth, fate, epoch + 1)
    ensures var k := (epoch + 1) % DEPTH;
      var after := Drained(fate, birth, k, epoch + 1, lastIdle, |slots[k].items|);
      && OnTime(birth, after, epoch + 1) && AllSafe(after) && Advanced(fate, after, birth, epoch + 1, lastIdle)
  {
    forall id | 0 <= id < |fate| && fate[id].Parked?
      ensures fate[id].slot == (epoch + 1) % DEPTH <==> epoch + 1 == birth[id].epoch + DEPTH
    {
      NextSlot(epoch, birth[id].epoch);
    }
  }

  lemma DrainedTracked(slots: seq<Slot>, fate: seq<Fate>, birth: seq<Birth>, k: nat, epoch: nat, lastIdle: nat,
                       cap: nat)
    requires Tracked(slots, fate) && k < |slots| && BornBy(birth, fate, epoch)
    ensures Tracked(slots[k := Slot([], cap)], Drained(fate, birth, k, epoch, lastIdle, |slots[k].items|))
  {
  }

  lemma AppendTracked(slots: seq<Slot>, fate: seq<Fate>, k: nat)
    requires Tracked(slots, fate) && k < |slots|
    ensures Tracked(slots[k := slots[k].(items := slots[k].items + [|fate|])], fate + [Parked(k, |slots[k].items|)])
  {
  }

  class RetireRing {
    const slots: array<Slot>
    var presentEpoch: nat
    var ready: bool
    /** Pointers retired so far; they are numbered in this order. */
    var retired: nat
    ghost var fate: seq<Fate>
    ghost var birth: seq<Birth>
    /** Retirements and device waits so far, and the position of the last wait. */
    ghost var moment: nat
    ghost var lastIdle: nat

    ghost predicate Valid()
      reads this, slots
    {
      && Shaped()
      && OnTime(birth, fate, presentEpoch) && AllSafe(fate)
      && (!ready ==> forall id :: 0 <= id < |fate| ==> fate[id].Freed?)
    }

    ghost predicate Shaped()
      reads this, slots
    {
      && slots.Length == DEPTH
      && (forall k :: 0 <= k < DEPTH ==> |slots[k].items| <= slots[k].cap <= SLOT_MAX)
      && Tracked(slots[..], fate)
      && |birth| == |fate| == retired
      && lastIdle <= moment && forall id :: 0 <= id < |birth| ==> birth[id].moment <= moment
    }

    constructor ()
      ensures Valid() && fresh(slots) && fate == [] && presentEpoch == 0 && !ready
    {
      slots := new Slot[DEPTH](_ => Slot([], 0));
      presentEpoch, ready, retired := 0, false, 0;
      fate, birth, moment, lastIdle := [], [], 0, 0;
    }

    /** flux_device_wait_idle: everything retired so far is off the GPU. */
    ghost method WaitIdle()
      modifies `moment, `lastIdle
      ensures moment == lastIdle == old(moment) + 1
    {
      moment := moment + 1;
      lastIdle := moment;
    }

    /** retire_slot_drain: every pointer of the slot is freed, once. */
    method Drain(k: nat)
      requires Shaped() && k < DEPTH && BornBy(birth, fate, presentEpoch)
      modifies `fate, slots
      ensures Shaped()
      ensures slots[..] == old(slots[..])[k := Slot([], old(slots[k]).cap)]
      ensures fate == Drained(old(fate), birth, k, presentEpoch, lastIdle, |old(slots[k]).items|)
    {
      ghost var before := fate;
      ghost var items := slots[k].items;
      var i := 0;
      while i < |slots[k].items|
        invariant i <= |items| && slots[..] == old(slots[..])
        invariant fate == Drained(before, birth, k, presentEpoch, lastIdle, i)
      {
        var id := slots[k].items[i];
        assert old(slots[..])[k].items[i] == id;
        assert fate[id] == Parked(k, i);
        fate := fate[id := Freed(presentEpoch - birth[id].epoch, lastIdle > birth[id].moment, true)];
        i := i + 1;
      }
      slots[k] := Slot([], slots[k].cap);
      DrainedTracked(old(slots[..]), before, birth, k, presentEpoch, lastIdle, slots[k].cap);
      assert slots[..] == old(slots[..])[k := Slot([], slots[k].cap)];
    }

    /** Parking a pointer at the end of a slot with room. */
    method Append(k: nat)
      requires Shaped() && k < DEPTH && |slots[k].items| < slots[k].cap
      modifies `retired, `fate, `birth, `moment, slots
      ensures Shaped()
      ensures fate == old(fate) + [Parked(k, |old(slots[k]).items|)]
      ensures birth == old(birth) + [Birth(presentEpoch, old(moment))] && moment == old(moment) + 1
    {
      AppendTracked(slots[..], fate, k);
      ghost var before := slots[..];
      fate := fate + [Parked(k, |slots[k].items|)];
      birth := birth + [Birth(presentEpoch, moment)];
      moment := moment + 1;
      slots[k] := slots[k].(items := slots[k].items + [retired]);
      retired := retired + 1;
      assert slots[..] == before[k := slots[k]];
    }

    /** Freeing a pointer that was never parked. */
    method FreeNow(ghost idled: bool)
      requires Shaped() && (idled ==> lastIdle == moment)
      modifies `retired, `fate, `birth, `moment
      ensures Shaped()
      ensures fate == old(fate) + [Freed(0, idled, ready)]
      ensures birth == old(birth) + [Birth(presentEpoch, old(moment))] && moment == old(moment) + 1
    {
      fate := fate + [Freed(0, idled, ready)];
      birth := birth + [Birth(presentEpoch, moment)];
      moment := moment + 1;
      retired := retired + 1;
    }

    /** The first half of retire_slot_push: a slot at the limit is drained behind a device wait, a full one grows. */
    method MakeRoom(k: nat, grown: bool) returns (room: bool)
      requires Shaped() && k < DEPTH && OnTime(birth, fate, presentEpoch) && AllSafe(fate)
      modifies `fate, `moment, `lastIdle, slots
      ensures Shaped() && OnTime(birth, fate, presentEpoch) && AllSafe(fate) && |fate| == |old(fate)|
      ensures room ==> |slots[k].items| < slots[k].cap
      ensures !room <==> !grown && old(Full(slots[k]))
      ensures !room ==> fate == old(fate) && moment == lastIdle && slots[..] == old(slots[..])
      ensures forall id :: 0 <= id < |fate| ==>
        || fate[id] == old(fate[id])
        || (|old(slots[k]).items| == SLOT_MAX && WasParked(old(fate[id]), k) && IdleFreed(fate[id]))
    {
      if |slots[k].items| >= SLOT_MAX {
        WaitIdle();
        Drain(k);
      }
      room := true;
      if |slots[k].items| == slots[k].cap {
        if !grown {
          WaitIdle();
          return false;
        }
        var wanted := if slots[k].cap > 0 then slots[k].cap * 2 else 4;
        Enlarge(k, if wanted > SLOT_MAX then SLOT_MAX else wanted);
      }
    }

    /**
     panel_surface_retire_geometry and panel_surface_retire_shape.  `grown` is
     whether the slot's buffer could be enlarged.  Freed at once are this pointer
     when nothing is on screen or memory is short, and a slot that is full.
     */
    method Retire(grown: bool)
      requires Valid()
      modifies this, slots
      ensures Valid() && ready == old(ready) && presentEpoch == old(presentEpoch) && |fate| == |old(fate)| + 1
      ensures forall id :: 0 <= id < |old(fate)| ==>
        fate[id] == old(fate[id])
        || (|old(slots[presentEpoch % DEPTH]).items| == SLOT_MAX
            && WasParked(old(fate[id]), presentEpoch % DEPTH) && IdleFreed(fate[id]))
      ensures fate[|old(fate)|].Freed? <==> !ready || (!grown && old(Full(slots[presentEpoch % DEPTH])))
    {
      if !ready {
        FreeNow(false);
        return;
      }
      var k := presentEpoch % DEPTH;
      var room := MakeRoom(k, grown);
      if room {
        Append(k);
      } else {
        FreeNow(true);
      }
    }

    /** realloc */
    method Enlarge(k: nat, cap: nat)
      requires Shaped() && k < DEPTH && slots[k].cap <= cap <= SLOT_MAX
      modifies slots
      ensures Shaped() && slots[..] == old(slots[..])[k := Slot(old(slots[k]).items, cap)]
    {
      ghost var before := slots[..];
      slots[k] := slots[k].(cap := cap);
      assert slots[..] == before[k := slots[k]];
    }

    /**
     panel_surface_present: `usable` is whether a swapchain is there or could be
     made, `shown` whether the frame was presented.  A successful present frees
     what was retired exactly three presents ago, and nothing else.
     */
    method Present(usable: bool, shown: bool) returns (ok: bool)
      requires Valid()
      modifies this, slots
      ensures Valid() && ok == (usable && shown) && ready == (old(ready) || usable)
      ensures presentEpoch == old(presentEpoch) + (if ok then 1 else 0) && birth == old(birth)
      ensures if ok then Advanced(old(fate), fate, birth, presentEpoch, lastIdle) else fate == old(fate)
    {
      ok := false;
      if !usable {
        return;
      }
      ready := true;
      if !shown {
        return;
      }
      PresentFrees(slots[..], fate, birth, presentEpoch, lastIdle);
      Advance((presentEpoch + 1) % DEPTH);
      ok := true;
    }

    /** The epoch moves on and its slot is emptied for reuse. */
    method Advance(k: nat)
      requires Shaped() && k < DEPTH && BornBy(birth, fate, presentEpoch + 1)
      modifies `presentEpoch, `fate, slots
      ensures Shaped() && presentEpoch == old(presentEpoch) + 1
      ensures fate == Drained(old(fate), birth, k, presentEpoch, lastIdle, |old(slots[..])[k].items|)
    {
      presentEpoch := presentEpoch + 1;
      Drain(k);
    }

    /** panel_surface_drain_retire_fenced: with the device idle, everything parked is freed. */
    method DrainFenced()
      requires Valid()
      modifies this, slots
      ensures Valid() && presentEpoch == old(presentEpoch) && |fate| == |old(fate)|
      ensures forall id :: 0 <= id < |fate| ==> fate[id].Freed? && (old(fate[id]).Freed? ==> fate[id] == old(fate[id]))
    {
      if !ready {
        return;
      }
      WaitIdle();
      DrainAll();
    }

    method DrainAll()
      requires Shaped() && OnTime(birth, fate, presentEpoch) && AllSafe(fate)
      requires forall id :: 0 <= id < |birth| ==> lastIdle > birth[id].moment
      modifies `fate, slots
      ensures Shaped() && OnTime(birth, fate, presentEpoch) && AllSafe(fate) && |fate| == |old(fate)|
      ensures forall id :: 0 <= id < |fate| ==> fate[id].Freed? && (old(fate[id]).Freed? ==> fate[id] == old(fate[id]))
    {
      var k := 0;
      while k < DEPTH
        invariant k <= DEPTH && Shaped() && OnTime(birth, fate, presentEpoch) && AllSafe(fate)
        invariant |fate| == |old(fate)|
        invariant forall id :: 0 <= id < |fate| && fate[id].Parked? ==> fate[id].slot >= k
        invariant forall id :: 0 <= id < |fate| && old(fate[id]).Freed? ==> fate[id] == old(fate[id])
      {
        Drain(k);
        k := k + 1;
      }
    }

    /** panel_surface_destroy: the device idles if there is a swapchain, then every slot is freed. */
    method Destroy()
      requires Valid()
      modifies this, slots
      ensures Valid() && !ready && |fate| == |old(fate)|
      ensures forall id :: 0 <= id < |fate| ==> fate[id].Freed? && (old(fate[id]).Freed? ==> fate[id] == old(fate[id]))
    {
      if ready {
        WaitIdle();
        DrainAll();
      }
      ready := false;
    }

    /**
     Any run of the ring up to its destruction: every pointer ever retired has
     been freed, exactly once and never under the GPU.
     */
    method RunAndDestroy(ops: seq<Op>)
      requires Valid()
      modifies this, slots
      ensures Valid() && forall id :: 0 <= id < |fate| ==> fate[id].Freed? && Safe(fate[id])
      ensures |old(fate)| <= |fate|
      ensures forall id :: 0 <= id < |old(fate)| && old(fate[id]).Freed? ==> fate[id] == old(fate[id])
    {
      var i := 0;
      while i < |ops|
        invariant i <= |ops| && Valid() && |old(fate)| <= |fate|
        invariant forall id :: 0 <= id < |old(fate)| && old(fate[id]).Freed? ==> fate[id] == old(fate[id])
      {
        match ops[i] {
          case DoRetire(grown) => Retire(grown);
          case DoPresent(usable, shown) => var _ := Present(usable, shown);
          case DoDrain => DrainFenced();
        }
        i := i + 1;
      }
      Destroy();
    }
  }

  datatype Op = DoRetire(grown: bool) | DoPresent(usable: bool, shown: bool) | DoDrain
}
