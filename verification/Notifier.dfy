/**
 The notification rate limiter (src/notify/notifications.c): a ring of sixteen recent
 keys against the reference that remembers every key for ever.
 */
module Notifier {
  import opened Common

  const CAPACITY: nat := 16
  const KEY_SIZE: nat := 96

  datatype Entry = Entry(key: string, sent: nat)

  datatype Request = Request(key: string, cooldown: nat, now: nat)

  datatype Table = Table(entries: seq<Entry>, next: nat)

  /** Requests without a key or without a cooldown are neither limited nor remembered. */
  predicate Counts(r: Request) {
    r.key != "" && r.cooldown > 0
  }

  // ---------------------------------------------------------------- the ring

  /** The first entry with the key, or the number of entries. */
  function IndexOf(es: seq<Entry>, key: string): (i: nat)
    ensures i <= |es|
    ensures i < |es| ==> es[i].key == key
    ensures forall j :: 0 <= j < i ==> es[j].key != key
  {
    if es == [] then 0
    else
      var n := |es| - 1;
      var i := IndexOf(es[..n], key);
      assert forall j :: 0 <= j < n ==> es[..n][j] == es[j];
      if i < n || es[n].key == key then i else n + 1
  }

  predicate TooSoon(now: nat, sent: nat, cooldown: nat) {
    now >= sent && now - sent < cooldown
  }

  predicate Limits(t: Table, r: Request) {
    Counts(r) &&
    var i := IndexOf(t.entries, r.key);
    i < |t.entries| && TooSoon(r.now, t.entries[i].sent, r.cooldown)
  }

  /** The ring after notifier_is_rate_limited. */
  function Noted(t: Table, r: Request): (t': Table)
    requires |t.entries| == CAPACITY && t.next < CAPACITY
    ensures |t'.entries| == CAPACITY && t'.next < CAPACITY
  {
    if !Counts(r) then t
    else
      var i := IndexOf(t.entries, r.key);
      if i < CAPACITY then
        if TooSoon(r.now, t.entries[i].sent, r.cooldown) then t
        else t.(entries := t.entries[i := Entry(r.key, r.now)])
      else
        Table(t.entries[t.next := Entry(Clip(r.key, KEY_SIZE), r.now)],
              if t.next + 1 == CAPACITY then 0 else t.next + 1)
  }

  function NoEntries(): (es: seq<Entry>)
    ensures |es| == CAPACITY && forall i :: 0 <= i < CAPACITY ==> es[i] == Entry("", 0)
  {
    seq(CAPACITY, _ => Entry("", 0))
  }

  function After(rs: seq<Request>): (t: Table)
    ensures |t.entries| == CAPACITY && t.next < CAPACITY
  {
    if rs == [] then Table(NoEntries(), 0) else Noted(After(rs[..|rs| - 1]), rs[|rs| - 1])
  }

  // ---------------------------------------------------------------- the reference

  /** The keys that were ever remembered. */
  function Keys(rs: seq<Request>): set<string> {
    set r | r in rs && Counts(r) :: r.key
  }

  /** When the last request for the key that was not limited was made. */
  function LastSent(rs: seq<Request>, key: string): nat
    decreases |rs|, 0
  {
    if rs == [] then 0
    else
      var n := |rs| - 1;
      if rs[n].key == key && Counts(rs[n]) && !Limited(rs[..n], rs[n]) then rs[n].now else LastSent(rs[..n], key)
  }

  /** A request is limited if its key was let through less than its cooldown ago. */
  predicate Limited(before: seq<Request>, r: Request)
    decreases |before|, 1
  {
    Counts(r) && r.key in Keys(before) && TooSoon(r.now, LastSent(before, r.key), r.cooldown)
  }

  // ---------------------------------------------------------------- the ring refines the reference

  /** The requests use no more keys than the ring holds, and no key that it would truncate. */
  ghost predicate Fits(rs: seq<Request>) {
    |Keys(rs)| <= CAPACITY && forall k :: k in Keys(rs) ==> |k| < KEY_SIZE
  }

  /** The first `c` slots hold distinct keys, exactly those remembered, with their last times; the others are empty. */
  ghost predicate Represents(t: Table, rs: seq<Request>, c: nat) {
    && |t.entries| == CAPACITY && c == |Keys(rs)| <= CAPACITY
    && t.next == (if c == CAPACITY then 0 else c)
    && UpToDate(t.entries, rs, c)
    && Slots(t.entries, c)
    && AllFound(t.entries, rs, c)
  }

  /** Distinct keys, then empty slots. */
  ghost predicate Slots(es: seq<Entry>, c: nat)
    requires c <= |es|
  {
    && (forall i, j :: 0 <= i < j < c ==> es[i].key != es[j].key)
    && (forall i :: c <= i < |es| ==> es[i].key == "")
  }

  lemma SameKeysSameSlots(es: seq<Entry>, fs: seq<Entry>, c: nat)
    requires c <= |es| == |fs| && Slots(es, c) && forall j :: 0 <= j < |es| ==> es[j].key == fs[j].key
    ensures Slots(fs, c)
  {
  }

  ghost predicate UpToDate(es: seq<Entry>, rs: seq<Request>, c: nat)
    requires c <= |es|
  {
    forall i :: 0 <= i < c ==> es[i].key in Keys(rs) && es[i].sent == LastSent(rs, es[i].key)
  }

  ghost predicate AllFound(es: seq<Entry>, rs: seq<Request>, c: nat) {
    forall k :: k in Keys(rs) ==> IndexOf(es, k) < c
  }

  lemma KeysSnoc(rs: seq<Request>, r: Request)
    ensures Keys(rs + [r]) == Keys(rs) + (if Counts(r) then {r.key} else {})
  {
    forall k | k in Keys(rs) + (if Counts(r) then {r.key} else {})
      ensures k in Keys(rs + [r])
    {
      if k in Keys(rs) {
        var q :| q in rs && Counts(q) && q.key == k;
        assert q in rs + [r];
      } else {
        assert r in rs + [r];
      }
    }
  }

  lemma LastSentSnoc(rs: seq<Request>, r: Request, key: string)
    ensures LastSent(rs + [r], key)
         == if r.key == key && Counts(r) && !Limited(rs, r) then r.now else LastSent(rs, key)
  {
    assert (rs + [r])[..|rs|] == rs;
  }

  /** The position of a key that occurs once. */
  lemma IndexIs(es: seq<Entry>, key: string, i: nat)
    requires i < |es| && es[i].key == key && forall j :: 0 <= j < i ==> es[j].key != key
    ensures IndexOf(es, key) == i
  {
  }

  lemma AgreesNow(t: Table, rs: seq<Request>, c: nat, r: Request)
    requires Represents(t, rs, c)
    ensures Limits(t, r) == Limited(rs, r)
    ensures Counts(r) ==> (IndexOf(t.entries, r.key) < CAPACITY <==> r.key in Keys(rs))
  {
  }

  lemma OldUpToDate(es: seq<Entry>, rs: seq<Request>, c: nat, r: Request, i: nat)
    requires i < c <= |es| && UpToDate(es, rs, c) && es[i].key == r.key && Counts(r)
    requires Slots(es, c)
    ensures UpToDate(if Limited(rs, r) then es else es[i := Entry(r.key, r.now)], rs + [r], c)
  {
    var es' := if Limited(rs, r) then es else es[i := Entry(r.key, r.now)];
    KeysSnoc(rs, r);
    forall j | 0 <= j < c
      ensures es'[j].key in Keys(rs + [r]) && es'[j].sent == LastSent(rs + [r], es'[j].key)
    {
      LastSentSnoc(rs, r, es[j].key);
    }
  }

  lemma OldFound(es: seq<Entry>, fs: seq<Entry>, rs: seq<Request>, c: nat, r: Request)
    requires |es| == |fs| && forall j :: 0 <= j < |es| ==> es[j].key == fs[j].key
    requires AllFound(es, rs, c) && r.key in Keys(rs) && Counts(r)
    ensures AllFound(fs, rs + [r], c)
  {
    KeysSnoc(rs, r);
    assert Keys(rs + [r]) == Keys(rs);
    forall k | k in Keys(rs)
      ensures IndexOf(fs, k) < c
    {
      SameKeysSameIndex(es, fs, k);
    }
  }

  lemma NotedOld(t: Table, rs: seq<Request>, c: nat, r: Request)
    requires Represents(t, rs, c) && Counts(r) && r.key in Keys(rs)
    ensures Represents(Noted(t, r), rs + [r], c)
  {
    AgreesNow(t, rs, c, r);
    KeysSnoc(rs, r);
    assert Keys(rs + [r]) == Keys(rs);
    var i := IndexOf(t.entries, r.key);
    var t' := Noted(t, r);
    assert t' == if Limited(rs, r) then t else t.(entries := t.entries[i := Entry(r.key, r.now)]);
    OldUpToDate(t.entries, rs, c, r, i);
    assert forall j :: 0 <= j < CAPACITY ==> t.entries[j].key == t'.entries[j].key;
    SameKeysSameSlots(t.entries, t'.entries, c);
    OldFound(t.entries, t'.entries, rs, c, r);
  }

  lemma SameKeysSameIndex(es: seq<Entry>, fs: seq<Entry>, key: string)
    requires |es| == |fs| && forall j :: 0 <= j < |es| ==> es[j].key == fs[j].key
    ensures IndexOf(es, key) == IndexOf(fs, key)
  {
    var i := IndexOf(es, key);
    if i < |es| {
      IndexIs(fs, key, i);
    }
  }

  /** A new key goes through, and the others keep their times. */
  lemma NewLastSent(rs: seq<Request>, r: Request, key: string)
    requires Counts(r) && r.key !in Keys(rs)
    ensures LastSent(rs + [r], key) == if key == r.key then r.now else LastSent(rs, key)
  {
    LastSentSnoc(rs, r, key);
  }

  lemma NewUpToDate(es: seq<Entry>, rs: seq<Request>, c: nat, r: Request)
    requires c < |es| && UpToDate(es, rs, c) && Counts(r) && r.key !in Keys(rs)
    ensures UpToDate(es[c := Entry(r.key, r.now)], rs + [r], c + 1)
  {
    var es' := es[c := Entry(r.key, r.now)];
    KeysSnoc(rs, r);
    forall j | 0 <= j <= c
      ensures es'[j].key in Keys(rs + [r]) && es'[j].sent == LastSent(rs + [r], es'[j].key)
    {
      assert j < c ==> es'[j] == es[j];
      NewLastSent(rs, r, es'[j].key);
    }
  }

  lemma NewFound(es: seq<Entry>, rs: seq<Request>, c: nat, r: Request)
    requires c < |es| && UpToDate(es, rs, c) && AllFound(es, rs, c) && Counts(r) && r.key !in Keys(rs)
    ensures AllFound(es[c := Entry(r.key, r.now)], rs + [r], c + 1)
  {
    KeysSnoc(rs, r);
    forall k | k in Keys(rs + [r])
      ensures IndexOf(es[c := Entry(r.key, r.now)], k) < c + 1
    {
      if k == r.key {
        IndexIs(es[c := Entry(r.key, r.now)], k, c);
      } else {
        IndexKept(es, c, Entry(r.key, r.now), k);
      }
    }
  }

  lemma NewDistinct(es: seq<Entry>, rs: seq<Request>, c: nat, r: Request)
    requires c < |es| && UpToDate(es, rs, c) && r.key !in Keys(rs)
    requires forall i, j :: 0 <= i < j < c ==> es[i].key != es[j].key
    ensures var es' := es[c := Entry(r.key, r.now)]; forall i, j :: 0 <= i < j < c + 1 ==> es'[i].key != es'[j].key
  {
  }

  lemma NotedNew(t: Table, rs: seq<Request>, c: nat, r: Request)
    requires Represents(t, rs, c) && Counts(r) && r.key !in Keys(rs) && |r.key| < KEY_SIZE && c < CAPACITY
    ensures Represents(Noted(t, r), rs + [r], c + 1)
  {
    AgreesNow(t, rs, c, r);
    KeysSnoc(rs, r);
    assert Keys(rs + [r]) == Keys(rs) + {r.key};
    NewUpToDate(t.entries, rs, c, r);
    NewFound(t.entries, rs, c, r);
    NewDistinct(t.entries, rs, c, r);
    assert Noted(t, r).entries == t.entries[c := Entry(r.key, r.now)];
  }

  /** Filling slot `c` does not move a key found before it. */
  lemma IndexKept(es: seq<Entry>, c: nat, e: Entry, key: string)
    requires IndexOf(es, key) < c < |es|
    ensures IndexOf(es[c := e], key) == IndexOf(es, key)
  {
    IndexIs(es[c := e], key, IndexOf(es, key));
  }

  lemma NotedIgnored(t: Table, rs: seq<Request>, c: nat, r: Request)
    requires Represents(t, rs, c) && !Counts(r)
    ensures Represents(t, rs + [r], c)
  {
    KeysSnoc(rs, r);
    assert Keys(rs + [r]) == Keys(rs);
    forall j | 0 <= j < c
      ensures LastSent(rs + [r], t.entries[j].key) == LastSent(rs, t.entries[j].key)
    {
      LastSentSnoc(rs, r, t.entries[j].key);
    }
  }

  /** While the keys fit, no key is ever evicted and the ring stands for the reference. */
  lemma {:induction false} RingRepresents(rs: seq<Request>)
    requires Fits(rs)
    ensures Represents(After(rs), rs, |Keys(rs)|)
  {
    if rs == [] {
      assert Keys(rs) == {};
    } else {
      var n := |rs| - 1;
      var before, r := rs[..n], rs[n];
      assert rs == before + [r];
      KeysSnoc(before, r);
      SubsetSize(Keys(before), Keys(rs));
      RingRepresents(before);
      var c := |Keys(before)|;
      if !Counts(r) {
        NotedIgnored(After(before), before, c, r);
      } else if r.key in Keys(before) {
        NotedOld(After(before), before, c, r);
      } else {
        assert Keys(rs) == Keys(before) + {r.key};
        NotedNew(After(before), before, c, r);
      }
    }
  }

  /** While at most sixteen keys of at most 95 bytes are used, the ring limits exactly what the reference limits. */
  lemma RingRefinesReference(rs: seq<Request>, r: Request)
    requires Fits(rs)
    ensures Limits(After(rs), r) == Limited(rs, r)
  {
    RingRepresents(rs);
    AgreesNow(After(rs), rs, |Keys(rs)|, r);
  }

  /** A key too long for an entry is never limited, whatever the ring holds. */
  lemma LongKeysNeverLimited(rs: seq<Request>, r: Request)
    requires |r.key| >= KEY_SIZE
    ensures !Limits(After(rs), r)
  {
    EntriesShort(rs);
  }

  lemma {:induction false} EntriesShort(rs: seq<Request>)
    ensures forall i :: 0 <= i < CAPACITY ==> |After(rs).entries[i].key| < KEY_SIZE
  {
    if rs != [] {
      EntriesShort(rs[..|rs| - 1]);
    }
  }

  // ---------------------------------------------------------------- which requests are limited

  /** Request `i` is the last one for the key that the ring let through, among those with a cooldown. */
  ghost predicate LastThrough(rs: seq<Request>, key: string, i: int) {
    && 0 <= i < |rs| && rs[i].key == key && rs[i].cooldown > 0 && !Limits(After(rs[..i]), rs[i])
    && forall j {:trigger rs[j]} ::
      i < j < |rs| && rs[j].key == key && rs[j].cooldown > 0 ==> Limits(After(rs[..j]), rs[j])
  }

  lemma {:induction false} LastThroughIs(rs: seq<Request>, key: string) returns (i: int)
    requires Fits(rs) && key != "" && key in Keys(rs)
    ensures LastThrough(rs, key, i) && LastSent(rs, key) == rs[i].now
  {
    var n := |rs| - 1;
    var before, r := rs[..n], rs[n];
    assert rs == before + [r];
    PrefixFits(rs, n);
    RingRefinesReference(before, r);
    LastSentSnoc(before, r, key);
    if r.key == key && Counts(r) && !Limited(before, r) {
      i := n;
    } else {
      KeysSnoc(before, r);
      i := LastThroughIs(before, key);
      LastThroughSnoc(before, r, key, i);
    }
  }

  lemma LastThroughSnoc(rs: seq<Request>, r: Request, key: string, i: int)
    requires LastThrough(rs, key, i) && (r.key == key && r.cooldown > 0 ==> Limits(After(rs), r))
    ensures LastThrough(rs + [r], key, i)
  {
    var all := rs + [r];
    assert all[..|rs|] == rs && all[..i] == rs[..i];
    forall j | i < j < |all| && all[j].key == key && all[j].cooldown > 0
      ensures Limits(After(all[..j]), all[j])
    {
      if j < |rs| {
        assert all[j] == rs[j] && all[..j] == rs[..j];
      }
    }
  }

  lemma OneLastThrough(rs: seq<Request>, key: string, i: int, k: int)
    requires LastThrough(rs, key, i) && LastThrough(rs, key, k)
    ensures i == k
  {
    assert i < |rs| && k < |rs| && rs[i].key == rs[k].key;
  }

  /**
   A request is limited exactly if it has a key and a cooldown, the key was let through
   before, and the last time lies less than the request's own cooldown back. Otherwise
   it goes through: at the end of the cooldown, for a new key, or with a clock set back.
   */
  lemma LimitedIff(rs: seq<Request>, r: Request)
    requires Fits(rs)
    ensures Limits(After(rs), r) <==>
            r.key != "" && r.cooldown > 0 &&
            exists i :: LastThrough(rs, r.key, i) && rs[i].now <= r.now < rs[i].now + r.cooldown
  {
    RingRefinesReference(rs, r);
    if Counts(r) {
      if r.key in Keys(rs) {
        var i := LastThroughIs(rs, r.key);
        forall k | LastThrough(rs, r.key, k)
          ensures k == i
        {
          OneLastThrough(rs, r.key, i, k);
        }
      } else if k :| LastThrough(rs, r.key, k) {
        ThroughIsKey(rs, r.key, k);
      }
    }
  }

  lemma ThroughIsKey(rs: seq<Request>, key: string, i: int)
    requires LastThrough(rs, key, i) && key != ""
    ensures key in Keys(rs)
  {
    assert rs[i] in rs;
  }

  // ---------------------------------------------------------------- spacing

  predicate Monotone(rs: seq<Request>) {
    forall i, j :: 0 <= i < j < |rs| ==> rs[i].now <= rs[j].now
  }

  lemma {:induction false} LastSentAfter(rs: seq<Request>, i: nat, key: string)
    requires Monotone(rs) && i < |rs| && rs[i].key == key && Counts(rs[i]) && !Limited(rs[..i], rs[i])
    ensures rs[i].now <= LastSent(rs, key) <= rs[|rs| - 1].now && key in Keys(rs)
  {
    assert rs[i] in rs;
    var n := |rs| - 1;
    if i < n {
      assert rs[..n][..i] == rs[..i];
      LastSentAfter(rs[..n], i, key);
    }
  }

  /**
   With a monotone clock, two requests for the same key that both went through are
   at least the second one's cooldown apart, provided the first had a cooldown.
   */
  lemma Spaced(rs: seq<Request>, i: nat, j: nat)
    requires Monotone(rs) && i < j < |rs| && rs[i].key == rs[j].key && Counts(rs[i]) && Fits(rs)
    requires !Limits(After(rs[..i]), rs[i]) && !Limits(After(rs[..j]), rs[j])
    ensures rs[j].now - rs[i].now >= rs[j].cooldown
  {
    PrefixFits(rs, i);
    PrefixFits(rs, j);
    RingRefinesReference(rs[..i], rs[i]);
    RingRefinesReference(rs[..j], rs[j]);
    assert rs[..j][..i] == rs[..i];
    LastSentAfter(rs[..j], i, rs[i].key);
  }

  lemma PrefixFits(rs: seq<Request>, n: nat)
    requires Fits(rs) && n <= |rs|
    ensures Fits(rs[..n])
  {
    assert Keys(rs[..n]) <= Keys(rs);
    SubsetSize(Keys(rs[..n]), Keys(rs));
  }

  /** A first request with cooldown 0 is not remembered: the second goes through at once, whatever its cooldown. */
  lemma UncountedExample(key: string, cooldown: nat, now: nat)
    requires 0 < |key| < KEY_SIZE && cooldown > 0
    ensures var rs := [Request(key, 0, now), Request(key, cooldown, now)];
      !Limits(After(rs[..0]), rs[0]) && !Limits(After(rs[..1]), rs[1])
  {
    var rs := [Request(key, 0, now), Request(key, cooldown, now)];
    assert rs[..1][..0] == [] && rs[..1][0] == rs[0];
    assert After(rs[..1]).entries == NoEntries();
  }

  // ---------------------------------------------------------------- in place

  ghost predicate AsReference(verdicts: seq<bool>, rs: seq<Request>) {
    |verdicts| == |rs| && forall i {:trigger verdicts[i]} :: 0 <= i < |rs| ==> verdicts[i] == Limited(rs[..i], rs[i])
  }

  lemma AsReferenceSnoc(verdicts: seq<bool>, rs: seq<Request>, r: Request)
    requires AsReference(verdicts, rs)
    ensures AsReference(verdicts + [Limited(rs, r)], rs + [r])
    ensures After(rs + [r]) == Noted(After(rs), r)
  {
    var all := rs + [r];
    assert all[..|rs|] == rs;
    forall i | 0 <= i < |rs|
      ensures all[..i] == rs[..i] && all[i] == rs[i]
    {
    }
  }

  class RateLimiter {
    const recent: array<Entry>
    var nextRecentSlot: nat

    ghost predicate Valid()
      reads this
    {
      recent.Length == CAPACITY && nextRecentSlot < CAPACITY
    }

    ghost function View(): Table
      reads this, recent
    {
      Table(recent[..], nextRecentSlot)
    }

    constructor ()
      ensures Valid() && fresh(recent) && View() == After([])
    {
      recent := new Entry[CAPACITY](_ => Entry("", 0));
      nextRecentSlot := 0;
      new;
      assert recent[..] == NoEntries();
    }

    /** notifier_is_rate_limited, with the clock as a parameter. */
    method IsRateLimited(r: Request) returns (limited: bool)
      requires Valid()
      modifies this, recent
      ensures Valid() && View() == Noted(old(View()), r) && limited == Limits(old(View()), r)
    {
      if r.key == "" || r.cooldown == 0 {
        return false;
      }
      var i := 0;
      while i < CAPACITY
        invariant i <= CAPACITY && recent[..] == old(recent[..]) && nextRecentSlot == old(nextRecentSlot)
        invariant IndexOf(recent[..i], r.key) == i
      {
        assert recent[..i + 1][..i] == recent[..i];
        if recent[i].key == r.key {
          IndexIs(recent[..], r.key, i) by {
            assert forall j :: 0 <= j < i ==> recent[..][j] == recent[..i][j];
          }
          if r.now >= recent[i].sent && r.now - recent[i].sent < r.cooldown {
            return true;
          }
          recent[i] := Entry(r.key, r.now);
          assert recent[..] == old(recent[..])[i := Entry(r.key, r.now)];
          return false;
        }
        i := i + 1;
      }
      assert recent[..i] == recent[..];
      recent[nextRecentSlot] := Entry(Clip(r.key, KEY_SIZE), r.now);
      assert recent[..] == old(recent[..])[nextRecentSlot := Entry(Clip(r.key, KEY_SIZE), r.now)];
      nextRecentSlot := (nextRecentSlot + 1) % CAPACITY;
      limited := false;
    }

    /** Over any run within its capacity the ring gives the verdicts of the reference. */
    method Serve(rs: seq<Request>) returns (verdicts: seq<bool>)
      requires Valid() && View() == After([]) && Fits(rs)
      modifies this, recent
      ensures AsReference(verdicts, rs)
    {
      verdicts := [];
      var i := 0;
      while i < |rs|
        invariant i <= |rs| && Valid() && View() == After(rs[..i]) && AsReference(verdicts, rs[..i])
      {
        PrefixFits(rs, i);
        RingRefinesReference(rs[..i], rs[i]);
        AsReferenceSnoc(verdicts, rs[..i], rs[i]);
        assert rs[..i + 1] == rs[..i] + [rs[i]];
        var limited := IsRateLimited(rs[i]);
        verdicts := verdicts + [limited];
        i := i + 1;
      }
      assert rs[..i] == rs;
    }
  }
}
