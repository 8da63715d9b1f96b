/** Events-file events and the identity they give a Dispatch: the slot, the time
    of its child_start, and how many child_starts in a row share that time
    (dashboard/history.go). */
module Dispatches {
  import opened Options

  datatype What =
    | ChildStart | Box | Settled | ChildFinish | ChildInherited | Backoff | Jam
    | BreakerTrip | Halt | SelfUpdate | ImageBuild | Other(name: string)

  /** The fields of one Events-file line the Dashboard reads; an absent string
      field is empty. */
  datatype Event = Event(
    what: What, time: string, kind: string, slot: Option<int>,
    phase: string, issue: string, chore: string, state: string, note: string,
    childLog: string, passLog: string, exit: Option<int>, revision: string, prUrl: string)

  datatype Key = Key(started: string, n: nat)

  type Owners = map<int, Key>

  predicate StartsOn(ev: Event, slot: int) {
    ev.what.ChildStart? && ev.slot == Some(slot)
  }

  /** Each slot's latest child_start, after one more event. */
  function Claimed(o: Owners, ev: Event): Owners {
    if ev.what.ChildStart? && ev.slot.Some? then
      var slot := ev.slot.value;
      var n := if slot in o && o[slot].started == ev.time then o[slot].n + 1 else 0;
      o[slot := Key(ev.time, n)]
    else o
  }

  function ClaimedAll(es: seq<Event>): Owners {
    if es == [] then map[] else Claimed(ClaimedAll(es[..|es| - 1]), es[|es| - 1])
  }

  function Lookup(o: Owners, slot: Option<int>): Option<Key> {
    if slot.Some? && slot.value in o then Some(o[slot.value]) else None
  }

  class DispatchOwners {
    var latest: Owners

    constructor ()
      ensures latest == ClaimedAll([])
    {
      latest := map[];
    }

    /** The owner of `ev`'s row. Over a whole scan this is the key of the slot's
        latest child_start (OwnerIsLatestStart). */
    method Claim(ev: Event) returns (owner: Option<Key>)
      modifies this
      ensures latest == Claimed(old(latest), ev)
      ensures owner == Lookup(latest, ev.slot)
    {
      if ev.slot.None? {
        return None;
      }
      if ev.what.ChildStart? {
        var k := Key(ev.time, 0);
        if ev.slot.value in latest && latest[ev.slot.value].started == ev.time {
          k := Key(ev.time, latest[ev.slot.value].n + 1);
        }
        latest := latest[ev.slot.value := k];
      }
      if ev.slot.value in latest {
        return Some(latest[ev.slot.value]);
      }
      return None;
    }
  }

  /** The times of a slot's child_starts, in order. */
  function Starts(es: seq<Event>, slot: int): seq<string> {
    if es == [] then []
    else
      Starts(es[..|es| - 1], slot) + if StartsOn(es[|es| - 1], slot) then [es[|es| - 1].time] else []
  }

  /** How many entries directly before the last one equal it. */
  function Repeats(ts: seq<string>): (n: nat)
    requires ts != []
    ensures n < |ts|
  {
    if |ts| == 1 || ts[|ts| - 2] != ts[|ts| - 1] then 0 else 1 + Repeats(ts[..|ts| - 1])
  }

  /** The identity of the last of a slot's child_starts. */
  function LastKey(ts: seq<string>): Option<Key> {
    if ts == [] then None else Some(Key(ts[|ts| - 1], Repeats(ts)))
  }

  /** The identity of the i-th of a slot's child_starts. */
  function KeyAt(ts: seq<string>, i: nat): Key
    requires i < |ts|
  {
    Key(ts[i], Repeats(ts[..i + 1]))
  }

  /** Claiming one more event keeps a slot's entry its latest child_start. */
  lemma ClaimTracksStarts(o: Owners, es: seq<Event>, ev: Event, slot: int)
    requires Lookup(o, Some(slot)) == LastKey(Starts(es, slot))
    ensures Lookup(Claimed(o, ev), Some(slot)) == LastKey(Starts(es + [ev], slot))
    ensures !StartsOn(ev, slot) ==> Starts(es + [ev], slot) == Starts(es, slot)
  {
    var ts := Starts(es, slot);
    assert (es + [ev])[..|es|] == es;
    if StartsOn(ev, slot) {
      assert Starts(es + [ev], slot) == ts + [ev.time];
      assert (ts + [ev.time])[..|ts|] == ts;
    } else {
      assert Starts(es + [ev], slot) == ts;
    }
  }

  /** One pass over all slots' events finds, for every slot, the identity of its
      latest child_start. */
  lemma {:induction false} OwnerIsLatestStart(es: seq<Event>, slot: int)
    ensures Lookup(ClaimedAll(es), Some(slot)) == LastKey(Starts(es, slot))
  {
    if es != [] {
      OwnerIsLatestStart(es[..|es| - 1], slot);
      ClaimTracksStarts(ClaimedAll(es[..|es| - 1]), es[..|es| - 1], es[|es| - 1], slot);
      assert es[..|es| - 1] + [es[|es| - 1]] == es;
    }
  }

  /** What Repeats counts: the entries since the last differing one. */
  lemma {:induction false} RepeatsIs(ts: seq<string>, i: nat)
    requires i < |ts|
    ensures var n := Repeats(ts[..i + 1]);
      && n <= i
      && (forall k :: i - n <= k <= i ==> ts[k] == ts[i])
      && (n < i ==> ts[i - n - 1] != ts[i])
  {
    if i > 0 && ts[i - 1] == ts[i] {
      RepeatsIs(ts, i - 1);
      assert ts[..i + 1][..i] == ts[..i];
    }
  }

  ghost predicate UniqueKeys(ts: seq<string>) {
    forall i, j :: 0 <= i < j < |ts| ==> KeyAt(ts, i) != KeyAt(ts, j)
  }

  /** No time comes back once another one has been stamped. */
  ghost predicate Contiguous(ts: seq<string>) {
    forall i, j, k :: 0 <= i < j < k < |ts| && ts[i] == ts[k] ==> ts[j] == ts[i]
  }

  function Count(ts: seq<string>, t: string): nat {
    if ts == [] then 0 else Count(ts[..|ts| - 1], t) + if ts[|ts| - 1] == t then 1 else 0
  }

  /** A Dispatch's identity names one child_start exactly when a slot never
      returns to an earlier time. */
  lemma KeysAreUniqueIff(ts: seq<string>)
    ensures UniqueKeys(ts) <==> Contiguous(ts)
  {
    if Contiguous(ts) {
      forall i, j | 0 <= i < j < |ts| ensures KeyAt(ts, i) != KeyAt(ts, j) {
        RepeatsIs(ts, i);
        RepeatsIs(ts, j);
      }
    }
    if UniqueKeys(ts) {
      forall i, j, k | 0 <= i < j < k < |ts| && ts[i] == ts[k] ensures ts[j] == ts[i] {
        if ts[j] != ts[i] {
          ReturningTimeRepeatsAKey(ts, i, j, k);
        }
      }
    }
  }

  lemma ReturningTimeRepeatsAKey(ts: seq<string>, i: nat, j: nat, k: nat)
    requires i < j < k < |ts| && ts[i] == ts[k] && ts[j] != ts[i]
    ensures exists a, b :: 0 <= a < b < |ts| && KeyAt(ts, a) == KeyAt(ts, b)
  {
    RepeatsIs(ts, i);
    RepeatsIs(ts, k);
    var a, b := i - Repeats(ts[..i + 1]), k - Repeats(ts[..k + 1]);
    RepeatsIs(ts, a);
    RepeatsIs(ts, b);
    assert KeyAt(ts, a) == KeyAt(ts, b);
  }

  lemma {:induction false} CountFromRun(ts: seq<string>, t: string, lo: nat)
    requires lo <= |ts|
    requires forall k :: 0 <= k < lo ==> ts[k] != t
    requires forall k :: lo <= k < |ts| ==> ts[k] == t
    ensures Count(ts, t) == |ts| - lo
  {
    if ts != [] {
      CountFromRun(ts[..|ts| - 1], t, if lo == |ts| then lo - 1 else lo);
    }
  }

  lemma {:induction false} CountHolds(ts: seq<string>, t: string, k: nat, lo: nat)
    requires k < lo <= |ts| && ts[k] == t
    requires forall m :: lo <= m < |ts| ==> ts[m] == t
    ensures Count(ts, t) > |ts| - lo
  {
    if k < |ts| - 1 {
      CountHolds(ts[..|ts| - 1], t, k, if lo == |ts| then lo - 1 else lo);
    } else {
      assert lo == |ts|;
    }
  }

  /** StartN is documented as how many earlier child_starts on the slot share the
      time. It is that count for every child_start exactly when no time returns. */
  lemma StartNCountsEarlierIff(ts: seq<string>)
    ensures (forall i :: 0 <= i < |ts| ==> KeyAt(ts, i).n == Count(ts[..i], ts[i])) <==> Contiguous(ts)
  {
    if Contiguous(ts) {
      forall i | 0 <= i < |ts| ensures KeyAt(ts, i).n == Count(ts[..i], ts[i]) {
        RepeatsIs(ts, i);
        CountFromRun(ts[..i], ts[i], i - KeyAt(ts, i).n);
      }
    } else {
      var i, j, k :| 0 <= i < j < k < |ts| && ts[i] == ts[k] && ts[j] != ts[i];
      RepeatsIs(ts, k);
      CountHolds(ts[..k], ts[k], i, k - KeyAt(ts, k).n);
      assert KeyAt(ts, k).n != Count(ts[..k], ts[k]);
    }
  }

  /** A clock that never steps back, stamping one text per instant, is enough. */
  lemma NonDecreasingIsContiguous(ts: seq<string>, instant: string -> int)
    requires forall i, j :: 0 <= i < j < |ts| ==> instant(ts[i]) <= instant(ts[j])
    requires forall i, j :: 0 <= i < j < |ts| && instant(ts[i]) == instant(ts[j]) ==> ts[i] == ts[j]
    ensures Contiguous(ts) && UniqueKeys(ts)
  {
    forall i, j, k | 0 <= i < j < k < |ts| && ts[i] == ts[k] ensures ts[j] == ts[i] {
      assert instant(ts[i]) <= instant(ts[j]) <= instant(ts[k]);
    }
    KeysAreUniqueIff(ts);
  }

  lemma {:induction false} StartsAppend(a: seq<Event>, b: seq<Event>, slot: int)
    ensures Starts(a + b, slot) == Starts(a, slot) + Starts(b, slot)
  {
    if b == [] {
      assert a + b == a;
    } else {
      assert (a + b)[..|a + b| - 1] == a + b[..|b| - 1];
      StartsAppend(a, b[..|b| - 1], slot);
    }
  }

  lemma {:induction false} ClaimedAllFrom(a: seq<Event>, ev: Event)
    ensures ClaimedAll(a + [ev]) == Claimed(ClaimedAll(a), ev)
  {
    assert (a + [ev])[..|a|] == a;
  }
}
