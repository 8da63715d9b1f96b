/** What the Events file says about one log path (dashboard/log.go): whether a
    Dispatch named it, has finished, and has been superseded by another. */
module LogStates {
  import opened Options
  import opened Dispatches
  import opened DispatchViews
  import opened DispatchFollows
  import opened FollowTheorems

  datatype Owner = Owner(slot: int, key: Key)

  /** The log path asked about, for one Dispatch or for whichever named it. */
  datatype Log = Log(path: string, owner: Option<Owner>)

  /** Times are instants; 0 is the zero time, which also stands for one that is
      unset or does not parse. */
  datatype Status = Status(named: bool, finished: bool, superseded: bool, owned: bool,
                           namedAt: int, finishedAt: int)

  predicate Naming(path: string, ev: Event) {
    (ev.what.ChildStart? && ev.childLog == path) || (ev.what.Box? && ev.passLog == path)
  }

  /** An absent slot reads as the zero key. */
  function KeyOn(o: Owners, slot: int): Key {
    if slot in o then o[slot] else Key("", 0)
  }

  /** Event `i` names the path, on behalf of the Dispatch asked about if there is
      one. */
  predicate Names(log: Log, es: seq<Event>, i: nat)
    requires i < |es|
  {
    && Naming(log.path, es[i])
    && (log.owner.Some? ==>
          && es[i].slot == Some(log.owner.value.slot)
          && KeyOn(ClaimedAll(es[..i + 1]), log.owner.value.slot) == log.owner.value.key)
  }

  /** Event `i` ends whatever ran on the slot, without naming the path itself. */
  predicate Ends(path: string, slot: Option<int>, es: seq<Event>, i: nat)
    requires i < |es|
  {
    && !Naming(path, es[i])
    && slot.Some? && es[i].slot == slot
    && (es[i].what.ChildFinish? || es[i].what.ChildStart?)
  }

  function LastNamed(log: Log, es: seq<Event>, n: nat): (r: Option<nat>)
    requires n <= |es|
    ensures r.Some? ==> r.value < n && Names(log, es, r.value)
    ensures forall i :: (r.Some? ==> r.value < i) && 0 <= i < n ==> !Names(log, es, i)
  {
    if n == 0 then None
    else if Names(log, es, n - 1) then Some(n - 1)
    else LastNamed(log, es, n - 1)
  }

  function FirstEnd(path: string, slot: Option<int>, es: seq<Event>, from: nat, n: nat): (r: Option<nat>)
    requires from <= n <= |es|
    ensures r.Some? ==> from <= r.value < n && Ends(path, slot, es, r.value)
    ensures forall i :: from <= i < n && (r.Some? ==> i < r.value) ==> !Ends(path, slot, es, i)
  {
    if n == from then None
    else
      var before := FirstEnd(path, slot, es, from, n - 1);
      if before.Some? then before
      else if Ends(path, slot, es, n - 1) then Some(n - 1)
      else None
  }

  predicate NamedByAnother(path: string, es: seq<Event>, from: nat, n: nat)
    requires from <= n <= |es|
  {
    exists i :: from <= i < n && Naming(path, es[i])
  }

  /** The answer, by its meaning: the last naming decides; the Dispatch has
      finished once its slot ended something after that naming (or the naming has
      no slot to follow); it is superseded when any later event names the path. */
  function Meaning(log: Log, instant: string -> int, es: seq<Event>, n: nat): Status
    requires n <= |es|
  {
    var l := LastNamed(log, es, n);
    if l.None? then Status(false, false, false, log.owner.Some?, 0, 0)
    else
      var slot := es[l.value].slot;
      var end := FirstEnd(log.path, slot, es, l.value + 1, n);
      Status(true, slot.None? || end.Some?,
             log.owner.Some? && NamedByAnother(log.path, es, l.value + 1, n),
             log.owner.Some?,
             instant(es[l.value].time),
             if end.Some? then instant(es[end.value].time) else 0)
  }

  lemma NamedByAnotherNext(path: string, es: seq<Event>, from: nat, n: nat)
    requires from <= n < |es|
    ensures NamedByAnother(path, es, from, n + 1) <==>
            NamedByAnother(path, es, from, n) || Naming(path, es[n])
  {
  }

  /** One pass over the events computes that meaning. */
  method LogState(log: Log, instant: string -> int, es: seq<Event>) returns (st: Status)
    ensures st == Meaning(log, instant, es, |es|)
  {
    hide ClaimedAll, Claimed, Naming, NamedByAnother;
    st := Status(false, false, false, log.owner.Some?, 0, 0);
    var slot: Option<int> := None;
    var owners := new DispatchOwners();
    assert es[..0] == [];
    for i := 0 to |es|
      invariant owners.latest == ClaimedAll(es[..i])
      invariant st == Meaning(log, instant, es, i)
      invariant LastNamed(log, es, i).Some? ==> slot == es[LastNamed(log, es, i).value].slot
    {
      var ev := es[i];
      assert es[..i + 1] == es[..i] + [ev];
      ClaimedAllFrom(es[..i], ev);
      var _ := owners.Claim(ev);
      if LastNamed(log, es, i).Some? {
        NamedByAnotherNext(log.path, es, LastNamed(log, es, i).value + 1, i);
      }
      NoneAfter(log.path, es, i + 1);
      var naming := Naming(log.path, ev);
      if naming && log.owner.None? {
        st := st.(named := true, finished := ev.slot.None?, namedAt := instant(ev.time), finishedAt := 0);
        slot := ev.slot;
      } else if naming && ev.slot == Some(log.owner.value.slot)
                && KeyOn(owners.latest, log.owner.value.slot) == log.owner.value.key {
        st := st.(named := true, finished := false, superseded := false,
                  namedAt := instant(ev.time), finishedAt := 0);
        slot := ev.slot;
      } else if naming {
        st := st.(superseded := st.superseded || st.named);
      } else if st.named && slot.Some? && ev.slot == slot && (ev.what.ChildFinish? || ev.what.ChildStart?) {
        if !st.finished {
          st := st.(finishedAt := instant(ev.time));
        }
        st := st.(finished := true);
      }
    }
  }

  lemma NoneAfter(path: string, es: seq<Event>, n: nat)
    requires n <= |es|
    ensures !NamedByAnother(path, es, n, n)
  {
  }

  /** Whose behalf an event names a path on: any Dispatch's, or the one whose slot it
      is on and whose child_start was then the slot's latest. */
  lemma {:induction false} NamesIff(log: Log, es: seq<Event>, i: nat)
    requires i < |es|
    ensures Names(log, es, i) <==>
      && (es[i].what == ChildStart || es[i].what == Box)
      && (if es[i].what == Box then es[i].passLog else es[i].childLog) == log.path
      && (log.owner.Some? ==>
            var slot := log.owner.value.slot; var k := LatestStart(slot, es, i + 1);
            && es[i].slot == Some(slot)
            && log.owner.value.key == if k.None? then Key("", 0) else Key(es[k.value].time, StartNAt(slot, es, k.value)))
  {
    hide ClaimedAll, Starts, LastKey, StartNAt;
    if log.owner.Some? {
      var slot := log.owner.value.slot;
      OwnerIsLatestStart(es[..i + 1], slot);
      StartsUpToLatest(slot, es, i + 1);
      var k := LatestStart(slot, es, i + 1);
      if k.Some? {
        LastKeyAtStart(slot, es, k.value);
      } else {
        NoLastKey(Starts(es[..i + 1], slot));
      }
    }
  }

  lemma NoLastKey(ts: seq<string>)
    ensures ts == [] ==> LastKey(ts).None?
  {
  }

  /** The slot that named the path at `l` ended what it ran at `i`: its child
      finished, or another one started that does not name the path again. */
  predicate EndedAt(path: string, es: seq<Event>, l: nat, i: nat)
    requires l < |es| && i < |es|
  {
    && l < i && es[l].slot.Some? && es[i].slot == es[l].slot
    && (es[i].what == ChildFinish || (es[i].what == ChildStart && es[i].childLog != path))
  }

  predicate FirstEndedAt(path: string, es: seq<Event>, l: nat, i: nat)
    requires l < |es| && i < |es|
  {
    EndedAt(path, es, l, i) && forall j :: l < j < i ==> !EndedAt(path, es, l, j)
  }

  /** What the answer says, from the last naming `l` on: a log whose naming has no
      slot has finished, any other one once its slot has ended something since; the
      times are those of the naming and of the first such end. */
  lemma {:induction false} StatusIs(log: Log, instant: string -> int, es: seq<Event>, n: nat, l: nat)
    requires l < n <= |es| && Names(log, es, l)
    requires forall i :: l < i < n ==> !Names(log, es, i)
    ensures var st := Meaning(log, instant, es, n);
      && st.named && st.namedAt == instant(es[l].time) && (st.owned <==> log.owner.Some?)
      && (st.finished <==> es[l].slot.None? || exists i :: l < i < n && EndedAt(log.path, es, l, i))
      && (forall i :: l < i < n && FirstEndedAt(log.path, es, l, i) ==> st.finishedAt == instant(es[i].time))
      && ((forall i :: l < i < n ==> !EndedAt(log.path, es, l, i)) ==> st.finishedAt == 0)
  {
    hide Names, LastNamed, FirstEnd;
    LastNamedIs(log, es, n, l);
    forall i | l < i < n ensures Ends(log.path, es[l].slot, es, i) <==> EndedAt(log.path, es, l, i) {
      EndsIff(log.path, es, l, i);
    }
    hide Ends, EndedAt;
  }

  lemma EndsIff(path: string, es: seq<Event>, l: nat, i: nat)
    requires l < i < |es|
    ensures Ends(path, es[l].slot, es, i) <==> EndedAt(path, es, l, i)
  {
  }

  lemma LastNamedIs(log: Log, es: seq<Event>, n: nat, l: nat)
    requires l < n <= |es| && Names(log, es, l)
    requires forall i :: l < i < n ==> !Names(log, es, i)
    ensures LastNamed(log, es, n) == Some(l)
  {
    hide Names;
  }

  /** A log nothing has named is not served, and nothing is said of it. */
  lemma UnnamedIs(log: Log, instant: string -> int, es: seq<Event>, n: nat)
    requires n <= |es| && forall i :: 0 <= i < n ==> !Names(log, es, i)
    ensures Meaning(log, instant, es, n) == Status(false, false, false, log.owner.Some?, 0, 0)
  {
    hide Names;
  }

  /** A Dispatch is superseded at once when any other Dispatch names its path, and
      stays so until it names the path again itself. */
  lemma SupersededIff(log: Log, instant: string -> int, es: seq<Event>, n: nat)
    requires n <= |es| && log.owner.Some?
    ensures Meaning(log, instant, es, n).superseded <==>
            exists i, j :: 0 <= i < j < n && Names(log, es, i) && Naming(log.path, es[j])
                           && forall m :: j <= m < n ==> !Names(log, es, m)
  {
    var l := LastNamed(log, es, n);
    if Meaning(log, instant, es, n).superseded {
      var j :| l.value + 1 <= j < n && Naming(log.path, es[j]);
      assert forall m :: j <= m < n ==> !Names(log, es, m);
    }
    if i, j :| 0 <= i < j < n && Names(log, es, i) && Naming(log.path, es[j])
               && forall m :: j <= m < n ==> !Names(log, es, m) {
      assert l.Some? && l.value < j;
    }
  }

  /** Asked without a Dispatch, a log is never superseded. */
  lemma NoOwnerNeverSuperseded(path: string, instant: string -> int, es: seq<Event>, n: nat)
    requires n <= |es|
    ensures !Meaning(Log(path, None), instant, es, n).superseded
    ensures Meaning(Log(path, None), instant, es, n).named <==> exists i :: 0 <= i < n && Naming(path, es[i])
  {
    var log := Log(path, None);
    if i :| 0 <= i < n && Naming(path, es[i]) {
      assert Names(log, es, i);
    }
  }

  /** The events of a Dispatch's segment, found in the whole stream: each came
      after its child_start with no other child_start on the slot in between. */
  lemma {:induction false} SegmentIsOwned(slot: int, es: seq<Event>, k: nat, n: nat, m: nat)
    requires k < n <= |es| && StartsOn(es[k], slot)
    requires m < |Segment(slot, es[k + 1..n])|
    ensures exists i :: k < i < n && es[i] == Segment(slot, es[k + 1..n])[m] && es[i].slot == Some(slot)
                        && LatestStart(slot, es, i + 1) == Some(k)
  {
    if n > k + 1 {
      var later := es[k + 1..n];
      assert later[..|later| - 1] == es[k + 1..n - 1];
      if m < |Segment(slot, es[k + 1..n - 1])| {
        SegmentIsOwned(slot, es, k, n - 1, m);
      } else {
        assert es[n - 1] == later[|later| - 1];
        forall i | k < i < n ensures !StartsOn(es[i], slot) {
          assert later[i - k - 1] == es[i];
        }
        LatestIs(slot, es, n, k);
      }
    }
  }

  lemma LatestIs(slot: int, es: seq<Event>, n: nat, k: nat)
    requires k < n <= |es| && StartsOn(es[k], slot)
    requires forall i :: k < i < n ==> !StartsOn(es[i], slot)
    ensures LatestStart(slot, es, n) == Some(k)
  {
  }

  /** A Dispatch's own child log is served to it from its child_start on. */
  lemma {:induction false} ChildLogIsServed(slot: int, es: seq<Event>, k: nat, n: nat, instant: string -> int)
    requires k < n <= |es| && StartsOn(es[k], slot)
    ensures Meaning(Log(es[k].childLog, Some(OwnerAt(slot, es, k))), instant, es, n).named
    ensures Meaning(Log(es[k].childLog, None), instant, es, n).named
  {
    hide StartNAt;
    LatestIs(slot, es, k + 1, k);
    NamesIff(Log(es[k].childLog, Some(OwnerAt(slot, es, k))), es, k);
    NamesIff(Log(es[k].childLog, None), es, k);
  }

  lemma {:induction false} NamedOnce(log: Log, instant: string -> int, es: seq<Event>, i: nat)
    requires i < |es| && Names(log, es, i)
    ensures Meaning(log, instant, es, |es|).named
  {
  }

  /** The owner a tab passes along: its Dispatch's slot and identity. */
  function OwnerAt(slot: int, es: seq<Event>, k: nat): Owner
    requires k < |es|
  {
    Owner(slot, Key(es[k].time, StartNAt(slot, es, k)))
  }

  /** Every tab the drill-in page lists is announced as its Dispatch's own, so the
      log endpoint serves it; whatever else the Events file holds. */
  lemma {:induction false} ListedTabsAreServed(slot: int, es: seq<Event>, k: nat, log: PassLog, instant: string -> int)
    requires k < |es| && StartsOn(es[k], slot)
    requires log in PassLogsOf(HistoryAt(slot, es, k).absorbed)
    ensures Meaning(Log(log.path, Some(OwnerAt(slot, es, k))), instant, es, |es|).named
  {
    hide ClaimedAll, Starts, LastKey, StartNAt, PassLogsOf, Segment, Meaning, LatestStart;
    var seg := Segment(slot, es[k + 1..]);
    assert es[k + 1..|es|] == es[k + 1..];
    PassLogsMeaning(seg, log);
    var m: nat :| FirstAnnounces(seg, m, log);
    SegmentIsOwned(slot, es, k, |es|, m);
    var i :| k < i < |es| && es[i] == seg[m] && es[i].slot == Some(slot)
             && LatestStart(slot, es, i + 1) == Some(k);
    OwnerIsLatestStart(es[..i + 1], slot);
    StartsUpToLatest(slot, es, i + 1);
    LastKeyAtStart(slot, es, k);
    NamedOnce(Log(log.path, Some(OwnerAt(slot, es, k))), instant, es, i);
  }
}
