/** The history page over the Events file (dashboard/history.go): the newest rows
    kept by lazy trimming, then the rows each poll adds, all owned as one scan of
    everything would own them. */
module History {
  import opened Options
  import opened Dispatches
  import opened DispatchViews
  import opened DispatchFollows
  import opened FollowTheorems

  const HISTORY_LIMIT := 200

  /** A timeline row: the event it shows and the Dispatch it belongs to. */
  datatype Row = Row(event: Event, owner: Option<Key>)

  /** Heartbeats, probes, a child_finish and the like get no row. */
  predicate OnTimeline(what: What) {
    !what.ChildFinish? && !what.Other?
  }

  /** The rows of a whole scan, oldest first, with the ownership of every event. */
  function Timeline(es: seq<Event>): seq<Row> {
    if es == [] then []
    else
      var ev := es[|es| - 1];
      Timeline(es[..|es| - 1]) +
      if OnTimeline(ev.what) then [Row(ev, Lookup(ClaimedAll(es), ev.slot))] else []
  }

  function Newest<T>(n: nat, s: seq<T>): seq<T> {
    if |s| > n then s[|s| - n..] else s
  }

  function Reversed<T>(s: seq<T>): (r: seq<T>)
    ensures |r| == |s|
    ensures forall i :: 0 <= i < |s| ==> r[i] == s[|s| - 1 - i]
  {
    if s == [] then [] else [s[|s| - 1]] + Reversed(s[..|s| - 1])
  }

  /** One more event adds its row, if it is of a kind the timeline shows. */
  lemma TimelineAppend(es: seq<Event>, ev: Event)
    ensures Timeline(es + [ev]) == Timeline(es) +
      if ev.what in {ChildStart, Box, Settled, Backoff, Jam, BreakerTrip, Halt, SelfUpdate, ChildInherited, ImageBuild}
      then [Row(ev, Lookup(ClaimedAll(es + [ev]), ev.slot))] else []
  {
    assert (es + [ev])[..|es|] == es;
  }

  ghost predicate IsSuffix<T>(s: seq<T>, t: seq<T>) {
    |s| <= |t| && t[|t| - |s|..] == s
  }

  /** The rows held between events: at most twice the limit, and no newer row is
      ever missing. */
  ghost predicate Trimmed(chrono: seq<Row>, all: seq<Row>) {
    && |chrono| <= 2 * HISTORY_LIMIT
    && IsSuffix(chrono, all)
    && (|chrono| < HISTORY_LIMIT ==> chrono == all)
  }

  lemma TrimmedNext(chrono: seq<Row>, all: seq<Row>, row: Row)
    requires Trimmed(chrono, all)
    ensures var longer := chrono + [row];
      Trimmed(if |longer| > 2 * HISTORY_LIMIT then longer[|longer| - HISTORY_LIMIT..] else longer, all + [row])
  {
    var longer, rows := chrono + [row], all + [row];
    assert rows[|rows| - |longer|..] == all[|all| - |chrono|..] + [row];
    if |longer| > 2 * HISTORY_LIMIT {
      assert rows[|rows| - HISTORY_LIMIT..] == longer[|longer| - HISTORY_LIMIT..];
    }
  }

  /** Turn the rows round. */
  method NewestFirst(chrono: seq<Row>) returns (out: seq<Row>)
    ensures out == Reversed(chrono)
  {
    out := [];
    for i := 0 to |chrono|
      invariant |out| == i
      invariant forall j :: 0 <= j < i ==> out[j] == chrono[i - 1 - j]
    {
      out := [chrono[i]] + out;
    }
  }

  class EventsFollower {
    const owners: DispatchOwners
    ghost var seen: seq<Event>

    constructor ()
      ensures Valid() && seen == [] && fresh(owners)
    {
      owners := new DispatchOwners();
      seen := [];
    }

    /** Claiming only the events on the timeline assigns the ownership of
        claiming them all. */
    ghost predicate Valid()
      reads this, owners
    {
      owners.latest == ClaimedAll(seen)
    }

    method EntryOf(ev: Event) returns (e: Option<Row>)
      requires Valid()
      modifies this, owners
      ensures Valid() && seen == old(seen) + [ev]
      ensures Timeline(seen) == Timeline(old(seen)) + if e.Some? then [e.value] else []
      ensures e.Some? <==> OnTimeline(ev.what)
    {
      TimelineAppend(seen, ev);
      ClaimedAllFrom(seen, ev);
      seen := seen + [ev];
      if !OnTimeline(ev.what) {
        return None;
      }
      var owner := owners.Claim(ev);
      return Some(Row(ev, owner));
    }

    /** The snapshot: the newest rows of everything on disk, newest first. */
    method Open(es: seq<Event>) returns (out: seq<Row>)
      requires Valid() && seen == []
      modifies this, owners
      ensures Valid() && seen == es
      ensures out == Reversed(Newest(HISTORY_LIMIT, Timeline(es)))
    {
      hide ClaimedAll, Timeline;
      NoRows();
      var chrono: seq<Row> := [];
      for i := 0 to |es|
        invariant Valid() && seen == es[..i]
        invariant Trimmed(chrono, Timeline(seen))
      {
        assert es[..i + 1] == es[..i] + [es[i]];
        ghost var all := Timeline(seen);
        var e := EntryOf(es[i]);
        if e.Some? {
          TrimmedNext(chrono, all, e.value);
          chrono := chrono + [e.value];
          if |chrono| > 2 * HISTORY_LIMIT {
            chrono := chrono[|chrono| - HISTORY_LIMIT..];
          }
        } else {
          assert all + [] == all;
        }
      }
      assert es[..|es|] == es;
      NewestOfSuffix(HISTORY_LIMIT, chrono, Timeline(es));
      if |chrono| > HISTORY_LIMIT {
        chrono := chrono[|chrono| - HISTORY_LIMIT..];
      }
      out := NewestFirst(chrono);
    }

    /** The rows appended since, oldest first. */
    method Poll(es: seq<Event>) returns (out: seq<Row>)
      requires Valid()
      modifies this, owners
      ensures Valid() && seen == old(seen) + es
      ensures Timeline(seen) == Timeline(old(seen)) + out
    {
      hide ClaimedAll, Timeline;
      out := [];
      for i := 0 to |es|
        invariant Valid() && seen == old(seen) + es[..i]
        invariant Timeline(seen) == Timeline(old(seen)) + out
      {
        assert old(seen) + es[..i + 1] == old(seen) + es[..i] + [es[i]];
        var e := EntryOf(es[i]);
        if e.Some? {
          out := out + [e.value];
        }
      }
      assert es[..|es|] == es;
    }
  }

  lemma NoRows()
    ensures Timeline([]) == [] && ClaimedAll([]) == map[]
  {
  }

  lemma NewestOfSuffix<T>(n: nat, s: seq<T>, t: seq<T>)
    requires IsSuffix(s, t) && (|s| < n ==> s == t)
    ensures Newest(n, s) == Newest(n, t)
  {
  }

  /** The snapshot turned round and followed by everything polled since is the
      end of one full scan's timeline, from the newest rows at open on. */
  lemma {:induction false} SnapshotThenPolls(es: seq<Event>, more: seq<Event>, snapshot: seq<Row>, polled: seq<Row>)
    requires snapshot == Reversed(Newest(HISTORY_LIMIT, Timeline(es)))
    requires Timeline(es + more) == Timeline(es) + polled
    ensures IsSuffix(Reversed(snapshot) + polled, Timeline(es + more))
    ensures |snapshot| == 200 || |snapshot| == |Timeline(es)| < 200
  {
    hide Timeline, Reversed, IsSuffix;
    var newest := Newest(HISTORY_LIMIT, Timeline(es));
    ReversedTwice(newest);
    NewestIsSuffix(HISTORY_LIMIT, Timeline(es));
    SuffixWith(newest, Timeline(es), polled);
  }

  lemma {:induction false} ReversedTwice<T>(s: seq<T>)
    ensures Reversed(Reversed(s)) == s
  {
  }

  lemma NewestIsSuffix<T>(n: nat, s: seq<T>)
    ensures IsSuffix(Newest(n, s), s)
  {
    assert s[0..] == s;
  }

  lemma SuffixWith<T>(s: seq<T>, t: seq<T>, more: seq<T>)
    requires IsSuffix(s, t)
    ensures IsSuffix(s + more, t + more)
  {
    var i := |t| - |s|;
    assert (t + more)[i..] == t[i..] + more;
  }

  /** Every row of a scan shows an event of it under the slot's owner just after
      that event. */
  lemma {:induction false} RowsAreOwnedEvents(es: seq<Event>, i: nat)
    requires i < |Timeline(es)|
    ensures exists r :: 0 <= r < |es| && Timeline(es)[i] == Row(es[r], RowOwner(es, r))
  {
    var n := |es| - 1;
    if i < |Timeline(es[..n])| {
      RowsAreOwnedEvents(es[..n], i);
      var r :| 0 <= r < n && Timeline(es[..n])[i] == Row(es[..n][r], RowOwner(es[..n], r));
      assert es[..n][..r + 1] == es[..r + 1];
      assert Timeline(es)[i] == Row(es[r], RowOwner(es, r));
    } else {
      assert es[..n + 1] == es;
      assert Timeline(es)[i] == Row(es[n], RowOwner(es, n));
    }
  }

  /** A link built from any row, after any more events and after rotation has
      dropped the first of them, `a`: it names the latest child_start on its slot at
      or before the row, and LinkOutcome says what it finds. */
  lemma RowLinksResolve(es: seq<Event>, more: seq<Event>, a: seq<Event>, b: seq<Event>, i: nat)
    requires i < |Timeline(es)| && es + more == a + b
    requires forall slot :: Contiguous(Starts(a + b, slot))
    ensures var row := Timeline(es)[i];
      row.owner.Some? && row.owner.value.started != "" ==>
        exists r :: 0 <= r < |es| && row.event == es[r] && row.event.slot.Some?
          && var slot := row.event.slot.value; var k := LatestStart(slot, a + b, r + 1);
             k.Some? && Query(slot, row.owner.value.started, row.owner.value.n) == Naming(slot, a + b, k.value)
             && LinkOutcome(slot, a, b, k.value)
  {
    hide Timeline, LinkOutcome, ClaimedAll, Starts, StartNAt;
    RowsAreOwnedEvents(es, i);
    var r :| 0 <= r < |es| && Timeline(es)[i] == Row(es[r], RowOwner(es, r));
    assert (es + more)[..r + 1] == es[..r + 1];
    if es[r].slot.Some? {
      HistoryLinksResolve(a, b, r);
    }
  }
}
