/** Choosing the issues of a selective dispatch (cmd/launcher/selective.go): fetch
    them once each, then drop whatever would wait on a blocker that is neither
    chosen nor done. */
module Eviction {
  import opened Options

  type Number = string

  datatype Issue = Issue(number: Number, labeled: bool)

  /** What stops an issue from running: its edges, and whether a blocker is
      already settled as far as that issue is concerned. */
  datatype Blockers = Blockers(edges: map<Number, seq<Number>>, ready: (Number, Number) -> bool)

  function Edges(b: Blockers, n: Number): seq<Number> {
    if n in b.edges then b.edges[n] else []
  }

  predicate Satisfied(b: Blockers, run: set<Number>, n: Number, blocker: Number) {
    blocker in run || b.ready(n, blocker)
  }

  predicate Unblocked(b: Blockers, run: set<Number>, n: Number) {
    forall i :: 0 <= i < |Edges(b, n)| ==> Satisfied(b, run, n, Edges(b, n)[i])
  }

  /** Every blocker of every member is a member or ready. */
  ghost predicate ClosedUnder(b: Blockers, run: set<Number>) {
    forall n, d :: n in run && n in b.edges && d in b.edges[n] ==> d in run || b.ready(n, d)
  }

  lemma UnblockedIff(b: Blockers, run: set<Number>, n: Number)
    ensures Unblocked(b, run, n) <==>
            forall d :: n in b.edges && d in b.edges[n] ==> d in run || b.ready(n, d)
  {
    var edges := Edges(b, n);
    if Unblocked(b, run, n) {
      forall d | n in b.edges && d in b.edges[n] ensures d in run || b.ready(n, d) {
        var i :| 0 <= i < |edges| && edges[i] == d;
        assert Satisfied(b, run, n, edges[i]);
      }
    }
  }

  lemma ClosedIff(b: Blockers, run: set<Number>)
    ensures ClosedUnder(b, run) <==> forall n :: n in run ==> Unblocked(b, run, n)
  {
    hide Unblocked;
    forall n ensures Unblocked(b, run, n) <==>
                     forall d :: n in b.edges && d in b.edges[n] ==> d in run || b.ready(n, d) {
      UnblockedIff(b, run, n);
    }
  }

  function Numbers(issues: seq<Issue>): set<Number> {
    set i | 0 <= i < |issues| :: issues[i].number
  }

  /** The largest closed subset of `all`. */
  ghost predicate GreatestClosed(b: Blockers, all: set<Number>, run: set<Number>) {
    && run <= all && ClosedUnder(b, run)
    && forall other: set<Number> :: other <= all && ClosedUnder(b, other) ==> other <= run
  }

  /** The issues whose number is in `run`, in their order. */
  function Select(issues: seq<Issue>, run: set<Number>): (r: seq<Issue>)
    ensures |r| <= |issues|
  {
    if issues == [] then []
    else
      var last := issues[|issues| - 1];
      Select(issues[..|issues| - 1], run) + if last.number in run then [last] else []
  }

  datatype Notice = Notice(number: Number, blocker: Number)

  /** A notice about an issue that does not run names a blocker of it that neither
      runs nor is ready. */
  predicate NoticeHolds(b: Blockers, run: set<Number>, notice: Notice) {
    && notice.number !in run
    && notice.number in b.edges && notice.blocker in b.edges[notice.number]
    && notice.blocker !in run && !b.ready(notice.number, notice.blocker)
  }

  /** The notices cover the issues not in `run`: one for each. */
  ghost predicate NoticesFor(b: Blockers, issues: seq<Issue>, run: set<Number>, notices: seq<Notice>) {
    && (forall i :: 0 <= i < |notices| ==> NoticeHolds(b, run, notices[i]))
    && |notices| + |Select(issues, run)| == |issues|
    && NoticeNumbers(notices) == Numbers(issues) - run
  }

  function NoticeNumbers(notices: seq<Notice>): set<Number> {
    set i | 0 <= i < |notices| :: notices[i].number
  }

  /** The first blocker that is not satisfied. */
  method FirstUnmet(b: Blockers, run: set<Number>, n: Number) returns (dep: Number)
    requires !Unblocked(b, run, n)
    ensures dep in Edges(b, n) && !Satisfied(b, run, n, dep)
  {
    var deps := Edges(b, n);
    for i := 0 to |deps|
      invariant forall j :: 0 <= j < i ==> Satisfied(b, run, n, deps[j])
    {
      if !Satisfied(b, run, n, deps[i]) {
        return deps[i];
      }
    }
    assert false;
    return "?";
  }

  /** The members with an unsatisfied blocker, in the issues' order. */
  method Blocked(b: Blockers, issues: seq<Issue>, run: set<Number>)
    returns (evict: seq<Number>, ghost out: set<Number>)
    ensures out == set i | 0 <= i < |evict| :: evict[i]
    ensures out <= run && |evict| == |Select(issues, out)|
    ensures forall n :: n in out <==> n in Numbers(issues) && n in run && !Unblocked(b, run, n)
    ensures forall i :: 0 <= i < |evict| ==> !Unblocked(b, run, evict[i])
  {
    out := set i | 0 <= i < |issues| && issues[i].number in run && !Unblocked(b, run, issues[i].number) :: issues[i].number;
    evict := [];
    for i := 0 to |issues|
      invariant |evict| == |Select(issues[..i], out)|
      invariant forall j :: 0 <= j < |evict| ==> evict[j] in out
      invariant forall j :: 0 <= j < i && issues[j].number in out ==> issues[j].number in evict
    {
      assert issues[..i + 1][..i] == issues[..i];
      var n := issues[i].number;
      if n in run && !Unblocked(b, run, n) {
        evict := evict + [n];
      }
    }
    assert issues[..|issues|] == issues;
  }

  /** Drop the listed members one by one, with a notice each. */
  method Evict(b: Blockers, run: set<Number>, evict: seq<Number>, notices: seq<Notice>)
    returns (left: set<Number>, all: seq<Notice>)
    requires forall i :: 0 <= i < |evict| ==> !Unblocked(b, run, evict[i])
    requires forall i :: 0 <= i < |notices| ==> NoticeHolds(b, run, notices[i])
    ensures left == run - set i | 0 <= i < |evict| :: evict[i]
    ensures |all| == |notices| + |evict|
    ensures forall i :: 0 <= i < |all| ==> NoticeHolds(b, left, all[i])
    ensures NoticeNumbers(all) == NoticeNumbers(notices) + set i | 0 <= i < |evict| :: evict[i]
  {
    hide Unblocked;
    left, all := run, notices;
    for j := 0 to |evict|
      invariant left == run - set i | 0 <= i < j :: evict[i]
      invariant |all| == |notices| + j
      invariant forall i :: 0 <= i < |all| ==> NoticeHolds(b, left, all[i])
      invariant NoticeNumbers(all) == NoticeNumbers(notices) + set i | 0 <= i < j :: evict[i]
    {
      StillBlocked(b, run, left, evict[j]);
      var dep := FirstUnmet(b, left, evict[j]);
      NoticeAppend(all, Notice(evict[j], dep));
      var gone := set i | 0 <= i < j :: evict[i];
      assert (set i | 0 <= i < j + 1 :: evict[i]) == gone + {evict[j]};
      all := all + [Notice(evict[j], dep)];
      left := left - {evict[j]};
    }
  }

  lemma StillBlocked(b: Blockers, run: set<Number>, left: set<Number>, n: Number)
    requires left <= run && !Unblocked(b, run, n)
    ensures !Unblocked(b, left, n)
  {
    var i :| 0 <= i < |Edges(b, n)| && !Satisfied(b, run, n, Edges(b, n)[i]);
    assert !Satisfied(b, left, n, Edges(b, n)[i]);
  }

  lemma NoticeAppend(notices: seq<Notice>, last: Notice)
    ensures NoticeNumbers(notices + [last]) == NoticeNumbers(notices) + {last.number}
  {
    var all := notices + [last];
    forall n | n in NoticeNumbers(notices) + {last.number} ensures n in NoticeNumbers(all) {
      if n in NoticeNumbers(notices) {
        var i :| 0 <= i < |notices| && notices[i].number == n;
        assert all[i].number == n;
      } else {
        assert all[|notices|].number == n;
      }
    }
  }

  lemma {:induction false} SelectSplits(issues: seq<Issue>, run: set<Number>, out: set<Number>)
    requires out <= run
    ensures |Select(issues, run)| == |Select(issues, run - out)| + |Select(issues, out)|
  {
    if issues != [] {
      SelectSplits(issues[..|issues| - 1], run, out);
    }
  }

  lemma {:induction false} SelectAll(issues: seq<Issue>, run: set<Number>)
    requires Numbers(issues) <= run
    ensures Select(issues, run) == issues
  {
    if issues != [] {
      var before := issues[..|issues| - 1];
      forall n | n in Numbers(before) ensures n in run {
        var i :| 0 <= i < |before| && before[i].number == n;
        assert issues[i].number in Numbers(issues);
      }
      assert issues[|issues| - 1].number in Numbers(issues);
      SelectAll(before, run);
    }
  }

  /** No closed set holds a member that is blocked within `run`. */
  lemma {:induction false} MembersAreUnblocked(b: Blockers, run: set<Number>, other: set<Number>, n: Number)
    requires n in other && other <= run && ClosedUnder(b, other)
    ensures Unblocked(b, run, n)
  {
    ClosedIff(b, other);
    assert Unblocked(b, other, n);
    forall i | 0 <= i < |Edges(b, n)| ensures Satisfied(b, run, n, Edges(b, n)[i]) {
      assert Satisfied(b, other, n, Edges(b, n)[i]);
    }
  }

  /** Every closed set of the issues is still within `run`. */
  ghost predicate HoldsEveryClosedSet(b: Blockers, all: set<Number>, run: set<Number>) {
    forall other: set<Number> :: other <= all && ClosedUnder(b, other) ==> other <= run
  }

  lemma {:induction false} EvictingKeepsEveryClosedSet(b: Blockers, all: set<Number>, run: set<Number>, out: set<Number>)
    requires HoldsEveryClosedSet(b, all, run)
    requires forall n :: n in out ==> !Unblocked(b, run, n)
    ensures HoldsEveryClosedSet(b, all, run - out)
  {
    forall other: set<Number> | other <= all && ClosedUnder(b, other) ensures other <= run - out {
      hide Unblocked, ClosedUnder;
      forall n | n in other ensures n !in out {
        MembersAreUnblocked(b, run, other, n);
      }
    }
  }

  /** Remove the issues whose unmet blockers are absent from the list, until
      nothing more goes. */
  method EvictUnmetBlockers(b: Blockers, issues: seq<Issue>) returns (kept: seq<Issue>, notices: seq<Notice>)
    ensures GreatestClosed(b, Numbers(issues), Numbers(kept))
    ensures kept == Select(issues, Numbers(kept))
    ensures NoticesFor(b, issues, Numbers(kept), notices)
  {
    var run := Numbers(issues);
    notices := [];
    hide NoticesFor, NoticeHolds, HoldsEveryClosedSet, ClosedUnder, Unblocked, Select, Numbers, NoticeNumbers;
    NothingEvicted(b, issues);
    while true
      invariant run <= Numbers(issues)
      invariant NoticesFor(b, issues, run, notices)
      invariant HoldsEveryClosedSet(b, Numbers(issues), run)
      decreases |run|
    {
      var evict, out := Blocked(b, issues, run);
      if evict == [] {
        NothingBlocked(b, issues, run);
        break;
      }
      EvictingKeepsEveryClosedSet(b, Numbers(issues), run, out);
      assert evict[0] in out;
      ghost var was, before := run, notices;
      AllHold(b, issues, run, notices);
      run, notices := Evict(b, run, evict, notices);
      MoreNotices(b, issues, was, out, |evict|, before, notices);
    }
    kept := Select(issues, run);
    SelectedNumbers(issues, run);
    GreatestOf(b, Numbers(issues), run);
  }

  lemma GreatestOf(b: Blockers, all: set<Number>, run: set<Number>)
    requires run <= all && ClosedUnder(b, run) && HoldsEveryClosedSet(b, all, run)
    ensures GreatestClosed(b, all, run)
  {
  }

  lemma AllHold(b: Blockers, issues: seq<Issue>, run: set<Number>, notices: seq<Notice>)
    requires NoticesFor(b, issues, run, notices)
    ensures forall i :: 0 <= i < |notices| ==> NoticeHolds(b, run, notices[i])
  {
  }

  lemma {:induction false} NothingEvicted(b: Blockers, issues: seq<Issue>)
    ensures NoticesFor(b, issues, Numbers(issues), [])
    ensures HoldsEveryClosedSet(b, Numbers(issues), Numbers(issues))
  {
    SelectAll(issues, Numbers(issues));
  }

  /** The notices of one more round, and those before it, cover what is gone now. */
  lemma {:induction false} MoreNotices(b: Blockers, issues: seq<Issue>, run: set<Number>, out: set<Number>,
                                       evicted: nat, before: seq<Notice>, notices: seq<Notice>)
    requires NoticesFor(b, issues, run, before) && out <= run <= Numbers(issues)
    requires evicted == |Select(issues, out)| && |notices| == |before| + evicted
    requires forall i :: 0 <= i < |notices| ==> NoticeHolds(b, run - out, notices[i])
    requires NoticeNumbers(notices) == NoticeNumbers(before) + out
    ensures NoticesFor(b, issues, run - out, notices)
  {
    SelectSplits(issues, run, out);
  }

  lemma {:induction false} NothingBlocked(b: Blockers, issues: seq<Issue>, run: set<Number>)
    requires run <= Numbers(issues)
    requires forall n :: n in Numbers(issues) && n in run ==> Unblocked(b, run, n)
    ensures ClosedUnder(b, run)
  {
    ClosedIff(b, run);
    forall n | n in run ensures Unblocked(b, run, n) {
      assert n in Numbers(issues);
    }
  }

  lemma {:induction false} SelectedNumbers(issues: seq<Issue>, run: set<Number>)
    requires run <= Numbers(issues)
    ensures Numbers(Select(issues, run)) == run
  {
    SelectedWhich(issues, run);
    forall n | n in run ensures n in Numbers(Select(issues, run)) {}
  }

  lemma {:induction false} SelectedWhich(issues: seq<Issue>, run: set<Number>)
    ensures forall n :: n in Numbers(Select(issues, run)) <==> n in Numbers(issues) && n in run
  {
    if issues != [] {
      var before, last := issues[..|issues| - 1], issues[|issues| - 1];
      SelectedWhich(before, run);
      var r, s := Select(before, run), Select(issues, run);
      assert issues == before + [last];
      NumbersAppend(before, last);
      if last.number in run {
        NumbersAppend(r, last);
      } else {
        assert s == r;
      }
    }
  }

  lemma NumbersAppend(issues: seq<Issue>, last: Issue)
    ensures Numbers(issues + [last]) == Numbers(issues) + {last.number}
  {
    var all := issues + [last];
    forall n | n in Numbers(issues) + {last.number} ensures n in Numbers(all) {
      if n in Numbers(issues) {
        var i :| 0 <= i < |issues| && issues[i].number == n;
        assert all[i].number == n;
      } else {
        assert all[|issues|].number == n;
      }
    }
  }

  datatype Fetch = Fetched(issues: seq<Issue>, unlabeled: seq<Number>, repeated: seq<Number>) | FetchError(num: Number)

  /** What the tracker resolves each number to, if it does. */
  function Resolve(tracker: Number -> Option<Issue>, nums: seq<Number>): (r: seq<Issue>)
    requires forall i :: 0 <= i < |nums| ==> tracker(nums[i]).Some?
    ensures |r| == |nums|
  {
    seq(|nums|, i requires 0 <= i < |nums| => tracker(nums[i]).value)
  }

  /** The first issue of each number, in order. */
  function Firsts(issues: seq<Issue>): seq<Issue> {
    if issues == [] then []
    else
      var before, last := issues[..|issues| - 1], issues[|issues| - 1];
      Firsts(before) + if last.number in Numbers(before) then [] else [last]
  }

  /** The numbers seen before, in order. */
  function Repeats(issues: seq<Issue>): seq<Number> {
    if issues == [] then []
    else
      var before, last := issues[..|issues| - 1], issues[|issues| - 1];
      Repeats(before) + if last.number in Numbers(before) then [last.number] else []
  }

  function Unlabeled(issues: seq<Issue>): seq<Number> {
    if issues == [] then []
    else
      var last := issues[|issues| - 1];
      Unlabeled(issues[..|issues| - 1]) + if last.labeled then [] else [last.number]
  }

  ghost predicate DistinctNumbers(issues: seq<Issue>) {
    forall i, j :: 0 <= i < j < |issues| ==> issues[i].number != issues[j].number
  }

  /** Ask for every number in turn and list each issue once; fails with the first
      number the tracker cannot resolve. */
  method FetchSelectiveIssues(tracker: Number -> Option<Issue>, nums: seq<Number>) returns (r: Fetch)
    ensures r.FetchError? ==>
      exists i :: 0 <= i < |nums| && nums[i] == r.num && tracker(nums[i]).None?
                  && forall j :: 0 <= j < i ==> tracker(nums[j]).Some?
    ensures r.Fetched? ==>
      && (forall i :: 0 <= i < |nums| ==> tracker(nums[i]).Some?)
      && var all := Resolve(tracker, nums);
         && r.issues == Firsts(all) && r.repeated == Repeats(all) && r.unlabeled == Unlabeled(r.issues)
         && DistinctNumbers(r.issues) && Numbers(r.issues) == Numbers(all)
         && (forall n :: n in r.unlabeled <==> exists i :: 0 <= i < |r.issues| && r.issues[i] == Issue(n, false))
         && (forall n :: n in r.repeated <==> exists i, j :: 0 <= i < j < |all| && all[i].number == all[j].number == n)
  {
    hide Resolve, Took, Numbers, Firsts, Repeats, Unlabeled, DistinctNumbers;
    TookNone();
    var seen: set<Number> := {};
    var issues: seq<Issue> := [];
    var unlabeled: seq<Number> := [];
    var repeated: seq<Number> := [];
    ghost var all: seq<Issue> := [];
    for i := 0 to |nums|
      invariant |all| == i && forall j :: 0 <= j < i ==> tracker(nums[j]) == Some(all[j])
      invariant Took(all, seen, issues, repeated, unlabeled)
    {
      var issue := tracker(nums[i]);
      if issue.None? {
        return FetchError(nums[i]);
      }
      TookOne(all, seen, issues, repeated, unlabeled, issue.value);
      all := all + [issue.value];
      if issue.value.number in seen {
        repeated := repeated + [issue.value.number];
        continue;
      }
      seen := seen + {issue.value.number};
      issues := issues + [issue.value];
      if !issue.value.labeled {
        unlabeled := unlabeled + [issue.value.number];
      }
    }
    ResolvedAll(tracker, nums, all);
    FirstsAreDistinct(all);
    TookAll(all, seen, issues, repeated, unlabeled);
    UnlabeledAre(issues);
    RepeatsAre(all);
    return Fetched(issues, unlabeled, repeated);
  }

  lemma {:induction false} UnlabeledAre(issues: seq<Issue>)
    ensures forall n :: n in Unlabeled(issues) <==> exists i :: 0 <= i < |issues| && issues[i] == Issue(n, false)
  {
    if issues != [] {
      var before, last := issues[..|issues| - 1], issues[|issues| - 1];
      UnlabeledAre(before);
      assert forall i :: 0 <= i < |before| ==> before[i] == issues[i];
    }
  }

  lemma {:induction false} RepeatsAre(issues: seq<Issue>)
    ensures forall n :: n in Repeats(issues) <==>
                        exists i, j :: 0 <= i < j < |issues| && issues[i].number == issues[j].number == n
  {
    if issues != [] {
      var before, last := issues[..|issues| - 1], issues[|issues| - 1];
      RepeatsAre(before);
      assert forall i :: 0 <= i < |before| ==> before[i] == issues[i];
      if last.number in Numbers(before) {
        var i :| 0 <= i < |before| && before[i].number == last.number;
        assert issues[i].number == issues[|issues| - 1].number;
      } else {
        forall i | 0 <= i < |before| ensures before[i].number != last.number {
          assert before[i].number in Numbers(before);
        }
      }
    }
  }

  lemma ResolvedAll(tracker: Number -> Option<Issue>, nums: seq<Number>, all: seq<Issue>)
    requires |all| == |nums| && forall j :: 0 <= j < |nums| ==> tracker(nums[j]) == Some(all[j])
    ensures Resolve(tracker, nums) == all
  {
  }

  ghost predicate Took(all: seq<Issue>, seen: set<Number>, issues: seq<Issue>, repeated: seq<Number>, unlabeled: seq<Number>) {
    && seen == Numbers(all) && issues == Firsts(all) && repeated == Repeats(all) && unlabeled == Unlabeled(issues)
  }

  lemma TookNone()
    ensures Took([], {}, [], [], [])
  {
  }

  lemma TookAll(all: seq<Issue>, seen: set<Number>, issues: seq<Issue>, repeated: seq<Number>, unlabeled: seq<Number>)
    requires Took(all, seen, issues, repeated, unlabeled)
    ensures issues == Firsts(all) && repeated == Repeats(all) && unlabeled == Unlabeled(issues)
  {
  }

  lemma {:induction false} TookOne(all: seq<Issue>, seen: set<Number>, issues: seq<Issue>,
                                   repeated: seq<Number>, unlabeled: seq<Number>, issue: Issue)
    requires Took(all, seen, issues, repeated, unlabeled)
    ensures issue.number in seen ==> Took(all + [issue], seen, issues, repeated + [issue.number], unlabeled)
    ensures issue.number !in seen ==>
      Took(all + [issue], seen + {issue.number}, issues + [issue], repeated,
           if issue.labeled then unlabeled else unlabeled + [issue.number])
  {
    NumbersAppend(all, issue);
    assert (all + [issue])[..|all|] == all && (issues + [issue])[..|issues|] == issues;
    assert issue.number in seen ==> seen + {issue.number} == seen;
    assert issues + [] == issues && repeated + [] == repeated && unlabeled + [] == unlabeled;
  }

  lemma {:induction false} FirstsAreDistinct(issues: seq<Issue>)
    ensures DistinctNumbers(Firsts(issues)) && Numbers(Firsts(issues)) == Numbers(issues)
    ensures |Firsts(issues)| + |Repeats(issues)| == |issues|
  {
    if issues != [] {
      var before, last := issues[..|issues| - 1], issues[|issues| - 1];
      FirstsAreDistinct(before);
      assert issues == before + [last];
      NumbersAppend(before, last);
      if last.number !in Numbers(before) {
        NumbersAppend(Firsts(before), last);
        forall i | 0 <= i < |Firsts(before)| ensures Firsts(before)[i].number != last.number {
          assert Firsts(before)[i].number in Numbers(Firsts(before));
        }
      } else {
        assert Firsts(issues) == Firsts(before);
      }
    }
  }
}
