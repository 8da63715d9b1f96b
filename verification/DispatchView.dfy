/** One Dispatch as the drill-in page shows it (dashboard/dispatch.go): the view
    built event by event, and what it means over the whole slice of events the
    slot reported between its child_start and the next one. */
module DispatchViews {
  import opened Options
  import opened Dispatches

  datatype PassLog = PassLog(phase: string, path: string)

  /** `issue` is the number a link is built from, empty when there is none. */
  datatype Subject = Subject(text: string, issue: string)

  datatype View = View(
    slot: int, kind: string, started: string, startN: nat, closed: bool,
    childLog: string, rev: string, subjects: seq<Subject>, phase: string,
    outcome: string, note: string, prUrl: string, exit: Option<int>, passLogs: seq<PassLog>)

  const REVISION_LEN := 12

  function ShortRev(r: string): string {
    if |r| > REVISION_LEN then r[..REVISION_LEN] else r
  }

  predicate IsIssueNumber(s: string) {
    s != "" && forall i :: 0 <= i < |s| ==> '0' <= s[i] <= '9'
  }

  function SubjectOf(issue: string, chore: string): Subject {
    if issue == "" then Subject(chore, "")
    else if IsIssueNumber(issue) then Subject("#" + issue, issue)
    else Subject(issue, "")
  }

  predicate HasPath(logs: seq<PassLog>, path: string) {
    exists i :: 0 <= i < |logs| && logs[i].path == path
  }

  predicate HasText(subjects: seq<Subject>, text: string) {
    exists i :: 0 <= i < |subjects| && subjects[i].text == text
  }

  predicate HasFinish(es: seq<Event>) {
    exists i :: 0 <= i < |es| && es[i].what.ChildFinish?
  }

  /** The event announces a Pass log the page has not listed. */
  predicate Announces(logs: seq<PassLog>, ev: Event) {
    ev.passLog != "" && !HasPath(logs, ev.passLog)
  }

  /** The Pass logs boxes announced before the child finished, each path once. */
  function PassLogsOf(es: seq<Event>): seq<PassLog> {
    if es == [] then []
    else
      var before, ev := PassLogsOf(es[..|es| - 1]), es[|es| - 1];
      if ev.what.Box? && !HasFinish(es[..|es| - 1]) && Announces(before, ev)
      then before + [PassLog(ev.phase, ev.passLog)] else before
  }

  predicate NewSubject(subjects: seq<Subject>, ev: Event) {
    var s := SubjectOf(ev.issue, ev.chore);
    s.text != "" && !HasText(subjects, s.text)
  }

  function SubjectsOf(es: seq<Event>): seq<Subject> {
    if es == [] then []
    else
      var before, ev := SubjectsOf(es[..|es| - 1]), es[|es| - 1];
      if ev.what.Box? && NewSubject(before, ev)
      then before + [SubjectOf(ev.issue, ev.chore)] else before
  }

  /** The latest event of the kind `which` picks. */
  function Latest(es: seq<Event>, which: Event -> bool): (r: Option<Event>)
    ensures r.None? <==> forall i :: 0 <= i < |es| ==> !which(es[i])
    ensures r.Some? ==> exists i :: 0 <= i < |es| && es[i] == r.value && which(es[i])
                              && forall j :: i < j < |es| ==> !which(es[j])
  {
    if es == [] then None
    else if which(es[|es| - 1]) then Some(es[|es| - 1])
    else Latest(es[..|es| - 1], which)
  }

  function IsBox(): Event -> bool { (ev: Event) => ev.what.Box? }
  function IsSettled(): Event -> bool { (ev: Event) => ev.what.Settled? }
  function IsFinish(): Event -> bool { (ev: Event) => ev.what.ChildFinish? }

  /** The revision the child was started at, or the first a child_finish names. */
  function RevisionOf(start: Event, es: seq<Event>): string {
    if es == [] then ShortRev(start.revision)
    else
      var before, ev := RevisionOf(start, es[..|es| - 1]), es[|es| - 1];
      if before == "" && ev.what.ChildFinish? then ShortRev(ev.revision) else before
  }

  /** What the page shows for the Dispatch `start` began, of which `es` are the
      later events on its slot; `taken` when the slot has since been taken over. */
  function Meaning(slot: int, start: Event, n: nat, es: seq<Event>, taken: bool): View {
    var box, settled, finish := Latest(es, IsBox()), Latest(es, IsSettled()), Latest(es, IsFinish());
    View(slot, start.kind, start.time, n,
         HasFinish(es) || taken,
         start.childLog,
         RevisionOf(start, es),
         SubjectsOf(es),
         if box.Some? then box.value.phase else "",
         if settled.Some? then settled.value.state else "",
         if settled.Some? then settled.value.note else "",
         if settled.Some? then settled.value.prUrl else "",
         if finish.Some? then finish.value.exit else None,
         PassLogsOf(es))
  }

  /** The events a view stands for. */
  datatype History = History(slot: int, start: Event, startN: nat, absorbed: seq<Event>, taken: bool)

  function MeaningOf(h: History): View {
    Meaning(h.slot, h.start, h.startN, h.absorbed, h.taken)
  }

  class DispatchView {
    const slot: int
    const kind: string
    const started: string
    const startN: nat
    const childLog: string
    var closed: bool
    var rev: string
    var subjects: seq<Subject>
    var phase: string
    var outcome: string
    var note: string
    var prUrl: string
    var exit: Option<int>
    var passLogs: seq<PassLog>

    // The history the fields stand for.
    ghost const start: Event
    ghost var absorbed: seq<Event>
    ghost var taken: bool

    constructor (slot: int, start: Event, n: nat)
      ensures Valid() && Stands() == History(slot, start, n, [], false)
    {
      this.slot, kind, started, startN, childLog := slot, start.kind, start.time, n, start.childLog;
      closed, rev, subjects, phase := false, ShortRev(start.revision), [], "";
      outcome, note, prUrl, exit, passLogs := "", "", "", None, [];
      this.start, absorbed, taken := start, [], false;
    }

    ghost function Stands(): History
      reads this
    {
      History(slot, start, startN, absorbed, taken)
    }

    function Shown(): View
      reads this
    {
      View(slot, kind, started, startN, closed, childLog, rev, subjects, phase,
           outcome, note, prUrl, exit, passLogs)
    }

    /** The fields built so far are what the absorbed events mean. */
    ghost predicate Valid()
      reads this
    {
      Shown() == MeaningOf(Stands())
    }

    method AddPassLog(ev: Event)
      modifies this`passLogs
      ensures passLogs == old(passLogs) +
                          if Announces(old(passLogs), ev) then [PassLog(ev.phase, ev.passLog)] else []
    {
      if ev.passLog == "" {
        return;
      }
      for i := 0 to |passLogs|
        invariant passLogs == old(passLogs)
        invariant forall j :: 0 <= j < i ==> passLogs[j].path != ev.passLog
      {
        if passLogs[i].path == ev.passLog {
          return;
        }
      }
      passLogs := passLogs + [PassLog(ev.phase, ev.passLog)];
    }

    method AddSubject(s: Subject)
      modifies this`subjects
      ensures subjects == old(subjects) +
                          if s.text != "" && !HasText(old(subjects), s.text) then [s] else []
    {
      if s.text == "" {
        return;
      }
      for i := 0 to |subjects|
        invariant subjects == old(subjects)
        invariant forall j :: 0 <= j < i ==> subjects[j].text != s.text
      {
        if subjects[i].text == s.text {
          return;
        }
      }
      subjects := subjects + [s];
    }

    /** A box: its phase, its Pass log unless the Dispatch has ended, its subject. */
    method AbsorbBox(ev: Event)
      modifies this`phase, this`passLogs, this`subjects
      ensures phase == ev.phase
      ensures passLogs == old(passLogs) +
                          if !closed && Announces(old(passLogs), ev) then [PassLog(ev.phase, ev.passLog)] else []
      ensures subjects == old(subjects) +
                          if NewSubject(old(subjects), ev) then [SubjectOf(ev.issue, ev.chore)] else []
    {
      hide Announces, HasText, SubjectOf;
      phase := ev.phase;
      if !closed {
        AddPassLog(ev);
      }
      AddSubject(SubjectOf(ev.issue, ev.chore));
    }

    method Absorb(ev: Event)
      requires Valid() && !Stands().taken
      modifies this
      ensures Valid() && Stands() == old(Stands()).(absorbed := old(Stands()).absorbed + [ev])
      ensures old(passLogs) <= passLogs
      ensures old(closed) ==> closed && passLogs == old(passLogs)
    {
      hide Meaning, Announces, NewSubject, SubjectOf, ShortRev, PassLogsOf, SubjectsOf, RevisionOf, Latest, HasFinish;
      MeaningAppend(slot, start, startN, absorbed, ev);
      match ev.what {
        case Box =>
          AbsorbBox(ev);
        case Settled =>
          outcome, note, prUrl := ev.state, ev.note, ev.prUrl;
        case ChildFinish =>
          exit := ev.exit;
          closed := true;
          if rev == "" {
            rev := ShortRev(ev.revision);
          }
        case _ =>
      }
      absorbed := absorbed + [ev];
    }

    /** A later child_start has taken over the slot. */
    method TakeOver()
      requires Valid()
      modifies this
      ensures Valid() && Stands() == old(Stands()).(taken := true)
    {
      closed := true;
      taken := true;
    }
  }

  /** What the page shows of a Dispatch that has only begun, and what a takeover adds
      to any. */
  lemma MeaningAtStart(slot: int, start: Event, n: nat, es: seq<Event>)
    ensures var v := Meaning(slot, start, n, [], false);
      && v.slot == slot && v.kind == start.kind && v.started == start.time && v.startN == n
      && v.childLog == start.childLog
      && v.rev <= start.revision && |v.rev| == (if |start.revision| <= 12 then |start.revision| else 12)
      && !v.closed && v.subjects == [] && v.passLogs == [] && v.exit.None?
      && v.phase == v.outcome == v.note == v.prUrl == ""
    ensures Meaning(slot, start, n, es, true) == Meaning(slot, start, n, es, false).(closed := true)
  {
  }

  /** How one more event changes each part of the view. */
  lemma MeaningAppend(slot: int, start: Event, n: nat, es: seq<Event>, ev: Event)
    ensures var v := Meaning(slot, start, n, es, false);
      Meaning(slot, start, n, es + [ev], false) == v.(
        closed := v.closed || ev.what.ChildFinish?,
        rev := if v.rev == "" && ev.what.ChildFinish? then ShortRev(ev.revision) else v.rev,
        subjects := v.subjects + (if ev.what.Box? && NewSubject(v.subjects, ev)
                                  then [SubjectOf(ev.issue, ev.chore)] else []),
        phase := if ev.what.Box? then ev.phase else v.phase,
        outcome := if ev.what.Settled? then ev.state else v.outcome,
        note := if ev.what.Settled? then ev.note else v.note,
        prUrl := if ev.what.Settled? then ev.prUrl else v.prUrl,
        exit := if ev.what.ChildFinish? then ev.exit else v.exit,
        passLogs := v.passLogs + (if ev.what.Box? && !v.closed && Announces(v.passLogs, ev)
                                  then [PassLog(ev.phase, ev.passLog)] else []))
  {
    hide HasFinish, Announces, NewSubject, SubjectOf, ShortRev;
    assert (es + [ev])[..|es|] == es;
    HasFinishAppend(es, ev);
  }

  lemma HasFinishAppend(es: seq<Event>, ev: Event)
    ensures HasFinish(es + [ev]) <==> HasFinish(es) || ev.what.ChildFinish?
  {
    if i :| 0 <= i < |es| && es[i].what.ChildFinish? {
      assert (es + [ev])[i].what.ChildFinish?;
    }
    if ev.what.ChildFinish? {
      assert (es + [ev])[|es|].what.ChildFinish?;
    }
  }

  /** Event `i` is the last of its kind. */
  ghost predicate LastOf(es: seq<Event>, i: nat, what: What) {
    i < |es| && es[i].what == what && forall j :: i < j < |es| ==> es[j].what != what
  }

  /** What the page shows of the events, field by field: the latest box's phase, the
      latest settlement, the latest finish's exit, and whether the child is gone. */
  lemma {:induction false} FieldsMeaning(slot: int, start: Event, n: nat, es: seq<Event>, taken: bool, i: nat)
    ensures var v := Meaning(slot, start, n, es, taken);
      && (LastOf(es, i, Box) ==> v.phase == es[i].phase)
      && (LastOf(es, i, Settled) ==> v.outcome == es[i].state && v.note == es[i].note && v.prUrl == es[i].prUrl)
      && (LastOf(es, i, ChildFinish) ==> v.exit == es[i].exit)
      && (v.closed <==> taken || exists j :: 0 <= j < |es| && es[j].what == ChildFinish)
  {
    hide SubjectsOf, PassLogsOf, RevisionOf;
    var box, settled, finish := Latest(es, IsBox()), Latest(es, IsSettled()), Latest(es, IsFinish());
    hide Latest;
    if LastOf(es, i, Box) {
      assert IsBox()(es[i]);
    }
    if LastOf(es, i, Settled) {
      assert IsSettled()(es[i]);
    }
    if LastOf(es, i, ChildFinish) {
      assert IsFinish()(es[i]);
    }
  }

  /** The revision shown: the child_start's, or else that of the first child_finish to
      name one. */
  lemma {:induction false} RevisionMeaning(start: Event, es: seq<Event>, i: nat)
    ensures start.revision != "" ==> RevisionOf(start, es) == RevisionOf(start, [])
    ensures start.revision == "" && (forall j :: 0 <= j < |es| && es[j].what == ChildFinish ==> es[j].revision == "") ==>
              RevisionOf(start, es) == ""
    ensures start.revision == "" && i < |es| && es[i].what == ChildFinish && es[i].revision != ""
              && (forall j :: 0 <= j < i && es[j].what == ChildFinish ==> es[j].revision == "") ==>
              RevisionOf(start, es) == ShortRev(es[i].revision)
  {
    if es != [] {
      var n := |es| - 1;
      assert forall j :: 0 <= j < n ==> es[..n][j] == es[j];
      RevisionMeaning(start, es[..n], i);
    }
  }

  ghost predicate DistinctTexts(subjects: seq<Subject>) {
    forall i, j :: 0 <= i < j < |subjects| ==> subjects[i].text != subjects[j].text
  }

  /** What a box event is about: its issue, by number when it is all digits, or its
      Chore. */
  predicate IsAbout(ev: Event, s: Subject) {
    && ev.what.Box?
    && (if ev.issue == "" then s.text == ev.chore && s.issue == ""
        else if forall i :: 0 <= i < |ev.issue| ==> ev.issue[i] in "0123456789"
        then s.text == "#" + ev.issue && s.issue == ev.issue
        else s.text == ev.issue && s.issue == "")
  }

  lemma DigitIs(c: char)
    ensures '0' <= c <= '9' <==> c in "0123456789"
  {
    if '0' <= c <= '9' {
      assert "0123456789"[c as int - '0' as int] == c;
    }
  }

  /** Event `i` is the first box about the subject, going by its label. */
  ghost predicate FirstAbout(es: seq<Event>, i: nat, s: Subject) {
    && i < |es| && IsAbout(es[i], s) && s.text != ""
    && forall j :: 0 <= j < i && es[j].what.Box? ==> SubjectOf(es[j].issue, es[j].chore).text != s.text
  }

  lemma SubjectIs(ev: Event, s: Subject)
    ensures IsAbout(ev, s) <==> ev.what.Box? && s == SubjectOf(ev.issue, ev.chore)
  {
    forall i | 0 <= i < |ev.issue| ensures '0' <= ev.issue[i] <= '9' <==> ev.issue[i] in "0123456789" {
      DigitIs(ev.issue[i]);
    }
  }

  /** The subjects shown: whatever the boxes were about, each label once, as the box
      that brought it up first had it. */
  lemma {:induction false} SubjectsMeaning(es: seq<Event>, s: Subject)
    ensures DistinctTexts(SubjectsOf(es))
    ensures s in SubjectsOf(es) <==> exists i :: FirstAbout(es, i, s)
  {
    hide IsAbout, SubjectOf;
    if es != [] {
      var before, ev := es[..|es| - 1], es[|es| - 1];
      SubjectsMeaning(before, s);
      assert es == before + [ev];
      FirstAboutBefore(before, ev, s);
      TextListedIff(before, s.text);
      SubjectIs(ev, s);
    }
  }

  lemma FirstAboutBefore(es: seq<Event>, ev: Event, s: Subject)
    ensures (exists i :: FirstAbout(es + [ev], i, s)) <==>
            (exists i :: FirstAbout(es, i, s)) || FirstAbout(es + [ev], |es|, s)
  {
    hide IsAbout, SubjectOf;
    forall i: nat | i < |es| ensures FirstAbout(es + [ev], i, s) <==> FirstAbout(es, i, s) {
      assert forall j :: 0 <= j <= i ==> (es + [ev])[j] == es[j];
    }
  }

  lemma {:induction false} TextListedIff(es: seq<Event>, text: string)
    ensures text != "" ==>
      (HasText(SubjectsOf(es), text) <==>
       exists i :: 0 <= i < |es| && es[i].what.Box? && SubjectOf(es[i].issue, es[i].chore).text == text)
  {
    hide SubjectOf;
    if es != [] {
      var n := |es| - 1;
      TextListedIff(es[..n], text);
      var before, now := SubjectsOf(es[..n]), SubjectsOf(es);
      assert forall i :: 0 <= i < |before| ==> now[i] == before[i];
      assert forall i :: 0 <= i < n ==> es[..n][i] == es[i];
      if es[n].what.Box? && NewSubject(before, es[n]) {
        assert now[|before|].text == SubjectOf(es[n].issue, es[n].chore).text;
      }
    }
  }

  ghost predicate DistinctPaths(logs: seq<PassLog>) {
    forall i, j :: 0 <= i < j < |logs| ==> logs[i].path != logs[j].path
  }

  /** Event `i` is the first box to announce its Pass log, with the child still
      running. */
  ghost predicate FirstAnnounces(es: seq<Event>, i: nat, log: PassLog) {
    && i < |es|
    && es[i].what.Box? && es[i].passLog == log.path != "" && es[i].phase == log.phase
    && !HasFinish(es[..i])
    && forall j :: 0 <= j < i ==> !(es[j].what.Box? && es[j].passLog == log.path)
  }

  /** The tab set: every Pass log a box announced while the child ran, under the
      phase that announced it first, and each path once. */
  lemma {:induction false} PassLogsMeaning(es: seq<Event>, log: PassLog)
    ensures DistinctPaths(PassLogsOf(es))
    ensures log in PassLogsOf(es) <==> exists i :: FirstAnnounces(es, i, log)
  {
    if es == [] {
    } else {
      var before, ev := es[..|es| - 1], es[|es| - 1];
      PassLogsMeaning(before, log);
      FirstAnnouncesBefore(before, ev, log);
      assert es == before + [ev];
      PathListedIff(before, log.path);
    }
  }

  lemma FirstAnnouncesBefore(es: seq<Event>, ev: Event, log: PassLog)
    ensures (exists i :: FirstAnnounces(es + [ev], i, log)) <==>
            (exists i :: FirstAnnounces(es, i, log)) || FirstAnnounces(es + [ev], |es|, log)
  {
    forall i: nat | i < |es|
      ensures FirstAnnounces(es + [ev], i, log) <==> FirstAnnounces(es, i, log)
    {
      assert (es + [ev])[..i] == es[..i];
      assert (es + [ev])[i] == es[i];
      assert forall j :: 0 <= j < i ==> (es + [ev])[j] == es[j];
    }
  }

  /** While the child runs, a path is listed as soon as some box named it. */
  lemma {:induction false} PathListedIff(es: seq<Event>, path: string)
    ensures path != "" && !HasFinish(es) ==>
      (HasPath(PassLogsOf(es), path) <==>
       exists i :: 0 <= i < |es| && es[i].what.Box? && es[i].passLog == path)
  {
    if path != "" && !HasFinish(es) && es != [] {
      var before := es[..|es| - 1];
      PathListedIff(before, path);
      var logs := PassLogsOf(before);
      if HasPath(logs, path) {
        var i :| 0 <= i < |logs| && logs[i].path == path;
        assert PassLogsOf(es)[i] == logs[i];
      }
      if es[|es| - 1].what.Box? && Announces(logs, es[|es| - 1]) {
        assert PassLogsOf(es)[|logs|].path == es[|es| - 1].passLog;
      }
    }
  }
}
