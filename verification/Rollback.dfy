/** Taking over from a predecessor's exec, and handing the children back when this
    build cannot start (cmd/launcher/daemon/main.go, internal/daemon/lock.go). */
module Rollbacks {
  import opened Options
  import opened ProcessKernel
  import opened Handoffs

  /** The slots whose children this image re-attached, in order. */
  function Adopted(slots: seq<Slot>, inherited: set<Fd>): (r: seq<Slot>)
    ensures forall s :: s in r <==> s in slots && s.reportFD in inherited
    ensures |r| <= |slots|
  {
    if slots == [] then []
    else
      var s := slots[|slots| - 1];
      Adopted(slots[..|slots| - 1], inherited) + if s.reportFD in inherited then [s] else []
  }

  /** Each slot is kept or dropped by itself, in its place. */
  lemma {:induction false} AdoptedInOrder(slots: seq<Slot>, s: Slot, inherited: set<Fd>)
    ensures Adopted([], inherited) == []
    ensures Adopted(slots + [s], inherited) == if s.reportFD in inherited then Adopted(slots, inherited) + [s]
                                               else Adopted(slots, inherited)
  {
    assert (slots + [s])[..|slots|] == slots;
  }

  lemma {:induction false} AllAdopted(slots: seq<Slot>, inherited: set<Fd>)
    requires forall i :: 0 <= i < |slots| ==> slots[i].reportFD in inherited
    ensures Adopted(slots, inherited) == slots
  {
    hide Adopted;
    AdoptedNone(inherited);
    if slots != [] {
      var n := |slots| - 1;
      AllAdopted(slots[..n], inherited);
      AdoptedInOrder(slots[..n], slots[n], inherited);
      assert slots[..n] + [slots[n]] == slots;
    }
  }

  lemma AdoptedNone(inherited: set<Fd>)
    ensures Adopted([], inherited) == []
  {
  }

  /** The header a rollback hands back: marked, with the two programs swapped. */
  function Reversed(h: Header, reason: string): Header {
    h.(rolledBack := true, reason := reason, fromPath := h.toPath, toPath := h.fromPath)
  }

  /** Whether the image `h` was handed to may roll back at all. */
  predicate MayRollBack(h: Header, validPath: string -> bool) {
    && !h.rolledBack && !h.stop
    && h.v >= HANDOFF_ROLLBACK_VERSION
    && h.fromPath != "" && validPath(h.fromPath)
  }

  /** Swap the header's two programs, drop the slots not adopted, and hand the rest
      on; whatever is refused leaves the process as it was. */
  method RollBack(k: Kernel<Document>, doc: Document, inherited: set<Fd>, lockFD: Fd, reason: string,
                  validPath: string -> bool, size: nat, encodable: bool)
    returns (r: Result)
    requires k.Valid() && forall fd :: fd in inherited ==> Known(k.p.fds, fd)
    modifies k
    ensures k.Valid() && k.p.actions == old(k.p).actions
    ensures !r.Execed? ==> Conserved(old(k.p), k.p)
    ensures r.Execed? ==>
      && !doc.header.rolledBack && !doc.header.stop && doc.header.v >= HANDOFF_ROLLBACK_VERSION
      && doc.header.fromPath != "" && validPath(doc.header.fromPath)
    ensures doc.header.rolledBack ==> r.Refused?
    ensures !doc.header.rolledBack && doc.header.stop ==> r.StopBeforeExec?
    ensures old(k.taken) ==> k.taken && !r.Execed?
    ensures r.Execed? ==> k.p.image.Some? && !k.p.image.value.lost
    ensures r.Refused? ==>
      || !MayRollBack(doc.header, validPath) || k.faults > old(k.faults)
      || !CanHandOff(k, old(k.p).fds, lockFD, Adopted(doc.slots, inherited), encodable)
    ensures r.StopBeforeExec? ==> doc.header.stop || k.p.stop
    ensures r.Execed? ==>
      HandedOn(k.p.image.value, old(k.p), Reversed(doc.header, reason), lockFD, Adopted(doc.slots, inherited))
    ensures r.Execed? ==> !k.p.stop && RollsBackTo(doc, k.p.image.value, validPath)
  {
    hide HandedOn, Known, CanHandOff;
    var h := doc.header;
    if h.rolledBack {
      return Refused;
    }
    if h.stop {
      return StopBeforeExec;
    }
    if h.v < HANDOFF_ROLLBACK_VERSION || h.fromPath == "" || !validPath(h.fromPath) {
      return Refused;
    }
    var kept := Adopted(doc.slots, inherited);
    var slots := new Slot[|kept|](i requires 0 <= i < |kept| => kept[i]);
    assert slots[..] == kept;
    forall i | 0 <= i < |kept| ensures kept[i].reportFD in inherited {
      assert kept[i] in kept;
    }
    r := ExecHandoff(k, Reversed(h, reason), slots, lockFD, size, encodable);
  }

  /** The image a handoff enters may roll it back, unless it is itself the rollback,
      must stop, or was not told of a program to go back to. */
  lemma HandedOnMayRollBack(image: Image<Document>, before: Process<Document>, h: Header, lockFD: Fd,
                            slots: seq<Slot>, doc: Document, validPath: string -> bool)
    requires HandedOn(image, before, h, lockFD, slots) && Entered(image, doc)
    ensures MayRollBack(doc.header, validPath) <==>
              !h.rolledBack && !h.stop && h.fromPath != "" && validPath(h.fromPath)
  {
    hide Passes, Ignores;
  }

  /** What the document says to the image entered. */
  ghost predicate Entered(image: Image<Document>, doc: Document) {
    && image.docFD in image.fds && image.fds[image.docFD].ReadEnd?
    && image.fds[image.docFD].pipe in image.documents
    && image.documents[image.fds[image.docFD].pipe] == doc
  }

  /** What an image entered by a rollback is told: it runs the program the image
      that rolled back came from, and may not roll back itself. */
  lemma OneRollbackAtMost(image: Image<Document>, before: Process<Document>, h: Header, reason: string,
                          lockFD: Fd, slots: seq<Slot>, doc: Document, validPath: string -> bool)
    requires HandedOn(image, before, Reversed(h, reason), lockFD, slots) && Entered(image, doc)
    ensures doc.header.rolledBack && !MayRollBack(doc.header, validPath)
    ensures image.path == h.fromPath == doc.header.toPath && doc.header.fromPath == h.toPath
    ensures doc.header.reason == reason && doc.header.revision == h.revision
    ensures doc.header.stop == h.stop && doc.header.abort == h.abort
  {
    hide Passes, Ignores;
  }

  /** `next` is an image RollBack has entered from one that was handed `doc`. */
  ghost predicate RollsBackTo(doc: Document, next: Image<Document>, validPath: string -> bool) {
    && MayRollBack(doc.header, validPath)
    && exists before, reason, lockFD, inherited ::
         HandedOn(next, before, Reversed(doc.header, reason), lockFD, Adopted(doc.slots, inherited))
  }

  /** Images, each with the document it was handed, each entered by the rollback of
      the one before. */
  ghost predicate RollbackChain(images: seq<Image<Document>>, docs: seq<Document>, validPath: string -> bool) {
    && |docs| == |images|
    && (forall i :: 0 <= i < |images| ==> Entered(images[i], docs[i]))
    && (forall i :: 0 < i < |images| ==> RollsBackTo(docs[i - 1], images[i], validPath))
  }

  /** No chain of rollbacks goes past its second image, whatever the programs do. */
  lemma {:induction false} RollbackChainsAreShort(images: seq<Image<Document>>, docs: seq<Document>,
                                                  validPath: string -> bool)
    requires RollbackChain(images, docs, validPath)
    ensures |images| <= 2
  {
    hide HandedOn, Entered, MayRollBack;
    if |images| > 2 {
      assert RollsBackTo(docs[0], images[1], validPath) && RollsBackTo(docs[1], images[2], validPath);
      var before, reason, lockFD, inherited :|
        HandedOn(images[1], before, Reversed(docs[0].header, reason), lockFD, Adopted(docs[0].slots, inherited));
      OneRollbackAtMost(images[1], before, docs[0].header, reason, lockFD, Adopted(docs[0].slots, inherited),
                        docs[1], validPath);
      assert false;
    }
  }

  /** The table a program starts with: what was inherited, none of it marked. */
  function EntryTable(fds: map<Fd, Object>): Table {
    map fd | fd in fds :: Descriptor(fds[fd], false)
  }

  /** The successor's table once it has taken over: the document's descriptor is
      closed, and the lock and every report descriptor that is not a standard stream
      are close-on-exec again. */
  function TakenOver(image: Image<Document>, doc: Document): Table {
    map fd | fd in image.fds && fd != image.docFD ::
      Descriptor(image.fds[fd], fd == doc.header.lockFD || (fd > 2 && fd in ReportFDs(doc.slots)))
  }

  /** `fd` is the lock's, or one of the first `n` slots' and no standard stream. */
  predicate Marked(doc: Document, n: nat, fd: Fd)
    requires n <= |doc.slots|
  {
    fd == doc.header.lockFD || (fd > 2 && fd in ReportFDs(doc.slots[..n]))
  }

  /** The table after the first `n` slots have been seen to. */
  ghost predicate TakenUpTo(fds: Table, image: Image<Document>, doc: Document, n: nat)
    requires n <= |doc.slots|
  {
    && (forall fd :: fd in fds <==> fd in image.fds && fd != image.docFD)
    && (forall fd :: fd in fds ==>
          fds[fd] == Descriptor(image.fds[fd], Marked(doc, n, fd)))
  }

  lemma {:induction false} TakenOne(fds: Table, image: Image<Document>, doc: Document, n: nat)
    requires n < |doc.slots| && TakenUpTo(fds, image, doc, n)
    ensures var fd := doc.slots[n].reportFD;
      TakenUpTo(if fd > 2 && fd in fds then fds[fd := fds[fd].(closeOnExec := true)] else fds, image, doc, n + 1)
  {
    var fd := doc.slots[n].reportFD;
    forall x ensures x in ReportFDs(doc.slots[..n + 1]) <==> x in ReportFDs(doc.slots[..n]) || x == fd {
      assert ReportFDs(doc.slots[..n + 1]) == ReportFDs(doc.slots[..n]) + [fd];
    }
  }

  lemma {:induction false} TakenAll(fds: Table, image: Image<Document>, doc: Document)
    requires TakenUpTo(fds, image, doc, |doc.slots|)
    ensures fds == TakenOver(image, doc)
  {
    assert doc.slots[..|doc.slots|] == doc.slots;
    var taken := TakenOver(image, doc);
    forall fd | fd in fds.Keys ensures fd in taken.Keys && fds[fd] == taken[fd] {
      assert fd in fds;
    }
    forall fd | fd in taken.Keys ensures fd in fds.Keys {
      assert fd in taken;
    }
  }

  /** The child in slot `s` is one this image can go on waiting for: its report
      descriptor is no standard stream but an open pipe, and the child itself passes
      (`waitable`: it is this process's, and its pipe can be polled). */
  predicate ChecksOut(s: Slot, fds: Table, waitable: Slot -> bool) {
    s.reportFD > 2 && s.reportFD in fds && !fds[s.reportFD].target.File? && waitable(s)
  }

  /** The report descriptors of the slots whose children check out. */
  ghost predicate AreAdopted(adopted: set<Fd>, slots: seq<Slot>, fds: Table, waitable: Slot -> bool) {
    forall fd :: fd in adopted <==>
      exists i :: 0 <= i < |slots| && slots[i].reportFD == fd && ChecksOut(slots[i], fds, waitable)
  }

  /** SIGHUP's action as it was before the exec, which left it ignored. */
  function Unignored(actions: map<Signal, Action>, ignored: bool): map<Signal, Action>
    requires SigHup in actions
  {
    if !ignored && actions[SigHup].handler == SIG_IGN then actions[SigHup := Action(SIG_DFL, 0)] else actions
  }

  /** Take over what the predecessor handed down: the lock, if it is a file that
      can be locked (`lockable`), and the children that check out, whose report
      descriptors come back as `inherited`. A child that does not is dropped, but its
      descriptor can still not leak into a later one. `hupRead` is whether SIGHUP's
      action, if it was looked at, could be read. */
  method ResumeFromHandoff(k: Kernel<Document>, ghost image: Image<Document>, doc: Document, docFD: Fd,
                           lockable: bool, waitable: Slot -> bool)
    returns (inherited: Option<set<Fd>>, ghost hupRead: bool)
    requires k.Valid() && k.p.fds == EntryTable(image.fds)
    requires docFD == image.docFD && docFD != doc.header.lockFD
    modifies k
    ensures k.Valid()
    ensures k.p == old(k.p).(fds := k.p.fds, actions := k.p.actions)
    ensures inherited.Some? ==> k.p.fds == TakenOver(image, doc)
    ensures inherited.Some? <==>
              lockable && doc.header.lockFD in image.fds && image.fds[doc.header.lockFD].File?
    ensures inherited.Some? ==> AreAdopted(inherited.value, doc.slots, k.p.fds, waitable)
    ensures k.p.actions ==
            if inherited.Some? && hupRead && SigHup !in k.refused
            then Unignored(old(k.p).actions, doc.header.sighupIgnored) else old(k.p).actions
    ensures inherited.Some? && !doc.header.sighupIgnored && hupRead && SigHup !in k.refused ==>
              !Ignores(k.p.actions, SigHup)
    ensures inherited.Some? && !doc.header.sighupIgnored && !hupRead ==> k.faults > old(k.faults)
  {
    hide Inheritable, AreAdopted;
    hupRead := false;
    k.Close(docFD);
    if doc.header.lockFD !in k.p.fds || !k.p.fds[doc.header.lockFD].target.File? || !lockable {
      return None, hupRead;
    }
    var _ := k.SetCloseOnExec(doc.header.lockFD);
    assert doc.slots[..0] == [];
    assert TakenUpTo(k.p.fds, image, doc, 0);
    var adopted := AdoptChildren(k, image, doc, waitable);
    if !doc.header.sighupIgnored {
      var cur := k.Sigaction(SigHup, None);
      hupRead := cur.Some?;
      if cur.Some? && cur.value.handler == SIG_IGN {
        var _ := k.Sigaction(SigHup, Some(Action(SIG_DFL, 0)));
      }
    }
    return Some(adopted), hupRead;
  }

  /** Mark every report descriptor that is no standard stream, and adopt the
      children that check out. */
  method AdoptChildren(k: Kernel<Document>, ghost image: Image<Document>, doc: Document, waitable: Slot -> bool)
    returns (adopted: set<Fd>)
    requires k.Valid() && TakenUpTo(k.p.fds, image, doc, 0)
    modifies k
    ensures k.Valid() && k.p == old(k.p).(fds := TakenOver(image, doc)) && k.faults == old(k.faults)
    ensures AreAdopted(adopted, doc.slots, k.p.fds, waitable)
  {
    hide TakenUpTo, TakenOver, AreAdopted, ChecksOut;
    adopted := {};
    ghost var base := k.p.fds;
    NoneAdopted(base, waitable);
    for i := 0 to |doc.slots|
      invariant k.Valid() && k.faults == old(k.faults) && k.p == old(k.p).(fds := k.p.fds)
      invariant TakenUpTo(k.p.fds, image, doc, i) && SameTargets(base, k.p.fds)
      invariant AreAdopted(adopted, doc.slots[..i], base, waitable)
    {
      TakenOne(k.p.fds, image, doc, i);
      var s := doc.slots[i];
      OneMoreAdopted(adopted, doc.slots, i, base, waitable);
      ChecksOutIff(s, base, k.p.fds, waitable);
      if s.reportFD > 2 {
        var marked := k.SetCloseOnExec(s.reportFD);
        if marked && !k.p.fds[s.reportFD].target.File? && waitable(s) {
          adopted := adopted + {s.reportFD};
        }
      }
    }
    assert doc.slots[..|doc.slots|] == doc.slots;
    TakenAll(k.p.fds, image, doc);
    SameAdopted(adopted, doc.slots, base, k.p.fds, waitable);
  }

  /** The same descriptors on the same files, whatever their marks. */
  predicate SameTargets(a: Table, b: Table) {
    a.Keys == b.Keys && forall fd :: fd in a ==> a[fd].target == b[fd].target
  }

  lemma NoneAdopted(fds: Table, waitable: Slot -> bool)
    ensures AreAdopted({}, [], fds, waitable)
  {
  }

  lemma ChecksOutIff(s: Slot, a: Table, b: Table, waitable: Slot -> bool)
    requires SameTargets(a, b)
    ensures ChecksOut(s, a, waitable) <==>
              s.reportFD > 2 && s.reportFD in b && !b[s.reportFD].target.File? && waitable(s)
  {
  }

  lemma {:induction false} OneMoreAdopted(adopted: set<Fd>, slots: seq<Slot>, n: nat, fds: Table, waitable: Slot -> bool)
    requires n < |slots| && AreAdopted(adopted, slots[..n], fds, waitable)
    ensures AreAdopted(if ChecksOut(slots[n], fds, waitable) then adopted + {slots[n].reportFD} else adopted,
                       slots[..n + 1], fds, waitable)
  {
    hide ChecksOut;
    var before, now := slots[..n], slots[..n + 1];
    assert forall i :: 0 <= i < n ==> before[i] == now[i];
    assert now[n] == slots[n];
  }

  lemma SameAdopted(adopted: set<Fd>, slots: seq<Slot>, a: Table, b: Table, waitable: Slot -> bool)
    requires AreAdopted(adopted, slots, a, waitable) && SameTargets(a, b)
    ensures AreAdopted(adopted, slots, b, waitable)
  {
    forall i | 0 <= i < |slots| ensures ChecksOut(slots[i], a, waitable) <==> ChecksOut(slots[i], b, waitable) {
      ChecksOutIff(slots[i], a, b, waitable);
    }
    hide ChecksOut;
  }

  /** No child is lost across an exec: of the slots handed on, the successor adopts
      every one whose child it may wait for, with all that was tracked about it and
      on the pipe its predecessor read; and all of them when it may wait for each. */
  lemma {:induction false} NoChildIsLost(image: Image<Document>, before: Process<Document>, h: Header, lockFD: Fd,
                                         slots: seq<Slot>, doc: Document, adopted: set<Fd>, waitable: Slot -> bool)
    requires HandedOn(image, before, h, lockFD, slots) && Entered(image, doc)
    requires 0 in before.fds && 1 in before.fds && 2 in before.fds
    requires forall i :: 0 <= i < |slots| && slots[i].reportFD in before.fds ==>
               !before.fds[slots[i].reportFD].target.File?
    requires AreAdopted(adopted, doc.slots, TakenOver(image, doc), waitable)
    ensures |doc.slots| == |slots|
    ensures forall i :: 0 <= i < |slots| ==>
      var s, fds := doc.slots[i], TakenOver(image, doc);
      && s == slots[i].(reportFD := s.reportFD)
      && slots[i].reportFD in before.fds
      && s.reportFD in fds && fds[s.reportFD].target == before.fds[slots[i].reportFD].target
      && (s.reportFD in adopted <==> waitable(s))
    ensures (forall i :: 0 <= i < |slots| ==> waitable(doc.slots[i])) ==> Adopted(doc.slots, adopted) == doc.slots
  {
    hide Passes, HandedOn, Entered, TakenOver, AreAdopted, Adopted;
    HandedOnSlots(image, before, h, lockFD, slots, doc);
    HandedOnDecodes(image, before, h, lockFD, slots, doc);
    var fds := TakenOver(image, doc);
    forall i | 0 <= i < |slots| ensures doc.slots[i].reportFD in adopted <==> waitable(doc.slots[i]) {
      OnlyItsOwn(adopted, doc.slots, fds, waitable, i);
    }
    if forall i :: 0 <= i < |slots| ==> waitable(doc.slots[i]) {
      AllAdopted(doc.slots, adopted);
    }
  }

  lemma {:induction false} HandedOnSlots(image: Image<Document>, before: Process<Document>, h: Header, lockFD: Fd,
                                         slots: seq<Slot>, doc: Document)
    requires HandedOn(image, before, h, lockFD, slots) && Entered(image, doc)
    requires 0 in before.fds && 1 in before.fds && 2 in before.fds
    ensures |doc.slots| == |slots|
    ensures forall i :: 0 <= i < |slots| ==>
      var s, fds := doc.slots[i], TakenOver(image, doc);
      && s == slots[i].(reportFD := s.reportFD) && s.reportFD > 2
      && slots[i].reportFD in before.fds
      && s.reportFD in fds && fds[s.reportFD].target == before.fds[slots[i].reportFD].target
  {
    HandedOnApart(image, before.fds, lockFD, slots, doc);
    hide Inheritable, Ignores, TakenOver;
    forall i | 0 <= i < |slots|
      ensures var s, fds := doc.slots[i], TakenOver(image, doc);
        && s == slots[i].(reportFD := s.reportFD) && s.reportFD > 2
        && slots[i].reportFD in before.fds
        && s.reportFD in fds && fds[s.reportFD].target == before.fds[slots[i].reportFD].target
    {
      assert ReportFDs(doc.slots)[i] == doc.slots[i].reportFD;
      StillOpen(image, doc, doc.slots[i].reportFD);
    }
  }

  lemma StillOpen(image: Image<Document>, doc: Document, fd: Fd)
    requires fd in image.fds && fd != image.docFD
    ensures fd in TakenOver(image, doc) && TakenOver(image, doc)[fd].target == image.fds[fd]
  {
  }

  lemma OnlyItsOwn(adopted: set<Fd>, slots: seq<Slot>, fds: Table, waitable: Slot -> bool, i: nat)
    requires i < |slots| && AreAdopted(adopted, slots, fds, waitable)
    requires forall a, b :: 0 <= a < b < |slots| ==> slots[a].reportFD != slots[b].reportFD
    ensures slots[i].reportFD in adopted <==> ChecksOut(slots[i], fds, waitable)
  {
  }

  /** SIGHUP reads as ignored in the successor exactly when it did in the
      predecessor, although the exec ignored it. */
  lemma SighupIsRestored(image: Image<Document>, before: Process<Document>, h: Header, lockFD: Fd,
                         slots: seq<Slot>, doc: Document)
    requires HandedOn(image, before, h, lockFD, slots) && Entered(image, doc)
    ensures SigHup in image.actions
    ensures Ignores(Unignored(image.actions, doc.header.sighupIgnored), SigHup) <==> Ignores(before.actions, SigHup)
  {
    hide Passes;
    assert STOP_SIGNALS[2] == SigHup;
  }

  /** The descriptors handed on are apart from the old ones and the standard
      streams. */
  lemma {:induction false} HandedOnApart(image: Image<Document>, fds: Table, lockFD: Fd, slots: seq<Slot>, doc: Document)
    requires Passes(image, fds, lockFD, slots) && Entered(image, doc)
    ensures doc.header.lockFD !in fds && image.docFD !in fds && doc.header.lockFD != image.docFD
    ensures forall fd :: fd in ReportFDs(doc.slots) ==> fd >= 0 && fd !in fds && fd != image.docFD
    ensures forall fd :: fd in image.fds <==>
      fd in Inheritable(fds) || fd == doc.header.lockFD || fd in ReportFDs(doc.slots) || fd == image.docFD
    ensures forall fd :: fd in Inheritable(fds) ==> image.fds[fd] == fds[fd].target
  {
    hide Inheritable;
    var n, passed := |doc.slots|, [doc.header.lockFD] + ReportFDs(doc.slots) + [image.docFD];
    assert passed[0] == doc.header.lockFD && passed[n + 1] == image.docFD;
    forall fd | fd in ReportFDs(doc.slots) ensures fd in passed && fd >= 0 && fd !in fds && fd != image.docFD {
      var i :| 0 <= i < n && ReportFDs(doc.slots)[i] == fd;
      assert passed[i + 1] == fd;
    }
  }

  const HANDOFF_MIN_VERSION := 1

  /** What the decoder checks of a document's version and descriptors: each names a
      real one, and no two the same. */
  ghost predicate Decodes(doc: Document) {
    && HANDOFF_MIN_VERSION <= doc.header.v <= HANDOFF_VERSION
    && doc.header.lockFD >= 0
    && (forall i :: 0 <= i < |doc.slots| ==> doc.slots[i].reportFD >= 0 && doc.slots[i].reportFD != doc.header.lockFD)
    && (forall i, j :: 0 <= i < j < |doc.slots| ==> doc.slots[i].reportFD != doc.slots[j].reportFD)
  }

  /** Whatever descriptors the predecessor's slots had, the document it hands on
      passes the successor's checks. */
  lemma {:induction false} HandedOnDecodes(image: Image<Document>, before: Process<Document>, h: Header, lockFD: Fd,
                                           slots: seq<Slot>, doc: Document)
    requires HandedOn(image, before, h, lockFD, slots) && Entered(image, doc)
    ensures Decodes(doc)
  {
    hide Inheritable, Ignores;
    var passed := [doc.header.lockFD] + ReportFDs(doc.slots) + [image.docFD];
    assert passed[0] == doc.header.lockFD;
    forall i | 0 <= i < |doc.slots| ensures passed[i + 1] == doc.slots[i].reportFD {
      assert ReportFDs(doc.slots)[i] == doc.slots[i].reportFD;
    }
    forall i, j | 0 <= i < j < |doc.slots| ensures doc.slots[i].reportFD != doc.slots[j].reportFD {
      assert passed[i + 1] != passed[j + 1];
    }
    forall i | 0 <= i < |doc.slots| ensures doc.slots[i].reportFD >= 0 && doc.slots[i].reportFD != doc.header.lockFD {
      assert passed[0] != passed[i + 1];
    }
  }

  /** No descriptor gathers from handoff to handoff: the successor would pass on to
      its own children exactly what the predecessor would have, and holds besides
      that one descriptor for the lock and one for each slot. */
  lemma {:induction false} NothingGathers(image: Image<Document>, fds: Table, lockFD: Fd, slots: seq<Slot>, doc: Document)
    requires Passes(image, fds, lockFD, slots) && Entered(image, doc)
    requires 0 in fds && 1 in fds && 2 in fds
    ensures Inheritable(TakenOver(image, doc)) == Inheritable(fds)
    ensures forall fd :: fd in TakenOver(image, doc) <==>
      fd in Inheritable(fds) || fd == doc.header.lockFD || fd in ReportFDs(doc.slots)
  {
    HandedOnApart(image, fds, lockFD, slots, doc);
    hide Passes, Entered;
    var taken := TakenOver(image, doc);
    forall fd | fd in Inheritable(taken).Keys ensures fd in Inheritable(fds).Keys {
      assert fd in taken && fd in image.fds;
    }
    forall fd | fd in Inheritable(fds).Keys
      ensures fd in Inheritable(taken).Keys && Inheritable(taken)[fd] == Inheritable(fds)[fd]
    {
      assert fd in fds;
      assert fd in image.fds && fd != image.docFD;
    }
  }
}
