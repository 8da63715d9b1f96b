/** Handing the running children to a successor image by exec, and back by
    rollback (cmd/launcher/daemon/runner.go, restart_linux.go and main.go). */
module Handoffs {
  import opened Options
  import opened ProcessKernel

  const HANDOFF_VERSION := 3
  const HANDOFF_ROLLBACK_VERSION := 3

  /** One busy slot; `rest` is what the pool tracks about the child. */
  datatype Slot = Slot(slot: int, pid: int, reportFD: Fd, rest: int)

  datatype Header = Header(
    v: int, lockFD: Fd, fromPath: string, toPath: string, revision: string,
    rolledBack: bool, reason: string, stop: bool, abort: bool, sighupIgnored: bool)

  datatype Document = Document(header: Header, slots: seq<Slot>)

  const STOP_SIGNALS: seq<Signal> := [SigTerm, SigInt, SigHup]

  /** `now` is `base` and the inheritable descriptors `dups` of `objs`. */
  ghost predicate Plus(base: Table, now: Table, dups: seq<Fd>, objs: seq<Object>) {
    && |dups| == |objs|
    && (forall i :: 0 <= i < |dups| ==>
          dups[i] >= 0 && dups[i] !in base && dups[i] in now && now[dups[i]] == Descriptor(objs[i], false))
    && (forall i, j :: 0 <= i < j < |dups| ==> dups[i] != dups[j])
    && (forall fd :: fd in base ==> fd in now && now[fd] == base[fd])
    && (forall fd :: fd in now ==> fd in base || fd in dups)
  }

  lemma PlusOne(base: Table, now: Table, dups: seq<Fd>, objs: seq<Object>, fd: Fd, obj: Object)
    requires Plus(base, now, dups, objs) && fd !in now && fd >= 0
    ensures Plus(base, now[fd := Descriptor(obj, false)], dups + [fd], objs + [obj])
  {
  }

  lemma {:induction false} PlusNone(base: Table, now: Table)
    requires Plus(base, now, [], [])
    ensures now == base
  {
    SameTables(now, base);
  }

  lemma {:induction false} SameTables(a: Table, b: Table)
    requires forall fd :: fd in a ==> fd in b && a[fd] == b[fd]
    requires forall fd :: fd in b ==> fd in a
    ensures a == b
  {
    forall fd | fd in a.Keys ensures fd in b.Keys && a[fd] == b[fd] {}
    forall fd | fd in b.Keys ensures fd in a.Keys {}
  }

  lemma PlusItself(base: Table)
    ensures Plus(base, base, [], [])
  {
  }

  lemma MinusOne(base: Table, now: Table, dups: seq<Fd>, objs: seq<Object>)
    requires Plus(base, now, dups, objs) && dups != []
    ensures Plus(base, now - {dups[0]}, dups[1..], objs[1..])
  {
    forall fd | fd in now - {dups[0]} ensures fd in base || fd in dups[1..] {
      if fd !in base {
        var i :| 0 <= i < |dups| && dups[i] == fd;
        assert dups[1..][i - 1] == fd;
      }
    }
  }

  /** Close every dup: the table is what it was before them. */
  method Release<D>(k: Kernel<D>, dups: seq<Fd>, ghost base: Table, ghost objs: seq<Object>)
    requires k.Valid() && Plus(base, k.p.fds, dups, objs)
    modifies k`p
    ensures k.Valid() && k.p == old(k.p).(fds := base)
  {
    hide Plus;
    assert dups[0..] == dups && objs[0..] == objs;
    PlusLengths(base, k.p.fds, dups, objs);
    for i := 0 to |dups|
      invariant k.Valid() && |objs| == |dups|
      invariant k.p == old(k.p).(fds := k.p.fds)
      invariant Plus(base, k.p.fds, dups[i..], objs[i..])
    {
      MinusOne(base, k.p.fds, dups[i..], objs[i..]);
      k.Close(dups[i]);
    }
    assert dups[|dups|..] == [] && objs[|dups|..] == [];
    PlusNone(base, k.p.fds);
  }

  lemma PlusLengths(base: Table, now: Table, dups: seq<Fd>, objs: seq<Object>)
    requires Plus(base, now, dups, objs)
    ensures |dups| == |objs|
  {
  }

  /** Put every saved action back. */
  method Restore<D>(k: Kernel<D>, saved: map<Signal, Action>)
    requires k.Valid() && saved.Keys !! k.refused
    modifies k
    ensures k.Valid() && k.p == old(k.p).(actions := old(k.p).actions + saved) && k.faults == old(k.faults)
    ensures old(k.taken) ==> k.taken
  {
    var left := saved.Keys;
    while left != {}
      invariant (old(k.taken) ==> k.taken) && k.Valid() && left <= saved.Keys && k.faults == old(k.faults)
      invariant k.p == old(k.p).(actions := k.p.actions)
      invariant k.p.actions.Keys == old(k.p).actions.Keys + (saved.Keys - left)
      invariant forall sig :: sig in k.p.actions ==>
        k.p.actions[sig] == if sig in saved && sig !in left then saved[sig] else old(k.p).actions[sig]
      decreases |left|
    {
      var sig :| sig in left;
      var _ := k.Sigaction(sig, Some(saved[sig]));
      left := left - {sig};
    }
    assert k.p.actions == old(k.p).actions + saved;
  }

  predicate Ignores(actions: map<Signal, Action>, sig: Signal) {
    sig in actions && actions[sig].handler == SIG_IGN
  }

  lemma DeafIs(actions: map<Signal, Action>)
    requires forall sig :: sig in STOP_SIGNALS ==> Ignores(actions, sig)
    ensures Deaf(actions)
  {
    assert SigTerm in STOP_SIGNALS && SigInt in STOP_SIGNALS;
  }

  /** Ignore the stop signals. On failure nothing stays changed; on success what
      was saved puts everything back. */
  method IgnoreStopSignals<D>(k: Kernel<D>) returns (saved: Option<map<Signal, Action>>)
    requires k.Valid()
    modifies k
    ensures k.Valid() && k.faults == old(k.faults) && (old(k.taken) ==> k.taken)
    ensures saved.None? ==> k.p == old(k.p)
    ensures saved.Some? <==> forall sig :: sig in STOP_SIGNALS ==> sig !in k.refused
    ensures saved.Some? ==>
      && k.p == old(k.p).(actions := k.p.actions)
      && saved.value.Keys !! k.refused
      && k.p.actions + saved.value == old(k.p).actions
      && Deaf(k.p.actions) && forall sig :: sig in STOP_SIGNALS ==> Ignores(k.p.actions, sig)
  {
    hide Deaf;
    var done: map<Signal, Action> := map[];
    for i := 0 to |STOP_SIGNALS|
      invariant (old(k.taken) ==> k.taken) && k.Valid() && k.faults == old(k.faults)
      invariant k.p == old(k.p).(actions := k.p.actions)
      invariant done.Keys !! k.refused
      invariant k.p.actions + done == old(k.p).actions
      invariant forall sig :: sig in STOP_SIGNALS[..i] <==> sig in done
      invariant forall sig :: sig in done ==> Ignores(k.p.actions, sig)
    {
      ghost var before := k.p.actions;
      var sig := STOP_SIGNALS[i];
      var was := k.Sigaction(sig, Some(Action(SIG_IGN, 0)));
      if was.None? {
        Restore(k, done);
        return None;
      }
      assert sig !in STOP_SIGNALS[..i] && STOP_SIGNALS[..i + 1] == STOP_SIGNALS[..i] + [sig];
      StillPutsBack(before, done, old(k.p).actions, sig, Action(SIG_IGN, 0));
      done := done[sig := was.value];
    }
    assert STOP_SIGNALS[..|STOP_SIGNALS|] == STOP_SIGNALS;
    DeafIs(k.p.actions);
    return Some(done);
  }

  lemma StillPutsBack(actions: map<Signal, Action>, done: map<Signal, Action>,
                      original: map<Signal, Action>, sig: Signal, act: Action)
    requires actions + done == original && sig in actions && sig !in done
    ensures actions[sig := act] + done[sig := actions[sig]] == original
  {
    assert original[sig] == actions[sig];
    assert (actions[sig := act] + done[sig := actions[sig]]).Keys == original.Keys;
  }

  /** The document in a fresh pipe, written whole or not at all; only its read end
      is left, and that inheritable. */
  method HandoffDocPipe(k: Kernel<Document>, doc: Document, size: nat) returns (fd: Option<Fd>)
    requires k.Valid()
    modifies k`p, k`faults
    ensures k.Valid()
    ensures k.p == old(k.p).(fds := k.p.fds, pipes := k.p.pipes, documents := k.p.documents)
    ensures fd.None? ==> k.p.fds == old(k.p).fds && k.faults > old(k.faults)
    ensures fd.Some? ==> k.faults == old(k.faults)
    ensures fd.Some? ==>
      && fd.value >= 0 && fd.value !in old(k.p).fds
      && k.p.fds == old(k.p).fds[fd.value := Descriptor(ReadEnd(old(k.p).pipes), false)]
      && old(k.p).pipes in k.p.documents && k.p.documents[old(k.p).pipes] == doc
  {
    var ends := k.Pipe2();
    if ends.None? {
      return None;
    }
    var (r, w) := ends.value;
    var n, err := k.Write(w, doc, size);
    k.Close(w);
    ghost var base, d := old(k.p).fds, Descriptor(ReadEnd(old(k.p).pipes), true);
    OneClosed(base[r := d], w, Descriptor(WriteEnd(old(k.p).pipes), true));
    OneClosed(base, r, d);
    if err.Failed? || n < size {
      k.Close(r);
      return None;
    }
    fd := k.Dup(r);
    k.Close(r);
    if fd.Some? {
      MovedTo(base, r, d, fd.value, Descriptor(ReadEnd(old(k.p).pipes), false));
    }
  }

  lemma OneClosed(fds: Table, fd: Fd, d: Descriptor)
    requires fd !in fds
    ensures fds[fd := d] - {fd} == fds
  {
  }

  lemma MovedTo(fds: Table, a: Fd, da: Descriptor, b: Fd, db: Descriptor)
    requires a !in fds && b != a
    ensures fds[a := da][b := db] - {a} == fds[b := db]
  {
  }

  /** A report descriptor is open, or negative when it could not be read. */
  predicate Known(fds: Table, fd: Fd) {
    fd in fds || fd < 0
  }

  lemma SameTarget(base: Table, now: Table, dups: seq<Fd>, objs: seq<Object>, fd: Fd)
    requires Plus(base, now, dups, objs) && Known(base, fd) && fd in now
    ensures fd in base && now[fd] == base[fd]
  {
  }

  datatype Result = Execed | StopBeforeExec | Refused

  /** What the successor must find: the descriptors that would have survived
      anyway, and besides them exactly one for the lock, one for each slot's report
      pipe and one for the document, each on the original's own file. */
  ghost predicate Passes(image: Image<Document>, fds: Table, lockFD: Fd, slots: seq<Slot>) {
    image.docFD in image.fds && image.fds[image.docFD].ReadEnd? &&
    var pipe := image.fds[image.docFD].pipe;
    pipe in image.documents &&
    var doc := image.documents[pipe];
    && |doc.slots| == |slots|
    && lockFD in fds && doc.header.lockFD in image.fds
    && image.fds[doc.header.lockFD] == fds[lockFD].target
    && (forall i :: 0 <= i < |slots| ==>
          && slots[i].reportFD in fds && doc.slots[i].reportFD in image.fds
          && image.fds[doc.slots[i].reportFD] == fds[slots[i].reportFD].target
          && doc.slots[i] == slots[i].(reportFD := doc.slots[i].reportFD))
    && var passed := [doc.header.lockFD] + ReportFDs(doc.slots) + [image.docFD];
       && (forall i, j :: 0 <= i < j < |passed| ==> passed[i] != passed[j])
       && (forall i :: 0 <= i < |passed| ==> passed[i] >= 0 && passed[i] !in fds)
       && (forall fd :: fd in image.fds <==> fd in Inheritable(fds) || fd in passed)
       && (forall fd :: fd in Inheritable(fds) ==> image.fds[fd] == fds[fd].target)
  }

  function ReportFDs(slots: seq<Slot>): seq<Fd> {
    seq(|slots|, i requires 0 <= i < |slots| => slots[i].reportFD)
  }

  /** Whatever the outcome, all but the stop latch, the pipes used and the image
      entered is as it was. */
  ghost predicate Conserved(before: Process<Document>, after: Process<Document>) {
    && after.fds == before.fds && after.actions == before.actions && after.image == before.image
    && (before.stop ==> after.stop)
  }

  /** The first `n` slots carry the dups that follow the lock's. */
  ghost predicate Filled(base: Table, lockFD: Fd, slots: seq<Slot>, wire: seq<Slot>, dups: seq<Fd>,
                         objs: seq<Object>, n: nat) {
    && n <= |slots| == |wire| && |dups| == |objs| == n + 1
    && lockFD in base && objs[0] == base[lockFD].target
    && (forall i :: 0 <= i < n ==>
          && slots[i].reportFD in base && objs[i + 1] == base[slots[i].reportFD].target
          && wire[i] == slots[i].(reportFD := dups[i + 1]))
    && (forall i :: n <= i < |slots| ==> wire[i] == slots[i])
  }

  lemma FilledOne(base: Table, lockFD: Fd, slots: seq<Slot>, wire: seq<Slot>, dups: seq<Fd>,
                  objs: seq<Object>, n: nat, fd: Fd)
    requires Filled(base, lockFD, slots, wire, dups, objs, n) && n < |slots|
    requires slots[n].reportFD in base
    ensures wire[n] == slots[n]
    ensures Filled(base, lockFD, slots, wire[n := wire[n].(reportFD := fd)], dups + [fd],
                   objs + [base[slots[n].reportFD].target], n + 1)
  {
  }

  /** The lock and every slot's report pipe are open. */
  predicate AllOpen(fds: Table, lockFD: Fd, slots: seq<Slot>) {
    lockFD in fds && forall i :: 0 <= i < |slots| ==> slots[i].reportFD in fds
  }

  /** Dup the lock and every slot's report pipe into the document; on failure the
      dups so far are released. */
  method PrepareSlots(k: Kernel<Document>, lockFD: Fd, wire: array<Slot>)
    returns (dups: Option<seq<Fd>>, ghost objs: seq<Object>)
    requires k.Valid() && forall i :: 0 <= i < wire.Length ==> Known(k.p.fds, wire[i].reportFD)
    modifies k`p, k`faults, wire
    ensures k.Valid() && k.p == old(k.p).(fds := k.p.fds) && k.faults >= old(k.faults)
    ensures dups.None? ==> k.p.fds == old(k.p).fds
    ensures dups.None? ==> k.faults > old(k.faults) || !AllOpen(old(k.p).fds, lockFD, old(wire[..]))
    ensures dups.Some? ==> k.faults == old(k.faults) && AllOpen(old(k.p).fds, lockFD, old(wire[..]))
    ensures dups.Some? ==> Plus(old(k.p).fds, k.p.fds, dups.value, objs)
    ensures dups.Some? ==> Filled(old(k.p).fds, lockFD, old(wire[..]), wire[..], dups.value, objs, wire.Length)
  {
    hide Plus;
    ghost var base, slots := k.p.fds, wire[..];
    objs := [];
    var lock := k.Dup(lockFD);
    if lock.None? {
      return None, objs;
    }
    PlusItself(base);
    PlusOne(base, base, [], [], lock.value, base[lockFD].target);
    var held := [lock.value];
    objs := [base[lockFD].target];
    assert [] + held == held && [] + objs == objs;
    for i := 0 to wire.Length
      invariant k.Valid() && k.faults == old(k.faults) && k.p == old(k.p).(fds := k.p.fds)
      invariant Plus(base, k.p.fds, held, objs)
      invariant Filled(base, lockFD, slots, wire[..], held, objs, i)
    {
      hide Filled;
      SlotYet(base, lockFD, slots, wire[..], held, objs, i);
      ghost var now := k.p.fds;
      var fd := k.Dup(wire[i].reportFD);
      if fd.None? {
        PlusKeeps(base, now, held, objs, wire[i].reportFD);
        Release(k, held, base, objs);
        return None, objs;
      }
      SameTarget(base, now, held, objs, wire[i].reportFD);
      PlusOne(base, now, held, objs, fd.value, now[wire[i].reportFD].target);
      FilledOne(base, lockFD, slots, wire[..], held, objs, i, fd.value);
      held := held + [fd.value];
      objs := objs + [now[wire[i].reportFD].target];
      ghost var before := wire[..];
      wire[i] := wire[i].(reportFD := fd.value);
      assert wire[..] == before[i := wire[i]];
    }
    return Some(held), objs;
  }

  lemma PlusKeeps(base: Table, now: Table, dups: seq<Fd>, objs: seq<Object>, fd: Fd)
    requires Plus(base, now, dups, objs)
    ensures fd in base ==> fd in now
  {
  }

  lemma SlotYet(base: Table, lockFD: Fd, slots: seq<Slot>, wire: seq<Slot>, dups: seq<Fd>,
                objs: seq<Object>, n: nat)
    requires Filled(base, lockFD, slots, wire, dups, objs, n) && n < |slots|
    ensures |wire| == |slots| && wire[n] == slots[n]
  {
  }

  /** What the document says of the restart, besides the slots. */
  function Stamped(h: Header, lockFD: Fd, hupIgnored: bool): Header {
    h.(v := HANDOFF_VERSION, lockFD := lockFD, sighupIgnored := hupIgnored)
  }

  /** Everything inheritable is what was, and the dups. */
  lemma {:induction false} InheritsThePlus(base: Table, now: Table, dups: seq<Fd>, objs: seq<Object>)
    requires Plus(base, now, dups, objs)
    ensures forall i :: 0 <= i < |dups| ==> dups[i] in Inheritable(now) && Inheritable(now)[dups[i]] == objs[i]
    ensures forall fd :: fd in Inheritable(now) <==> fd in Inheritable(base) || fd in dups
    ensures forall fd :: fd in Inheritable(base) ==> Inheritable(now)[fd] == base[fd].target
  {
    forall fd | fd in Inheritable(now) ensures fd in Inheritable(base) || fd in dups {
      assert fd in now;
    }
    forall fd | fd in Inheritable(base) ensures fd in Inheritable(now) && Inheritable(now)[fd] == base[fd].target {
      assert fd in base;
    }
  }

  lemma {:induction false} DupsPass(image: Image<Document>, base: Table, now: Table, lockFD: Fd,
                                    slots: seq<Slot>, wire: seq<Slot>, dups: seq<Fd>, objs: seq<Object>,
                                    h: Header, pipe: PipeId)
    requires Plus(base, now, dups + [image.docFD], objs + [ReadEnd(pipe)])
    requires Filled(base, lockFD, slots, wire, dups, objs, |slots|)
    requires image.fds == Inheritable(now)
    requires pipe in image.documents && image.documents[pipe] == Document(h, wire) && h.lockFD == dups[0]
    ensures Passes(image, base, lockFD, slots) && image.fds[image.docFD] == ReadEnd(pipe)
  {
    var all, files := dups + [image.docFD], objs + [ReadEnd(pipe)];
    InheritsThePlus(base, now, all, files);
    var passed := [dups[0]] + ReportFDs(wire) + [image.docFD];
    assert |passed| == |all| && forall i :: 0 <= i < |all| ==> passed[i] == all[i];
    assert passed == all;
    assert all[|dups|] == image.docFD && files[|dups|] == ReadEnd(pipe);
    hide Plus, Inheritable;
    forall i | 0 <= i < |slots|
      ensures wire[i].reportFD in image.fds && image.fds[wire[i].reportFD] == base[slots[i].reportFD].target
    {
      assert all[i + 1] == wire[i].reportFD && files[i + 1] == objs[i + 1];
    }
    assert all[0] == dups[0] && files[0] == objs[0];
  }

  /** The dups a prepared handoff holds, the document's descriptor the last of
      them, and the document and pipe behind it. */
  datatype Prepared = Prepared(dups: seq<Fd>, docFD: Fd)

  /** The process `now` is `before` with a handoff of `slots` prepared. */
  ghost predicate Ready(before: Process<Document>, now: Process<Document>, prep: Prepared, objs: seq<Object>,
                        h: Header, lockFD: Fd, slots: seq<Slot>, doc: Document, hupIgnored: bool) {
    && now == before.(fds := now.fds, pipes := now.pipes, documents := now.documents)
    && before.pipes in now.documents && now.documents[before.pipes] == doc
    && prep.dups != [] && doc.header == Stamped(h, prep.dups[0], hupIgnored)
    && Plus(before.fds, now.fds, prep.dups + [prep.docFD], objs + [ReadEnd(before.pipes)])
    && Filled(before.fds, lockFD, slots, doc.slots, prep.dups, objs, |slots|)
  }

  /** Everything fallible but the exec, done before the stop signals are ignored.
      The caller's slots are cloned, not written. */
  method PrepareHandoff(k: Kernel<Document>, h: Header, slots: array<Slot>, lockFD: Fd, size: nat, encodable: bool)
    returns (prep: Option<Prepared>, ghost objs: seq<Object>, ghost doc: Document)
    requires k.Valid() && forall i :: 0 <= i < slots.Length ==> Known(k.p.fds, slots[i].reportFD)
    modifies k
    ensures k.Valid() && k.faults >= old(k.faults) && (old(k.taken) ==> k.taken)
    ensures prep.None? ==> k.p == old(k.p).(pipes := k.p.pipes, documents := k.p.documents)
    ensures prep.None? ==> k.faults > old(k.faults) || !encodable || !AllOpen(old(k.p).fds, lockFD, slots[..])
    ensures prep.Some? ==> k.faults == old(k.faults) && encodable && AllOpen(old(k.p).fds, lockFD, slots[..])
    ensures prep.Some? ==>
      Ready(old(k.p), k.p, prep.value, objs, h, lockFD, slots[..], doc, Ignores(old(k.p).actions, SigHup))
  {
    hide Plus, Filled;
    objs, doc := [], Document(h, []);
    var hup := k.Sigaction(SigHup, None);
    if hup.None? {
      return None, objs, doc;
    }
    var wire := new Slot[slots.Length](i requires 0 <= i < slots.Length reads slots => slots[i]);
    assert wire[..] == slots[..];
    ghost var base := k.p.fds;
    var dups;
    dups, objs := PrepareSlots(k, lockFD, wire);
    if dups.None? {
      return None, objs, doc;
    }
    FilledLock(base, lockFD, slots[..], wire[..], dups.value, objs);
    if !encodable {
      Release(k, dups.value, base, objs);
      return None, objs, doc;
    }
    doc := Document(Stamped(h, dups.value[0], hup.value.handler == SIG_IGN), wire[..]);
    ghost var now := k.p.fds;
    var out := Document(Stamped(h, dups.value[0], hup.value.handler == SIG_IGN), wire[..]);
    var fd := HandoffDocPipe(k, out, size);
    if fd.None? {
      Release(k, dups.value, base, objs);
      return None, objs, doc;
    }
    PlusOne(base, now, dups.value, objs, fd.value, ReadEnd(old(k.p).pipes));
    prep := Some(Prepared(dups.value, fd.value));
  }

  lemma FilledLock(base: Table, lockFD: Fd, slots: seq<Slot>, wire: seq<Slot>, dups: seq<Fd>, objs: seq<Object>)
    requires Filled(base, lockFD, slots, wire, dups, objs, |slots|)
    ensures |dups| > 0
  {
  }

  /** Exec the program at `path` with what was prepared: whatever happens the signal
      actions are back, and unless it was exec'd the dups are gone. */
  method ExecPrepared(k: Kernel<Document>, path: string, prep: Prepared, ghost base: Table, ghost files: seq<Object>)
    returns (r: Result)
    requires k.Valid() && Plus(base, k.p.fds, prep.dups + [prep.docFD], files)
    modifies k
    ensures k.Valid() && k.p.actions == old(k.p).actions && k.faults >= old(k.faults)
    ensures old(k.taken) ==> k.taken && !r.Execed?
    ensures !r.Execed? ==> k.p == old(k.p).(fds := base, stop := k.p.stop)
    ensures old(k.p).stop ==> k.p.stop
    ensures r.StopBeforeExec? ==> k.p.stop
    ensures r.Refused? ==> k.faults > old(k.faults) || exists sig :: sig in STOP_SIGNALS && sig in k.refused
    ensures r.Execed? ==>
      && !k.p.stop && (forall sig :: sig in STOP_SIGNALS ==> sig !in k.refused)
      && k.p.image.Some? && k.p == old(k.p).(stop := false, image := k.p.image)
      && var image := k.p.image.value;
         && image.path == path && image.docFD == prep.docFD && image.fds == Inheritable(old(k.p).fds)
         && image.documents == old(k.p).documents && !image.lost
         && forall sig :: sig in STOP_SIGNALS ==> Ignores(image.actions, sig)
  {
    hide Plus, Ignores, Inheritable;
    var held := prep.dups + [prep.docFD];
    var saved := IgnoreStopSignals(k);
    if saved.None? {
      Release(k, held, base, files);
      return Refused;
    }
    k.Settle();
    var stopped := k.Stopped();
    if stopped {
      Restore(k, saved.value);
      Release(k, held, base, files);
      return StopBeforeExec;
    }
    var ok := k.Exec(path, prep.docFD);
    Restore(k, saved.value);
    if !ok {
      Release(k, held, base, files);
      return Refused;
    }
    return Execed;
  }

  /** Nothing about the process or the document stands in the way of a handoff. */
  ghost predicate CanHandOff(k: Kernel<Document>, fds: Table, lockFD: Fd, slots: seq<Slot>, encodable: bool) {
    encodable && AllOpen(fds, lockFD, slots) && forall sig :: sig in STOP_SIGNALS ==> sig !in k.refused
  }

  /** Hand `h` to the program at h.toPath. On every failing return the descriptor
      table, the close-on-exec bits and the signal actions are as before the call;
      when the exec happens the successor finds all it must. */
  method ExecHandoff(k: Kernel<Document>, h: Header, slots: array<Slot>, lockFD: Fd, size: nat, encodable: bool)
    returns (r: Result)
    requires k.Valid() && forall i :: 0 <= i < slots.Length ==> Known(k.p.fds, slots[i].reportFD)
    modifies k
    ensures k.Valid() && k.p.actions == old(k.p).actions
    ensures !r.Execed? ==> Conserved(old(k.p), k.p)
    ensures old(k.p).stop ==> r.StopBeforeExec?
    ensures r.StopBeforeExec? ==> k.p.stop
    ensures r.Execed? ==> !k.p.stop && k.p.image.Some? && !k.p.image.value.lost
    ensures old(k.taken) ==> k.taken && !r.Execed?
    ensures k.faults >= old(k.faults)
    ensures r.Refused? ==> k.faults > old(k.faults) || !CanHandOff(k, old(k.p).fds, lockFD, slots[..], encodable)
    ensures !CanHandOff(k, old(k.p).fds, lockFD, slots[..], encodable) ==> !r.Execed?
    ensures r.Execed? ==> k.p.image.Some? && HandedOn(k.p.image.value, old(k.p), h, lockFD, slots[..])
  {
    hide Plus, Filled, Passes, Ignores, Deaf, AllOpen;
    var stopped := k.Stopped();
    if stopped {
      return StopBeforeExec;
    }
    ghost var before := k.p;
    var prep, objs, doc := PrepareHandoff(k, h, slots, lockFD, size, encodable);
    if prep.None? {
      return Refused;
    }
    ghost var now := k.p;
    r := ExecPrepared(k, h.toPath, prep.value, before.fds, objs + [ReadEnd(before.pipes)]);
    if !r.Execed? {
      return;
    }
    DupsPass(k.p.image.value, before.fds, now.fds, lockFD, slots[..], doc.slots, prep.value.dups, objs,
             doc.header, before.pipes);
    return Execed;
  }

  ghost predicate HandedOn(image: Image<Document>, before: Process<Document>, h: Header, lockFD: Fd, slots: seq<Slot>) {
    && image.path == h.toPath
    && (forall sig :: sig in STOP_SIGNALS ==> Ignores(image.actions, sig))
    && Passes(image, before.fds, lockFD, slots)
    && var doc := image.documents[image.fds[image.docFD].pipe];
       doc.header == Stamped(h, doc.header.lockFD, Ignores(before.actions, SigHup))
  }
}
