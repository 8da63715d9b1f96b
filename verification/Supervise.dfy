/** The loop that runs the pool and, each time the pool commits a restart, execs the
    prebuilt daemon (cmd/launcher/daemon/main.go). */
module Supervise {
  import opened Options
  import opened ProcessKernel
  import opened Handoffs
  import opened Rollbacks

  /** How one run of the pool ends; a prebuilt daemon that may be exec'd is its
      path and revision, `rooted` is whether it could be kept from the garbage
      collector, and `encodable` whether the document can be written at all. */
  datatype PoolEnd =
    | Exits(code: int)
    | Restarts(h: Header, slots: seq<Slot>, target: Option<(string, string)>, rooted: bool, encodable: bool)

  /** The restarts among the first `n` runs whose slots are open in `fds`. */
  predicate KnownSlots(fds: Table, e: PoolEnd) {
    e.Restarts? ==> forall i :: 0 <= i < |e.slots| ==> Known(fds, e.slots[i].reportFD)
  }

  /** The header the successor gets. */
  function Aimed(e: PoolEnd, fromPath: string): Header
    requires e.Restarts? && e.target.Some?
  {
    e.h.(fromPath := fromPath, toPath := e.target.value.0, revision := e.target.value.1)
  }

  /** Nothing about the restart or the process stands in its way. */
  ghost predicate CanRestart(k: Kernel<Document>, fds: Table, lockFD: Fd, e: PoolEnd)
    requires e.Restarts?
  {
    e.target.Some? && e.rooted && CanHandOff(k, fds, lockFD, e.slots, e.encodable)
  }

  class Supervisor {
    const k: Kernel<Document>
    const fromPath: string
    const lockFD: Fd
    var handoff: Option<(Header, seq<Slot>)> // what the next pool run starts from
    var blocked: bool // a restart was refused, and the pool told so

    constructor (k: Kernel<Document>, fromPath: string, lockFD: Fd)
      ensures this.k == k && this.fromPath == fromPath && this.lockFD == lockFD
      ensures handoff.None? && !blocked
    {
      this.k, this.fromPath, this.lockFD := k, fromPath, lockFD;
      handoff, blocked := None, false;
    }

    /** One attempt to replace this image. */
    method ExecSuccessor(e: PoolEnd) returns (r: Result)
      requires k.Valid() && e.Restarts? && KnownSlots(k.p.fds, e)
      modifies k
      ensures k.Valid() && k.p.actions == old(k.p).actions
      ensures !r.Execed? ==> Conserved(old(k.p), k.p)
      ensures r.StopBeforeExec? ==> k.p.stop
      ensures old(k.taken) ==> k.taken && !r.Execed?
      ensures r.Execed? ==> k.p.image.Some? && !k.p.image.value.lost
      ensures r.Refused? ==> k.faults > old(k.faults) || !CanRestart(k, old(k.p).fds, lockFD, e)
      ensures !CanRestart(k, old(k.p).fds, lockFD, e) ==> !r.Execed?
      ensures k.faults >= old(k.faults)
      ensures r.Execed? ==> !k.p.stop && e.target.Some?
      ensures r.Execed? ==> HandedOn(k.p.image.value, old(k.p), Aimed(e, fromPath), lockFD, e.slots)
    {
      hide HandedOn, Known, CanHandOff;
      if e.target.None? || !e.rooted {
        return Refused;
      }
      var slots := new Slot[|e.slots|](i requires 0 <= i < |e.slots| => e.slots[i]);
      assert slots[..] == e.slots;
      var size: nat := *;
      r := ExecHandoff(k, Aimed(e, fromPath), slots, lockFD, size, e.encodable);
    }

    /** Over any number of restarts that fail, descriptors, signal actions and the
        children's report pipes stay as they were and the pool always resumes from
        the last handoff; the loop ends with the pool's own exit, or with the exec of
        the last restart. */
    method SuperviseLoop(runs: seq<PoolEnd>, last: int) returns (code: int, handedOff: bool, ghost tried: seq<Result>)
      requires k.Valid() && forall i :: 0 <= i < |runs| ==> KnownSlots(k.p.fds, runs[i])
      modifies this, k
      ensures k.Valid() && |tried| <= |runs| && k.p.actions == old(k.p).actions
      ensures forall i :: 0 <= i < |tried| ==> runs[i].Restarts?
      ensures handedOff <==> tried != [] && tried[|tried| - 1].Execed?
      ensures handoff == if tried == [] then old(handoff) else Some((runs[|tried| - 1].h, runs[|tried| - 1].slots))
      ensures blocked <==> old(blocked) || Refused in tried
      ensures !handedOff ==> Conserved(old(k.p), k.p)
      ensures forall i :: 0 <= i < |tried| && tried[i].Refused? ==>
        k.faults > old(k.faults) || !CanRestart(k, old(k.p).fds, lockFD, runs[i])
      ensures StopBeforeExec in tried ==> k.p.stop
      ensures handedOff ==> CanRestart(k, old(k.p).fds, lockFD, runs[|tried| - 1])
      ensures !handedOff && |tried| < |runs| ==> runs[|tried|].Exits? && code == runs[|tried|].code
      ensures !handedOff && |tried| == |runs| ==> code == last
      ensures handedOff ==> code == 0 && runs[|tried| - 1].target.Some? && k.p.image.Some? && !old(k.taken) && !k.p.stop
      ensures handedOff ==> !k.p.image.value.lost
      ensures handedOff ==>
        HandedOn(k.p.image.value, old(k.p), Aimed(runs[|tried| - 1], fromPath), lockFD, runs[|tried| - 1].slots)
    {
      hide KnownSlots, Known, CanRestart, HandedOn;
      tried := [];
      for i := 0 to |runs|
        invariant old(k.taken) ==> k.taken
        invariant k.Valid() && Conserved(old(k.p), k.p) && |tried| == i
        invariant forall j :: 0 <= j < i ==> runs[j].Restarts? && !tried[j].Execed?
        invariant handoff == if i > 0 then Some((runs[i - 1].h, runs[i - 1].slots)) else old(handoff)
        invariant blocked <==> old(blocked) || Refused in tried
        invariant k.faults >= old(k.faults) && (StopBeforeExec in tried ==> k.p.stop)
        invariant forall j :: 0 <= j < i && tried[j].Refused? ==>
          k.faults > old(k.faults) || !CanRestart(k, old(k.p).fds, lockFD, runs[j])
      {
        if runs[i].Exits? {
          return runs[i].code, false, tried;
        }
        handoff := Some((runs[i].h, runs[i].slots));
        ghost var before := k.p;
        var r := ExecSuccessor(runs[i]);
        tried := tried + [r];
        match r {
          case Execed =>
            SameStart(k.p.image.value, old(k.p), before, Aimed(runs[i], fromPath), lockFD, runs[i].slots);
            return 0, true, tried;
          case StopBeforeExec =>
          case Refused =>
            blocked := true;
        }
      }
      return last, false, tried;
    }
  }

  /** What the successor is told of a restart: it runs the daemon that was prebuilt, at
      its revision, and knows the program to go back to and the rest of the header. */
  lemma SuccessorIsTold(image: Image<Document>, before: Process<Document>, e: PoolEnd, fromPath: string, lockFD: Fd,
                        doc: Document)
    requires e.Restarts? && e.target.Some?
    requires HandedOn(image, before, Aimed(e, fromPath), lockFD, e.slots) && Entered(image, doc)
    ensures image.path == doc.header.toPath == e.target.value.0 && doc.header.revision == e.target.value.1
    ensures doc.header.fromPath == fromPath && doc.header.reason == e.h.reason
    ensures doc.header.stop == e.h.stop && doc.header.abort == e.h.abort && doc.header.rolledBack == e.h.rolledBack
    ensures |doc.slots| == |e.slots| && forall i :: 0 <= i < |e.slots| ==>
      doc.slots[i] == e.slots[i].(reportFD := doc.slots[i].reportFD)
  {
    hide Ignores, Inheritable;
  }

  /** What the successor finds depends only on what failed attempts conserve. */
  lemma SameStart(image: Image<Document>, a: Process<Document>, b: Process<Document>, h: Header, lockFD: Fd, slots: seq<Slot>)
    requires Conserved(a, b) && HandedOn(image, b, h, lockFD, slots)
    ensures HandedOn(image, a, h, lockFD, slots)
  {
  }
}
