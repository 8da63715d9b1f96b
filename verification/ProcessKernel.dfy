/** The kernel as one process's system calls see it: its descriptor table, its
    signal actions and the pipes it has written, any call of which may fail. */
module ProcessKernel {
  import opened Options

  type Fd = int
  type PipeId = nat

  /** What a descriptor refers to. */
  datatype Object = File(id: int) | ReadEnd(pipe: PipeId) | WriteEnd(pipe: PipeId)

  datatype Descriptor = Descriptor(target: Object, closeOnExec: bool)

  type Table = map<Fd, Descriptor>

  datatype Signal = SigTerm | SigInt | SigHup

  const SIG_DFL := 0
  const SIG_IGN := 1

  datatype Action = Action(handler: int, rest: int)

  /** The program an exec entered, with the descriptors that survived it; `lost` is
      whether a stop signal that had been taken went down with the old program. */
  datatype Image<D> = Image(path: string, docFD: Fd, fds: map<Fd, Object>,
                            actions: map<Signal, Action>, documents: map<PipeId, D>, lost: bool)

  /** Both signals that ask for a stop are ignored: none is taken any more. */
  predicate Deaf(actions: map<Signal, Action>) {
    && SigTerm in actions && actions[SigTerm].handler == SIG_IGN
    && SigInt in actions && actions[SigInt].handler == SIG_IGN
  }

  datatype Process<D> = Process(
    fds: Table, actions: map<Signal, Action>,
    pipes: nat, documents: map<PipeId, D>,
    stop: bool, image: Option<Image<D>>)

  datatype WriteError = NoError | Again | Failed

  /** The descriptors an exec keeps. */
  function Inheritable(fds: Table): map<Fd, Object> {
    map fd | fd in fds && !fds[fd].closeOnExec :: fds[fd].target
  }

  lemma {:induction false} FreeFdExists(fds: set<Fd>, n: nat)
    requires n == |fds|
    ensures exists fd :: fd >= 0 && fd !in fds
  {
    if forall fd :: 0 <= fd <= n ==> fd in fds {
      UpTo(n, fds);
    }
  }

  lemma {:induction false} UpTo(n: nat, s: set<Fd>)
    requires forall fd :: 0 <= fd <= n ==> fd in s
    ensures |s| > n
  {
    if n == 0 {
      assert s - {0} < s;
    } else {
      UpTo(n - 1, s - {n});
    }
  }

  class Kernel<D> {
    var p: Process<D>
    const refused: set<Signal> // whose action the kernel will not change
    var taken: bool // a stop signal has been taken, whether or not it has closed the latch yet
    ghost var faults: nat // how many calls have failed for no reason of the caller's

    constructor (p: Process<D>, refused: set<Signal>)
      requires SigTerm in p.actions && SigInt in p.actions && SigHup in p.actions
      ensures Valid() && this.p == p && this.refused == refused && faults == 0
      ensures taken == p.stop
    {
      this.p, this.refused, taken, faults := p, refused, p.stop, 0;
    }

    ghost predicate Valid()
      reads this
    {
      SigTerm in p.actions && SigInt in p.actions && SigHup in p.actions && (p.stop ==> taken)
    }

    /** A stop signal may arrive, unless both are ignored, which drops it. */
    method Arrive()
      requires Valid()
      modifies this`taken
      ensures Valid() && (old(taken) ==> taken) && (Deaf(p.actions) ==> taken == old(taken))
    {
      var arrives: bool := *;
      if arrives && !Deaf(p.actions) {
        taken := true;
      }
    }

    /** A look at the stop latch, which a signal taken may have closed by now, and
        which stays closed. */
    method Stopped() returns (stopped: bool)
      requires Valid()
      modifies this
      ensures Valid() && p == old(p).(stop := stopped) && (old(p).stop ==> stopped) && faults == old(faults)
      ensures (old(taken) ==> taken) && (Deaf(p.actions) ==> taken == old(taken))
    {
      Arrive();
      var closes: bool := *;
      stopped := p.stop || (taken && closes);
      p := p.(stop := stopped);
    }

    /** A wait in which the signals taken so far close the stop latch. */
    method Settle()
      requires Valid()
      modifies this
      ensures Valid() && p == old(p).(stop := p.stop) && (old(p).stop ==> p.stop) && faults == old(faults)
      ensures old(taken) ==> taken && p.stop
      ensures Deaf(p.actions) ==> taken == old(taken)
    {
      p := p.(stop := p.stop || taken);
      Arrive();
    }

    /** dup(2): the new descriptor is not close-on-exec. */
    method Dup(fd: Fd) returns (r: Option<Fd>)
      requires Valid()
      modifies this`p, this`faults
      ensures Valid()
      ensures r.None? ==> p == old(p)
      ensures faults == old(faults) + if r.None? && fd in old(p).fds then 1 else 0
      ensures r.Some? ==> fd in old(p).fds && r.value >= 0 && r.value !in old(p).fds
      ensures r.Some? ==> p == old(p).(fds := old(p).fds[r.value := Descriptor(old(p).fds[fd].target, false)])
    {
      var fault: bool := *;
      if fault || fd !in p.fds {
        faults := faults + if fd in p.fds then 1 else 0;
        return None;
      }
      FreeFdExists(p.fds.Keys, |p.fds.Keys|);
      var n :| n >= 0 && n !in p.fds.Keys;
      p := p.(fds := p.fds[n := Descriptor(p.fds[fd].target, false)]);
      return Some(n);
    }

    method Close(fd: Fd)
      requires Valid()
      modifies this`p
      ensures Valid() && p == old(p).(fds := old(p).fds - {fd}) && faults == old(faults)
    {
      p := p.(fds := p.fds - {fd});
    }

    /** fcntl(2), setting FD_CLOEXEC. */
    method SetCloseOnExec(fd: Fd) returns (ok: bool)
      requires Valid()
      modifies this`p
      ensures Valid() && ok == (fd in old(p).fds) && faults == old(faults)
      ensures p == if ok then old(p).(fds := old(p).fds[fd := old(p).fds[fd].(closeOnExec := true)]) else old(p)
    {
      if fd !in p.fds {
        return false;
      }
      p := p.(fds := p.fds[fd := p.fds[fd].(closeOnExec := true)]);
      return true;
    }

    /** pipe2(2) with O_CLOEXEC. */
    method Pipe2() returns (r: Option<(Fd, Fd)>)
      requires Valid()
      modifies this`p, this`faults
      ensures Valid()
      ensures r.None? ==> p == old(p)
      ensures faults == old(faults) + if r.None? then 1 else 0
      ensures r.Some? ==> r.value.0 !in old(p).fds && r.value.1 !in old(p).fds && r.value.0 != r.value.1
      ensures r.Some? ==> p == old(p).(pipes := old(p).pipes + 1,
        fds := old(p).fds[r.value.0 := Descriptor(ReadEnd(old(p).pipes), true)]
                         [r.value.1 := Descriptor(WriteEnd(old(p).pipes), true)])
    {
      var fault: bool := *;
      if fault {
        faults := faults + 1;
        return None;
      }
      FreeFdExists(p.fds.Keys, |p.fds.Keys|);
      var a :| a >= 0 && a !in p.fds.Keys;
      FreeFdExists(p.fds.Keys + {a}, |p.fds.Keys + {a}|);
      var b :| b >= 0 && b !in p.fds.Keys + {a};
      p := p.(pipes := p.pipes + 1,
              fds := p.fds[a := Descriptor(ReadEnd(p.pipes), true)][b := Descriptor(WriteEnd(p.pipes), true)]);
      return Some((a, b));
    }

    /** A non-blocking write of a document of `size` bytes to an empty pipe: all of
        it, part of it, or none. */
    method Write(fd: Fd, doc: D, size: nat) returns (n: int, err: WriteError)
      requires Valid() && fd in p.fds && p.fds[fd].target.WriteEnd?
      modifies this`p, this`faults
      ensures Valid() && n <= size && (err.NoError? <==> n == size)
      ensures p == old(p).(documents := p.documents)
      ensures faults == old(faults) + if n < size then 1 else 0
      ensures n == size ==> p.documents == old(p).documents[old(p).fds[fd].target.pipe := doc]
    {
      n :| -1 <= n <= size;
      var again: bool := *;
      err := if n == size then NoError else if again then Again else Failed;
      faults := faults + if n < size then 1 else 0;
      if n == size {
        p := p.(documents := p.documents[p.fds[fd].target.pipe := doc]);
      }
    }

    /** rt_sigaction(2): reads, or replaces, one action. */
    method Sigaction(sig: Signal, act: Option<Action>) returns (was: Option<Action>)
      requires Valid()
      modifies this
      ensures Valid() && (old(taken) ==> taken)
      ensures was.None? ==> p == old(p)
      ensures was.Some? ==> sig in old(p).actions && was == Some(old(p).actions[sig])
      ensures was.Some? ==> p == old(p).(actions := if act.Some? then old(p).actions[sig := act.value] else old(p).actions)
      ensures act.Some? ==> (was.Some? <==> sig !in refused)
      ensures faults == old(faults) + if act.None? && was.None? then 1 else 0
    {
      Arrive();
      var fault: bool := *;
      if (act.Some? && sig in refused) || (act.None? && fault) {
        faults := faults + if act.None? then 1 else 0;
        return None;
      }
      was := Some(p.actions[sig]);
      if act.Some? {
        p := p.(actions := p.actions[sig := act.value]);
      }
    }

    /** execve(2). On success the process is the new image; the code after the
        call runs only under a test seam, on the old image's state. */
    method Exec(path: string, docFD: Fd) returns (ok: bool)
      requires Valid()
      modifies this`p, this`faults
      ensures Valid()
      ensures faults == old(faults) + if ok then 0 else 1
      ensures p == old(p).(image := if ok then Some(Image(path, docFD, Inheritable(p.fds), p.actions, p.documents, taken))
                                    else old(p).image)
    {
      ok := *;
      if ok {
        p := p.(image := Some(Image(path, docFD, Inheritable(p.fds), p.actions, p.documents, taken)));
      } else {
        faults := faults + 1;
      }
    }
  }
}
