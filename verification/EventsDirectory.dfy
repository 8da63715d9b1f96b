/** The directory the Daemon keeps its Events file in, and the kernel calls the
    Dashboard makes on it. Files are identities with append-only contents; the
    Daemon appends (torn lines included), renames the current file over the older
    name and creates a fresh current file, at any moment between two calls. */
module EventsDirectory {
  import opened Lines
  import opened Options

  type FileId = nat

  datatype Name = CurrentName | OlderName

  datatype Dir = Dir(contents: seq<Bytes>, at: map<Name, FileId>)

  datatype DaemonStep =
    | Append(bytes: Bytes)
    | Rename
    | Create

  /** What one Daemon step does; a step that is not enabled changes nothing. */
  function Step(d: Dir, s: DaemonStep): Dir {
    match s
    case Append(bytes) =>
      if CurrentName in d.at && d.at[CurrentName] < |d.contents| then
        d.(contents := d.contents[d.at[CurrentName] := d.contents[d.at[CurrentName]] + bytes])
      else d
    case Rename =>
      if CurrentName in d.at then d.(at := map[OlderName := d.at[CurrentName]]) else d
    case Create =>
      if CurrentName in d.at then d
      else Dir(d.contents + [[]], d.at[CurrentName := |d.contents|])
  }

  function Run(d: Dir, steps: seq<DaemonStep>): Dir
    decreases |steps|
  {
    if steps == [] then d else Run(Step(d, steps[0]), steps[1..])
  }

  /** Identities are numbered in order of creation: the current name holds the
      newest one and the older name the one before it. */
  ghost predicate WellFormed(d: Dir) {
    && (CurrentName in d.at ==> d.at[CurrentName] + 1 == |d.contents|)
    && (OlderName in d.at ==>
          d.at[OlderName] + (if CurrentName in d.at then 2 else 1) == |d.contents|)
  }

  /** `id` exists and the Daemon no longer writes to it. */
  predicate Closed(d: Dir, id: FileId) {
    id < |d.contents| && (CurrentName in d.at ==> d.at[CurrentName] != id)
  }

  /** What any number of Daemon steps preserve. */
  ghost predicate Evolves(d: Dir, e: Dir) {
    && |d.contents| <= |e.contents|
    && (forall id :: 0 <= id < |d.contents| ==> d.contents[id] <= e.contents[id])
    && (forall id: FileId :: Closed(d, id) ==> Closed(e, id) && e.contents[id] == d.contents[id])
    && (OlderName in d.at ==> OlderName in e.at)
    && (CurrentName in d.at ==>
          || OlderName in e.at
          || (CurrentName in e.at && e.at[CurrentName] == d.at[CurrentName]))
    && (|d.contents| == |e.contents| && CurrentName in e.at ==> e.at == d.at)
  }

  lemma StepEvolves(d: Dir, s: DaemonStep)
    requires WellFormed(d)
    ensures WellFormed(Step(d, s)) && Evolves(d, Step(d, s))
  {
  }

  lemma FileEvolves(d: Dir, e: Dir, id: FileId)
    requires Evolves(d, e) && id < |d.contents|
    ensures id < |e.contents| && d.contents[id] <= e.contents[id]
    ensures Closed(d, id) ==> Closed(e, id) && e.contents[id] == d.contents[id]
  {
  }

  lemma EvolvesTransitive(a: Dir, b: Dir, c: Dir)
    requires WellFormed(a) && WellFormed(b)
    requires Evolves(a, b) && Evolves(b, c)
    ensures Evolves(a, c)
  {
    forall id | 0 <= id < |a.contents|
      ensures a.contents[id] <= c.contents[id]
    {
      assert a.contents[id] <= b.contents[id] <= c.contents[id];
    }
  }

  /** Every run of the Daemon: an invariant and a two-state relation. */
  lemma {:induction false} RunEvolves(d: Dir, steps: seq<DaemonStep>)
    requires WellFormed(d)
    ensures WellFormed(Run(d, steps)) && Evolves(d, Run(d, steps))
    decreases |steps|
  {
    if steps != [] {
      StepEvolves(d, steps[0]);
      RunEvolves(Step(d, steps[0]), steps[1..]);
      EvolvesTransitive(d, Step(d, steps[0]), Run(d, steps));
    }
  }

  datatype OpenResult = Opened(id: FileId) | Missing | OpenFailed

  /** How many descriptors an open left behind. */
  function Of(r: OpenResult): nat {
    if r.Opened? then 1 else 0
  }

  predicate Names(d: Dir, r: OpenResult) {
    r.Opened? ==> r.id < |d.contents|
  }

  datatype ReadError = NoError | EndOfFile | ReadFailed

  /** A call that failed; a failing read got to `to`. */
  datatype Fault = OpenFault(name: Name) | StatFault(id: FileId) | ReadFault(id: FileId, to: nat)

  /** The directory as one process's system calls see it. `script` is everything
      the Daemon is still going to do; before each call takes effect the Daemon
      performs an arbitrary prefix of it, so every interleaving of a finite run
      is some execution of these methods. A call may fail unless `reliable`; `faults`
      are the calls that did. */
  class Directory {
    var dir: Dir
    var script: seq<DaemonStep>
    var descriptors: nat // how many this process holds open
    const reliable: bool
    ghost var faults: seq<Fault>

    constructor (d: Dir, script: seq<DaemonStep>, reliable: bool)
      requires WellFormed(d)
      ensures Valid() && dir == d && this.script == script && this.reliable == reliable
      ensures descriptors == 0 && faults == []
    {
      this.dir, this.script, this.descriptors, this.reliable := d, script, 0, reliable;
      faults := [];
    }

    ghost predicate Valid()
      reads this
    {
      WellFormed(dir)
    }

    /** Some prefix of the script, possibly none of it, takes place. */
    method Interfere()
      requires Valid()
      modifies this`dir, this`script
      ensures Valid()
      ensures Passed(old(dir), old(script), dir, script)
    {
      var n: nat :| 0 <= n <= |script|;
      RunEvolves(dir, script[..n]);
      dir := Run(dir, script[..n]);
      script := script[n..];
    }

    /** open(2) */
    method Open(name: Name) returns (r: OpenResult)
      requires Valid()
      modifies this
      ensures Valid()
      ensures Passed(old(dir), old(script), dir, script)
      ensures r.Opened? ==> name in dir.at && dir.at[name] == r.id && r.id < |dir.contents|
      ensures r.Missing? ==> name !in dir.at
      ensures reliable ==> !r.OpenFailed?
      ensures descriptors == old(descriptors) + Of(r)
      ensures faults == if r.OpenFailed? then old(faults) + [OpenFault(name)] else old(faults)
    {
      Interfere();
      var fault: bool := *;
      if fault && !reliable {
        faults := faults + [OpenFault(name)];
        return OpenFailed;
      }
      if name in dir.at {
        r := Opened(dir.at[name]);
        descriptors := descriptors + 1;
      } else {
        r := Missing;
      }
    }

    /** fstat(2) on an open file: the file's identity is all the reader observes. */
    method Stat(id: FileId) returns (r: Option<FileId>)
      requires Valid() && id < |dir.contents|
      modifies this`dir, this`script, this`faults
      ensures Valid()
      ensures Passed(old(dir), old(script), dir, script)
      ensures r == Some(id) || r.None?
      ensures reliable ==> r.Some?
      ensures faults == if r.Some? then old(faults) else old(faults) + [StatFault(id)]
    {
      Interfere();
      var fault: bool := *;
      if fault && !reliable {
        faults := faults + [StatFault(id)];
        return None;
      }
      return Some(id);
    }

    /** close(2) */
    method Close(id: FileId)
      requires Valid() && id < |dir.contents| && descriptors > 0
      modifies this`descriptors
      ensures Valid() && descriptors == old(descriptors) - 1
    {
      descriptors := descriptors - 1;
    }

    /** One buffered ReadBytes('\n') at `pos`: a whole line, or what is left at
        the end of the file, or a fragment cut short by a failing read. */
    method ReadLine(id: FileId, pos: nat) returns (line: Bytes, err: ReadError)
      requires Valid() && id < |dir.contents| && pos <= |dir.contents[id]|
      modifies this`dir, this`script, this`faults
      ensures Valid()
      ensures Passed(old(dir), old(script), dir, script)
      ensures pos + |line| <= |dir.contents[id]| && line == dir.contents[id][pos..pos + |line|]
      ensures err.NoError? ==> line != [] && FirstBreak(line) == |line| - 1
      ensures !err.NoError? ==> FirstBreak(line) == |line|
      ensures err.EndOfFile? ==> pos + |line| == |dir.contents[id]| && line == dir.contents[id][pos..]
      ensures reliable ==> !err.ReadFailed?
      ensures faults == if err.ReadFailed? then old(faults) + [ReadFault(id, pos + |line|)] else old(faults)
    {
      hide FirstBreak, Evolves;
      ghost var before := dir;
      Interfere();
      FileEvolves(before, dir, id);
      var rest := dir.contents[id][pos..];
      var n := FirstBreak(rest);
      var fault: bool := *;
      if fault && !reliable {
        var k: nat :| 0 <= k <= n;
        FirstBreakIs(rest[..k], k);
        SliceOf(dir.contents[id], pos, k);
        faults := faults + [ReadFault(id, pos + k)];
        return rest[..k], ReadFailed;
      }
      if n < |rest| {
        FirstBreakIs(rest[..n + 1], n);
        SliceOf(dir.contents[id], pos, n + 1);
        line, err := rest[..n + 1], NoError;
      } else {
        SliceOf(dir.contents[id], pos, n);
        line, err := rest, EndOfFile;
      }
    }
  }

  lemma SliceOf(c: Bytes, pos: nat, k: nat)
    requires pos + k <= |c|
    ensures c[pos..][..k] == c[pos..pos + k]
    ensures pos + k == |c| ==> c[pos..] == c[pos..pos + k]
  {
  }

  /** What a caller may assume after the Daemon was given a chance to run. */
  ghost predicate Passed(d: Dir, s: seq<DaemonStep>, e: Dir, t: seq<DaemonStep>) {
    && Evolves(d, e)
    && |t| <= |s|
    && (|t| == |s| ==> e == d)
  }

  lemma PassedReflexive(d: Dir, s: seq<DaemonStep>)
    ensures Passed(d, s, d, s)
  {
  }

  lemma PassedTransitive(d: Dir, s: seq<DaemonStep>, e: Dir, t: seq<DaemonStep>, f: Dir, u: seq<DaemonStep>)
    requires WellFormed(d) && WellFormed(e)
    requires Passed(d, s, e, t) && Passed(e, t, f, u)
    ensures Passed(d, s, f, u)
  {
    EvolvesTransitive(d, e, f);
  }
}
