/**
 Who sleeps on a pipe of pipe.c, under a wakeup that wakes only the first sleeper on a channel, as the
 list version in proc.c does. A step is what a process does between taking the lock of the pipe and
 giving it up, by returning or by sleeping; bytes are only counted.
 */
module PipeSleep {
  import opened Pipe

  /** `readers` sleep on &nread and `writers` on &nwrite, in the order of the sleep list. */
  datatype State = State(count: nat, readopen: bool, writeopen: bool, readers: seq<nat>, writers: seq<nat>)

  /** piperead and pipewrite of `n` bytes, from the start or after a wakeup; pipeclose of one end; kill. */
  datatype Step = Read(p: nat, n: nat, killed: bool) | Write(p: nat, n: nat, killed: bool) | Close(writable: bool) | Kill(p: nat)

  predicate Asleep(s: State, p: nat) {
    p in s.readers || p in s.writers
  }

  /** A process in piperead or pipewrite has its end of the pipe open, and an end is closed by the last process that has it. */
  predicate Enabled(s: State, step: Step) {
    match step
    case Read(p, _, _) => s.readopen && !Asleep(s, p)
    case Write(p, _, _) => s.writeopen && !Asleep(s, p)
    case Close(writable) => if writable then s.writeopen && s.writers == [] else s.readopen && s.readers == []
    case Kill(_) => true
  }

  function WakeOne(s: seq<nat>): (r: seq<nat>) {
    if s == [] then s else s[1..]
  }

  function Without(s: seq<nat>, p: nat): (r: seq<nat>)
    ensures forall q :: q in r <==> q in s && q != p
  {
    if s == [] then [] else if s[0] == p then Without(s[1..], p) else [s[0]] + Without(s[1..], p)
  }

  function Next(s: State, step: Step): (r: State)
    requires Enabled(s, step)
  {
    match step
    case Read(p, n, killed) =>
      if s.count == 0 && s.writeopen then if killed then s else s.(readers := s.readers + [p])
      else s.(count := s.count - if n < s.count then n else s.count, writers := WakeOne(s.writers))
    case Write(p, n, killed) =>
      if s.count + n <= PIPESIZE || n == 0 then s.(count := s.count + n, readers := WakeOne(s.readers))
      else if !s.readopen || killed then s.(count := if s.count < PIPESIZE then PIPESIZE else s.count)
      else s.(count := if s.count < PIPESIZE then PIPESIZE else s.count, readers := WakeOne(s.readers), writers := s.writers + [p])
    case Close(writable) =>
      if writable then s.(writeopen := false, readers := WakeOne(s.readers)) else s.(readopen := false, writers := WakeOne(s.writers))
    case Kill(p) => s.(readers := Without(s.readers, p), writers := Without(s.writers, p))
  }

  // ---------------------------------------------------------------- the code takes these steps

  /** The pipe has the bytes and the ends of state `s`. */
  ghost predicate Matches(b: PipeBuffer, s: State)
    reads b, b.data
  {
    b.Valid() && |b.stored| - |b.delivered| == s.count && b.readopen == s.readopen && b.writeopen == s.writeopen
  }

  /** piperead by process `p`; asleep if and only if the machine puts it to sleep. */
  method ReadStep(b: PipeBuffer, ghost s: State, p: nat, n: nat, killed: bool) returns (r: ReadResult)
    requires Matches(b, s) && Enabled(s, Read(p, n, killed))
    modifies b`nread, b`delivered
    ensures Matches(b, Next(s, Read(p, n, killed))) && (r.ReaderSleeps? <==> Asleep(Next(s, Read(p, n, killed)), p))
  {
    r := b.Read(n, killed);
  }

  method WriteStep(b: PipeBuffer, ghost s: State, p: nat, src: seq<Byte>, i: nat, killed: bool) returns (r: WriteResult)
    requires Matches(b, s) && i <= |src| && Enabled(s, Write(p, |src| - i, killed))
    modifies b`nwrite, b`stored, b.data
    ensures Matches(b, Next(s, Write(p, |src| - i, killed))) && (r.WriterSleeps? <==> Asleep(Next(s, Write(p, |src| - i, killed)), p))
  {
    r := b.Write(src, i, killed);
  }

  method CloseStep(b: PipeBuffer, ghost s: State, writable: bool) returns (freed: bool)
    requires Matches(b, s) && Enabled(s, Close(writable))
    modifies b`readopen, b`writeopen
    ensures Matches(b, Next(s, Close(writable))) && (freed <==> !b.readopen && !b.writeopen)
  {
    freed := b.Close(writable);
  }

  predicate Run(s: State, steps: seq<Step>)
    decreases |steps|
  {
    steps == [] || (Enabled(s, steps[0]) && Run(Next(s, steps[0]), steps[1..]))
  }

  function Exec(s: State, steps: seq<Step>): (r: State)
    requires Run(s, steps)
    decreases |steps|
  {
    if steps == [] then s else Exec(Next(s, steps[0]), steps[1..])
  }

  /**
   Whoever sleeps has something to sleep for: readers an empty pipe that can still be written, writers a
   full one that can still be read.
   */
  predicate Good(s: State) {
    && s.count <= PIPESIZE
    && (s.readers != [] ==> s.count == 0 && s.writeopen && s.readopen)
    && (s.writers != [] ==> s.count == PIPESIZE && s.readopen && s.writeopen)
  }

  /** What the step's wakeup leaves asleep has still something to sleep for. */
  predicate WakesEnough(s: State, step: Step) {
    match step
    case Read(_, n, _) => (s.count == 0 && s.writeopen) || |s.writers| <= 1 || n == 0
    case Write(_, n, killed) => n == 0 || (if s.count + n > PIPESIZE && (!s.readopen || killed) then s.readers == [] else |s.readers| <= 1)
    case Close(writable) => if writable then |s.readers| <= 1 else |s.writers| <= 1
    case Kill(_) => true
  }

  /** A step keeps every sleeper's sleep justified if and only if its wakeup finds at most one sleeper to wake. */
  lemma StepExact(s: State, step: Step)
    requires Good(s) && Enabled(s, step)
    ensures Good(Next(s, step)) <==> WakesEnough(s, step)
  {
    if step.Kill? {
      assert forall q :: q in Without(s.readers, step.p) ==> q in s.readers;
      assert s.readers == [] ==> Without(s.readers, step.p) == [];
      assert s.writers == [] ==> Without(s.writers, step.p) == [];
    }
  }

  /** All reading is done by process `r`, all writing by process `w`, which is not killed while it writes. */
  predicate OneEach(steps: seq<Step>, r: nat, w: nat) {
    forall i :: 0 <= i < |steps| ==> (steps[i].Read? ==> steps[i].p == r) && (steps[i].Write? ==> steps[i].p == w && !steps[i].killed)
  }

  predicate Few(s: State, r: nat, w: nat) {
    && |s.readers| <= 1 && |s.writers| <= 1
    && (forall p :: p in s.readers ==> p == r) && (forall p :: p in s.writers ==> p == w)
  }

  lemma FewStay(s: State, step: Step, r: nat, w: nat)
    requires Good(s) && Few(s, r, w) && Enabled(s, step) && OneEach([step], r, w)
    ensures Good(Next(s, step)) && Few(Next(s, step), r, w)
  {
    assert (step.Read? ==> step.p == r) && (step.Write? ==> step.p == w && !step.killed) by { assert [step][0] == step; }
    assert s.readers != [] ==> s.readers[0] in s.readers;
    assert s.writers != [] ==> s.writers[0] in s.writers;
    assert s.readers != [] ==> s.count == 0;
    if step.Kill? { WithoutShort(s.readers, step.p); WithoutShort(s.writers, step.p); }
    StepExact(s, step);
  }

  lemma {:induction false} WithoutShort(s: seq<nat>, p: nat)
    ensures |Without(s, p)| <= |s|
  {
    if s != [] { WithoutShort(s[1..], p); }
  }

  /** One reader and one writer never sleep without cause, in any run. */
  lemma {:induction false} OneEachGood(s: State, steps: seq<Step>, r: nat, w: nat)
    requires Good(s) && Few(s, r, w) && Run(s, steps) && OneEach(steps, r, w)
    ensures Good(Exec(s, steps))
    decreases |steps|
  {
    if steps != [] {
      assert steps[0] == [steps[0]][0];
      FewStay(s, steps[0], r, w);
      OneEachGood(Next(s, steps[0]), steps[1..], r, w);
    }
  }

  // ---------------------------------------------------------------- asleep for good

  /** With the write end closed nothing but kill wakes a reader. */
  lemma {:induction false} ReaderStays(s: State, steps: seq<Step>, p: nat)
    requires Run(s, steps) && p in s.readers && !s.writeopen && Kill(p) !in steps
    ensures p in Exec(s, steps).readers
    decreases |steps|
  {
    if steps != [] {
      assert steps[0] in steps && Kill(p) !in steps[1..];
      ReaderStays(Next(s, steps[0]), steps[1..], p);
    }
  }

  lemma {:induction false} WriterStays(s: State, steps: seq<Step>, p: nat)
    requires Run(s, steps) && p in s.writers && !s.readopen && Kill(p) !in steps
    ensures p in Exec(s, steps).writers
    decreases |steps|
  {
    if steps != [] {
      assert steps[0] in steps && Kill(p) !in steps[1..];
      WriterStays(Next(s, steps[0]), steps[1..], p);
    }
  }

  /** As long as the write end is open a process that writes nothing, over and over, wakes every reader in turn. */
  lemma {:induction false} ReaderWoken(s: State, p: nat, w: nat) returns (steps: seq<Step>)
    requires p in s.readers && s.writeopen && !Asleep(s, w) && Unique(s.readers)
    ensures Run(s, steps) && p !in Exec(s, steps).readers && Kill(p) !in steps
    decreases |s.readers|
  {
    var step := Write(w, 0, false);
    var t := Next(s, step);
    assert s.readers == [s.readers[0]] + s.readers[1..];
    if s.readers[0] == p {
      steps := [step];
    } else {
      var more := ReaderWoken(t, p, w);
      steps := [step] + more;
      assert steps[1..] == more;
    }
  }

  predicate Unique(s: seq<nat>) {
    forall i, j :: 0 <= i < j < |s| ==> s[i] != s[j]
  }

  lemma {:induction false} WriterWoken(s: State, p: nat, r: nat) returns (steps: seq<Step>)
    requires p in s.writers && s.readopen && !Asleep(s, r) && Unique(s.writers) && (s.count > 0 || !s.writeopen)
    ensures Run(s, steps) && p !in Exec(s, steps).writers && Kill(p) !in steps
    decreases |s.writers|
  {
    var step := Read(r, 0, false);
    var t := Next(s, step);
    assert s.writers == [s.writers[0]] + s.writers[1..];
    if s.writers[0] == p {
      steps := [step];
    } else {
      var more := WriterWoken(t, p, r);
      steps := [step] + more;
      assert steps[1..] == more;
    }
  }

  /** A reader has something to wait for exactly as long as the write end is open. */
  lemma ReaderExact(s: State, p: nat, w: nat)
    requires p in s.readers && !Asleep(s, w) && Unique(s.readers)
    ensures (exists steps :: Run(s, steps) && Kill(p) !in steps && p !in Exec(s, steps).readers) <==> s.writeopen
  {
    if s.writeopen {
      var steps := ReaderWoken(s, p, w);
    } else {
      forall steps | Run(s, steps) && Kill(p) !in steps ensures p in Exec(s, steps).readers { ReaderStays(s, steps, p); }
    }
  }

  /** And a writer, asleep on a full pipe, as long as the read end is. */
  lemma WriterExact(s: State, p: nat, r: nat)
    requires p in s.writers && !Asleep(s, r) && Unique(s.writers) && s.count > 0
    ensures (exists steps :: Run(s, steps) && Kill(p) !in steps && p !in Exec(s, steps).writers) <==> s.readopen
  {
    if s.readopen {
      var steps := WriterWoken(s, p, r);
    } else {
      forall steps | Run(s, steps) && Kill(p) !in steps ensures p in Exec(s, steps).writers { WriterStays(s, steps, p); }
    }
  }

  /** pipeclose leaves all sleepers on the other end but the first asleep for good. */
  lemma CloseStrands(s: State, steps: seq<Step>, i: nat)
    requires Enabled(s, Close(true)) && 0 < i < |s.readers| && Run(Next(s, Close(true)), steps) && Kill(s.readers[i]) !in steps
    ensures s.readers[i] in Exec(Next(s, Close(true)), steps).readers
  {
    assert s.readers[i] == s.readers[1..][i - 1];
    ReaderStays(Next(s, Close(true)), steps, s.readers[i]);
  }
}
