/**
 The logging protocol as a machine over disk, buffer cache and in-memory header. One step is
 one critical section or one single-block disk write, so operations, readers, the commit and
 the recovery interleave freely, and a crash may come between any two block writes.
 The cache here may evict any clean unheld block at any time; LruCache shows that the LRU
 ring of bio.c does no more than that.
 */
module LogMachine {
  import opened LogFormat
  import opened Sealing

  /** Who has a buffer B_BUSY: nobody, a file-system operation, a plain reader, or the log code. */
  datatype Holder = Free | Op(id: nat) | Reader | Log

  /** A cached block. `touched`: the holding operation changed it and has not called log_write yet. */
  datatype CBuf = CBuf(data: Block, dirty: bool, touched: bool, holder: Holder)

  /** Where commit() or recover_from_log() stands; `tail` is the loop variable of that name. */
  datatype Phase =
    | Quiet
    | WriteLog(tail: nat)
    | InstallTrans(tail: nat, recovering: bool)
    | Done
    | ReadHeader

  /**
   `ops` maps each operation between begin_op and end_op to what is left of its reservation: the
   blocks it may still add to the log. Nothing in the code stops it from going below zero.
   */
  datatype State = State(
    disk: Disk,
    cache: map<nat, CBuf>,
    lh: seq<Word>,
    ops: map<nat, int>,
    outstanding: int,
    committing: bool,
    phase: Phase)

  datatype Step =
    | Begin(op: nat)
    | Get(h: Holder, b: nat)
    | Release(h: Holder, b: nat)
    | Evict(b: nat)
    | Modify(op: nat, b: nat, data: Block)
    | LogWrite(op: nat, b: nat)
    | End(op: nat)
    | WriteLogBlock
    | WriteHeader
    | InstallBlock
    | ClearHeader
    | CommitDone
    | Crash
    | LoadHeader

  predicate Recovering(p: Phase) {
    p.ReadHeader? || (p.InstallTrans? && p.recovering)
  }

  predicate HeldBy(s: State, b: int, h: Holder) {
    0 <= b && b in s.cache && s.cache[b].holder == h
  }

  // The two guards at the top of log_write.
  predicate LogWritePanics(L: Layout, s: State) {
    |s.lh| >= LOGSIZE || |s.lh| >= L.size - 1 || s.outstanding < 1
  }

  // The test in end_op, after outstanding has been decremented.
  predicate EndPanics(s: State) {
    s.committing
  }

  predicate Enabled(L: Layout, s: State, step: Step)
    requires L.Ok() && |s.disk| == L.nblocks
  {
    match step
    case Begin(op) =>
      && !Recovering(s.phase) && op !in s.ops
      && !s.committing && |s.lh| + (s.outstanding + 1) * MAXOPBLOCKS <= LOGSIZE
    case Get(h, b) =>
      && h != Free && b < L.nblocks && (b in s.cache ==> s.cache[b].holder == Free)
      && (h.Op? ==> h.id in s.ops && L.Home(b))
    case Release(h, b) =>
      h != Free && HeldBy(s, b, h) && !s.cache[b].touched
    case Evict(b) =>
      b in s.cache && s.cache[b].holder == Free && !s.cache[b].dirty
    case Modify(op, b, data) =>
      op in s.ops && HeldBy(s, b, Op(op))
    case LogWrite(op, b) =>
      op in s.ops && HeldBy(s, b, Op(op)) && b < L.nblocks && !LogWritePanics(L, s)
    case End(op) =>
      op in s.ops && !EndPanics(s) && forall b :: b in s.cache ==> s.cache[b].holder != Op(op)
    case WriteLogBlock =>
      && s.phase.WriteLog? && s.phase.tail < |s.lh|
      && HeldBy(s, L.start + s.phase.tail + 1, Log) && HeldBy(s, s.lh[s.phase.tail], Log)
      && L.start + s.phase.tail + 1 < L.nblocks
    case WriteHeader =>
      s.phase == WriteLog(|s.lh|) && HeldBy(s, L.start, Log) && |s.lh| <= LOGSIZE
    case InstallBlock =>
      && s.phase.InstallTrans? && s.phase.tail < |s.lh|
      && HeldBy(s, L.start + s.phase.tail + 1, Log) && HeldBy(s, s.lh[s.phase.tail], Log)
      && s.lh[s.phase.tail] < L.nblocks
    case ClearHeader =>
      s.phase.InstallTrans? && s.phase.tail == |s.lh| && HeldBy(s, L.start, Log)
    case CommitDone =>
      s.phase.Done?
    case Crash =>
      true
    case LoadHeader =>
      s.phase.ReadHeader? && HeldBy(s, L.start, Log) && s.cache[L.start].data[0] <= LOGSIZE
  }

  // bwrite by the holder: the data reach the disk and B_DIRTY goes out.
  function Bwrite(s: State, b: nat, data: Block): (r: State)
    requires b < |s.disk| && b in s.cache
  {
    s.(disk := s.disk[b := data], cache := s.cache[b := s.cache[b].(data := data, dirty := false)])
  }

  function Next(L: Layout, s: State, step: Step): (r: State)
    requires L.Ok() && |s.disk| == L.nblocks && Enabled(L, s, step)
    ensures |r.disk| == |s.disk|
  {
    match step
    case Begin(op) =>
      s.(ops := s.ops[op := MAXOPBLOCKS], outstanding := s.outstanding + 1)
    case Get(h, b) =>
      var buf := if b in s.cache then s.cache[b] else CBuf(s.disk[b], false, false, Free);
      s.(cache := s.cache[b := buf.(holder := h)])
    case Release(h, b) =>
      s.(cache := s.cache[b := s.cache[b].(holder := Free)])
    case Evict(b) =>
      s.(cache := s.cache - {b})
    case Modify(op, b, data) =>
      s.(cache := s.cache[b := s.cache[b].(data := data, touched := true)])
    case LogWrite(op, b) =>
      s.(lh := if b in s.lh then s.lh else s.lh + [b],
         cache := s.cache[b := s.cache[b].(dirty := true, touched := false)],
         ops := s.ops[op := s.ops[op] - if b in s.lh then 0 else 1])
    case End(op) =>
      var t := s.(ops := s.ops - {op}, outstanding := s.outstanding - 1);
      if t.outstanding == 0 then
        t.(committing := true, phase := if |s.lh| > 0 then WriteLog(0) else Done)
      else t
    case WriteLogBlock =>
      Bwrite(s, L.start + s.phase.tail + 1, s.cache[s.lh[s.phase.tail]].data)
      .(phase := WriteLog(s.phase.tail + 1))
    case WriteHeader =>
      Bwrite(s, L.start, WriteHead(s.cache[L.start].data, s.lh))
      .(phase := InstallTrans(0, false))
    case InstallBlock =>
      Bwrite(s, s.lh[s.phase.tail], s.cache[L.start + s.phase.tail + 1].data)
      .(phase := s.phase.(tail := s.phase.tail + 1))
    case ClearHeader =>
      Bwrite(s, L.start, WriteHead(s.cache[L.start].data, []))
      .(lh := [], phase := if s.phase.recovering then Quiet else Done)
    case CommitDone =>
      s.(committing := false, phase := Quiet)
    case Crash =>
      State(s.disk, map[], [], map[], 0, false, ReadHeader)
    case LoadHeader =>
      s.(lh := ReadHead(s.cache[L.start].data), phase := InstallTrans(0, true))
  }

  // ---------------------------------------------------------------- what the log promises

  /**
   The specification: `stable` survives a crash, `current` is what running code sees. Operations
   change `current`; a commit makes all of it stable at once and only while no operation is active.
   */
  datatype Spec = Spec(stable: Disk, current: Disk, active: set<nat>)

  predicate SpecEnabled(a: Spec, step: Step) {
    match step
    case Begin(op) => op !in a.active
    case Modify(op, b, _) => op in a.active && b < |a.current|
    case End(op) => op in a.active
    case WriteHeader => a.active == {}
    case _ => true
  }

  function SpecNext(a: Spec, step: Step): (r: Spec)
    requires SpecEnabled(a, step)
  {
    match step
    case Begin(op) => a.(active := a.active + {op})
    case Modify(_, b, data) => a.(current := a.current[b := data])
    case End(op) => a.(active := a.active - {op})
    case WriteHeader => a.(stable := a.current)
    case Crash => a.(current := a.stable, active := {})
    case _ => a
  }

  // ---------------------------------------------------------------- invariant

  /** Every home block has its stable contents, in the log if it is listed there, else in place. */
  ghost predicate Holds(L: Layout, d: Disk, hs: seq<Word>, stable: Disk)
    requires L.Ok() && |d| == |stable| == L.nblocks && GoodEntries(L, hs)
  {
    && (forall i :: 0 <= i < |hs| ==> d[L.start + 1 + i] == stable[hs[i]])
    && (forall b :: L.Home(b) && b !in hs ==> d[b] == stable[b])
  }

  /** What a crash needs: the disk, log included, still determines `stable`. */
  ghost predicate Durable(L: Layout, d: Disk, stable: Disk)
    requires L.Ok()
  {
    && |d| == |stable| == L.nblocks && HeaderOk(L, d)
    && forall k: nat {:trigger DiskOpen(k)} :: DiskOpen(k) ==> Holds(L, d, ReadHead(d[L.start]), stable)
  }

  type Cache = map<nat, CBuf>

  /** Clean buffers mirror the disk; changed ones are home blocks; held ones have a live holder. */
  ghost predicate CacheOk(L: Layout, d: Disk, c: Cache, ops: set<nat>)
    requires |d| == L.nblocks
  {
    forall b :: b in c ==>
      && b < L.nblocks
      && (!c[b].dirty && !c[b].touched ==> c[b].data == d[b])
      && (c[b].dirty || c[b].touched ==> L.Home(b))
      && (c[b].touched ==> c[b].holder.Op?)
      && (c[b].holder.Op? ==> c[b].holder.id in ops)
      && (c[b].holder.Op? ==> L.Home(b))
  }

  /** The group-commit protocol: see GroupCommit below for what it says to callers. */
  ghost predicate Protocol(L: Layout, s: State) {
    && s.outstanding == |s.ops|
    && GoodEntries(L, s.lh)
    && (forall op :: op in s.ops ==> s.ops[op] <= MAXOPBLOCKS)
    && |s.lh| <= LOGSIZE
    && (s.ops != map[] ==> s.phase.Quiet?)
    && (s.ops == map[] && s.phase.Quiet? ==> s.lh == [])
    && (s.committing <==> s.phase.WriteLog? || s.phase.Done? || (s.phase.InstallTrans? && !s.phase.recovering))
  }

  predicate IsDirty(c: Cache, b: int) {
    0 <= b && b in c && c[b].dirty
  }

  /** The dirty buffers are exactly the blocks in `es`. */
  ghost predicate Pinned(c: Cache, es: seq<Word>) {
    forall b: int :: IsDirty(c, b) <==> b in es
  }

  ghost predicate PhaseOk(L: Layout, s: State, a: Spec)
    requires L.Ok() && |s.disk| == |a.stable| == |a.current| == L.nblocks
    requires GoodEntries(L, s.lh) && HeaderOk(L, s.disk)
  {
    match s.phase
    case Quiet =>
      ReadHead(s.disk[L.start]) == [] && Pinned(s.cache, s.lh)
    case WriteLog(tail) =>
      && ReadHead(s.disk[L.start]) == [] && Pinned(s.cache, s.lh) && tail <= |s.lh|
      && forall i :: 0 <= i < tail ==> s.disk[L.start + 1 + i] == a.current[s.lh[i]]
    case InstallTrans(tail, recovering) =>
      && ReadHead(s.disk[L.start]) == s.lh && tail <= |s.lh|
      && Pinned(s.cache, if recovering then [] else s.lh[tail..])
      && (forall i :: 0 <= i < tail ==> s.disk[s.lh[i]] == a.stable[s.lh[i]])
      && (forall b :: L.Home(b) ==> a.current[b] == a.stable[b])
    case Done =>
      && ReadHead(s.disk[L.start]) == [] && s.lh == [] && Pinned(s.cache, [])
    case ReadHeader =>
      && s.lh == [] && Pinned(s.cache, [])
      && (forall b :: L.Home(b) ==> a.current[b] == a.stable[b])
  }

  /** The contents of a block as bread returns them: cached data if there are any, else the disk's. */
  function View(d: Disk, c: Cache, b: int): (r: Block)
    requires 0 <= b < |d|
  {
    if b in c then c[b].data else d[b]
  }

  /** Cached data or else disk is what the specification calls current. */
  ghost predicate Sees(L: Layout, d: Disk, c: Cache, current: Disk)
    requires |d| == |current| == L.nblocks
  {
    forall b :: L.Home(b) ==> View(d, c, b) == current[b]
  }

  ghost predicate Inv(L: Layout, s: State, a: Spec) {
    && L.Ok()
    && |s.disk| == |a.stable| == |a.current| == L.nblocks
    && a.active == s.ops.Keys
    && Durable(L, s.disk, a.stable)
    && Protocol(L, s)
    && CacheOk(L, s.disk, s.cache, s.ops.Keys)
    && PhaseOk(L, s, a)
    && (!Recovering(s.phase) ==> Sees(L, s.disk, s.cache, a.current))
  }

  // ---------------------------------------------------------------- every step keeps it

  lemma BeginStep(L: Layout, s: State, a: Spec, op: nat)
    requires Inv(L, s, a) && Enabled(L, s, Begin(op))
    ensures SpecEnabled(a, Begin(op)) && Inv(L, Next(L, s, Begin(op)), SpecNext(a, Begin(op)))
  {
    var t := Next(L, s, Begin(op));
    assert t.ops.Keys == s.ops.Keys + {op};
  }

  /** bread, brelse and eviction keep the cache honest and change no block anyone can see. */
  lemma BufferTraffic(L: Layout, s: State, step: Step)
    requires L.Ok() && |s.disk| == L.nblocks && CacheOk(L, s.disk, s.cache, s.ops.Keys)
    requires Enabled(L, s, step) && (step.Get? || step.Release? || step.Evict?)
    ensures var t := Next(L, s, step);
      && CacheOk(L, t.disk, t.cache, t.ops.Keys)
      && (forall b: int :: IsDirty(t.cache, b) <==> IsDirty(s.cache, b))
      && (forall b :: L.Home(b) ==> View(t.disk, t.cache, b) == View(s.disk, s.cache, b))
  {
  }

  lemma PhaseSame(L: Layout, s: State, a: Spec, t: State)
    requires L.Ok() && |s.disk| == |a.stable| == |a.current| == L.nblocks
    requires GoodEntries(L, s.lh) && HeaderOk(L, s.disk) && PhaseOk(L, s, a)
    requires t.disk == s.disk && t.lh == s.lh && t.phase == s.phase
    requires forall b: int :: IsDirty(t.cache, b) <==> IsDirty(s.cache, b)
    ensures PhaseOk(L, t, a)
  {
  }

  lemma BufferStep(L: Layout, s: State, a: Spec, step: Step)
    requires Inv(L, s, a) && Enabled(L, s, step)
    requires step.Get? || step.Release? || step.Evict?
    ensures Inv(L, Next(L, s, step), a)
  {
    BufferTraffic(L, s, step);
    PhaseSame(L, s, a, Next(L, s, step));
  }

  lemma ModifyStep(L: Layout, s: State, a: Spec, op: nat, b: nat, data: Block)
    requires Inv(L, s, a) && Enabled(L, s, Modify(op, b, data))
    ensures SpecEnabled(a, Modify(op, b, data))
    ensures Inv(L, Next(L, s, Modify(op, b, data)), SpecNext(a, Modify(op, b, data)))
  {
    var t := Next(L, s, Modify(op, b, data));
    assert Pinned(t.cache, t.lh) by { assert forall c: int :: IsDirty(t.cache, c) <==> IsDirty(s.cache, c); }
  }

  lemma LogWriteCache(L: Layout, s: State, op: nat, b: nat)
    requires L.Ok() && |s.disk| == L.nblocks && CacheOk(L, s.disk, s.cache, s.ops.Keys)
    requires Enabled(L, s, LogWrite(op, b)) && Pinned(s.cache, s.lh) && GoodEntries(L, s.lh)
    ensures var t := Next(L, s, LogWrite(op, b));
      && CacheOk(L, t.disk, t.cache, s.ops.Keys) && Pinned(t.cache, t.lh) && GoodEntries(L, t.lh)
      && (forall c :: L.Home(c) ==> View(t.disk, t.cache, c) == View(s.disk, s.cache, c))
  {
    var t := Next(L, s, LogWrite(op, b));
    assert forall c: int :: IsDirty(t.cache, c) <==> IsDirty(s.cache, c) || c == b;
  }

  lemma LogWriteStep(L: Layout, s: State, a: Spec, op: nat, b: nat)
    requires Inv(L, s, a) && Enabled(L, s, LogWrite(op, b))
    ensures Inv(L, Next(L, s, LogWrite(op, b)), a)
  {
    LogWriteCache(L, s, op, b);
    var t := Next(L, s, LogWrite(op, b));
    assert t.ops.Keys == s.ops.Keys;
    assert |t.ops| == |s.ops| by { assert |t.ops.Keys| == |s.ops.Keys|; }
  }

  lemma EndStep(L: Layout, s: State, a: Spec, op: nat)
    requires Inv(L, s, a) && Enabled(L, s, End(op))
    ensures SpecEnabled(a, End(op)) && Inv(L, Next(L, s, End(op)), SpecNext(a, End(op)))
  {
    var t := Next(L, s, End(op));
    assert t.ops.Keys == s.ops.Keys - {op};
    assert |t.ops| == |s.ops| - 1 by { assert |t.ops.Keys| == |s.ops.Keys| - 1; }
    assert CacheOk(L, t.disk, t.cache, t.ops.Keys);
  }

  /** A write by the log code: the buffer ends clean, everything else in the cache is as before. */
  lemma BwriteCache(L: Layout, s: State, b: nat, data: Block)
    requires L.Ok() && |s.disk| == L.nblocks && CacheOk(L, s.disk, s.cache, s.ops.Keys)
    requires HeldBy(s, b, Log) && b < L.nblocks
    ensures var t := Bwrite(s, b, data);
      && CacheOk(L, t.disk, t.cache, t.ops.Keys)
      && (forall c: int :: IsDirty(t.cache, c) <==> IsDirty(s.cache, c) && c != b)
      && (forall c :: L.Home(c) && c != b ==> View(t.disk, t.cache, c) == View(s.disk, s.cache, c))
  {
  }

  /** Log blocks are nobody's contents while the header says the log is empty. */
  lemma WriteLogKeeps(L: Layout, d: Disk, stable: Disk, b: nat, data: Block)
    requires L.Ok() && Durable(L, d, stable) && ReadHead(d[L.start]) == []
    requires L.start < b < L.start + L.size
    ensures Durable(L, d[b := data], stable) && d[b := data][L.start] == d[L.start]
  {
    assert DiskOpen(0);
    assert !L.Home(b);
  }

  lemma WriteLogPhase(L: Layout, s: State, a: Spec, t: State)
    requires L.Ok() && |s.disk| == |a.stable| == |a.current| == L.nblocks
    requires GoodEntries(L, s.lh) && HeaderOk(L, s.disk) && PhaseOk(L, s, a)
    requires s.phase.WriteLog? && s.phase.tail < |s.lh| && t.lh == s.lh
    requires t.phase == WriteLog(s.phase.tail + 1)
    requires t.disk == s.disk[L.start + s.phase.tail + 1 := a.current[s.lh[s.phase.tail]]]
    requires forall c: int :: IsDirty(t.cache, c) <==> IsDirty(s.cache, c) && c != L.start + s.phase.tail + 1
    ensures HeaderOk(L, t.disk) && PhaseOk(L, t, a)
  {
    assert L.start + s.phase.tail + 1 !in s.lh;
    assert Pinned(t.cache, t.lh);
    assert t.disk[L.start] == s.disk[L.start];
  }

  lemma WriteLogBlockStep(L: Layout, s: State, a: Spec)
    requires Inv(L, s, a) && Enabled(L, s, WriteLogBlock)
    ensures Inv(L, Next(L, s, WriteLogBlock), a)
  {
    var b := L.start + s.phase.tail + 1;
    var home := s.lh[s.phase.tail];
    var data := s.cache[home].data;
    assert !L.Home(b) && L.Home(home);
    assert data == a.current[home] by { assert View(s.disk, s.cache, home) == a.current[home]; }
    WriteLogKeeps(L, s.disk, a.stable, b, data);
    BwriteCache(L, s, b, data);
    WriteLogPhase(L, s, a, Next(L, s, WriteLogBlock));
  }

  /** The commit point: writing the header replaces the durable state by the current one. */
  lemma HeaderCommits(L: Layout, d: Disk, stable: Disk, current: Disk, lh: seq<Word>, h: Block)
    requires L.Ok() && Durable(L, d, stable) && |current| == L.nblocks && GoodEntries(L, lh)
    requires ReadHead(d[L.start]) == []
    requires forall i :: 0 <= i < |lh| ==> d[L.start + 1 + i] == current[lh[i]]
    requires forall b :: L.Home(b) && b !in lh ==> d[b] == current[b]
    ensures Durable(L, d[L.start := WriteHead(h, lh)], current)
    ensures ReadHead(d[L.start := WriteHead(h, lh)][L.start]) == lh
  {
    assert DiskOpen(0);
    HeadRoundTrip(h, lh);
  }

  lemma WriteHeaderStep(L: Layout, s: State, a: Spec)
    requires Inv(L, s, a) && Enabled(L, s, WriteHeader)
    ensures SpecEnabled(a, WriteHeader)
    ensures Inv(L, Next(L, s, WriteHeader), SpecNext(a, WriteHeader))
  {
    var t := Next(L, s, WriteHeader);
    var h := s.cache[L.start].data;
    forall b | L.Home(b) && b !in s.lh
      ensures s.disk[b] == a.current[b]
    {
      assert !IsDirty(s.cache, b) && View(s.disk, s.cache, b) == a.current[b];
    }
    HeaderCommits(L, s.disk, a.stable, a.current, s.lh, h);
    BwriteCache(L, s, L.start, WriteHead(h, s.lh));
    assert s.lh[0..] == s.lh;
    assert Pinned(t.cache, s.lh) by { assert L.start !in s.lh; }
  }

  /** Copying a log block home keeps the durable state: before and after, recovery yields the same. */
  lemma InstallKeeps(L: Layout, d: Disk, stable: Disk, i: nat)
    requires L.Ok() && Durable(L, d, stable) && i < |ReadHead(d[L.start])|
    ensures var b := ReadHead(d[L.start])[i];
      && Durable(L, d[b := d[L.start + 1 + i]], stable)
      && d[b := d[L.start + 1 + i]][L.start] == d[L.start]
      && d[L.start + 1 + i] == stable[b]
  {
    assert DiskOpen(0);
  }

  lemma InstallPhase(L: Layout, s: State, a: Spec, t: State)
    requires L.Ok() && |s.disk| == |a.stable| == |a.current| == L.nblocks
    requires GoodEntries(L, s.lh) && HeaderOk(L, s.disk) && PhaseOk(L, s, a)
    requires s.phase.InstallTrans? && s.phase.tail < |s.lh| && t.lh == s.lh
    requires t.phase == s.phase.(tail := s.phase.tail + 1)
    requires t.disk == s.disk[s.lh[s.phase.tail] := a.stable[s.lh[s.phase.tail]]]
    requires forall c: int :: IsDirty(t.cache, c) <==> IsDirty(s.cache, c) && c != s.lh[s.phase.tail]
    ensures HeaderOk(L, t.disk) && PhaseOk(L, t, a)
  {
    var tail := s.phase.tail;
    assert s.lh[tail..] == [s.lh[tail]] + s.lh[tail + 1..];
    assert t.disk[L.start] == s.disk[L.start];
    if s.phase.recovering {
      assert Pinned(t.cache, []);
    } else {
      assert Pinned(t.cache, s.lh[tail + 1..]);
    }
  }

  /** The log block whose turn it is, as cached, holds the stable contents of its home block. */
  lemma InstallSource(L: Layout, d: Disk, c: Cache, ops: set<nat>, stable: Disk, tail: nat)
    requires L.Ok() && Durable(L, d, stable) && CacheOk(L, d, c, ops)
    requires tail < |ReadHead(d[L.start])| && L.start + tail + 1 in c
    ensures c[L.start + tail + 1].data == d[L.start + 1 + tail] == stable[ReadHead(d[L.start])[tail]]
  {
    assert DiskOpen(0);
    assert !L.Home(L.start + tail + 1);
  }

  lemma InstallCache(L: Layout, s: State, b: nat, data: Block, current: Disk)
    requires L.Ok() && |s.disk| == |current| == L.nblocks && CacheOk(L, s.disk, s.cache, s.ops.Keys)
    requires HeldBy(s, b, Log) && b < L.nblocks && current[b] == data
    ensures var t := Bwrite(s, b, data);
      && CacheOk(L, t.disk, t.cache, t.ops.Keys)
      && (forall c: int :: IsDirty(t.cache, c) <==> IsDirty(s.cache, c) && c != b)
      && (Sees(L, s.disk, s.cache, current) ==> Sees(L, t.disk, t.cache, current))
  {
    BwriteCache(L, s, b, data);
  }

  lemma InstallDiskPart(L: Layout, s: State, a: Spec)
    requires Inv(L, s, a) && Enabled(L, s, InstallBlock)
    ensures var t := Next(L, s, InstallBlock); var b := s.lh[s.phase.tail];
      && Durable(L, t.disk, a.stable) && t.disk == s.disk[b := a.stable[b]]
      && a.current[b] == a.stable[b] == s.cache[L.start + s.phase.tail + 1].data
  {
    InstallSource(L, s.disk, s.cache, s.ops.Keys, a.stable, s.phase.tail);
    InstallKeeps(L, s.disk, a.stable, s.phase.tail);
  }

  lemma InstallCachePart(L: Layout, s: State, a: Spec)
    requires Inv(L, s, a) && Enabled(L, s, InstallBlock)
    ensures var t := Next(L, s, InstallBlock);
      && CacheOk(L, t.disk, t.cache, t.ops.Keys) && HeaderOk(L, t.disk) && PhaseOk(L, t, a)
      && (!Recovering(t.phase) ==> Sees(L, t.disk, t.cache, a.current))
  {
    var b := s.lh[s.phase.tail];
    InstallDiskPart(L, s, a);
    InstallCache(L, s, b, a.current[b], a.current);
    InstallPhase(L, s, a, Next(L, s, InstallBlock));
  }

  lemma InstallBlockStep(L: Layout, s: State, a: Spec)
    requires Inv(L, s, a) && Enabled(L, s, InstallBlock)
    ensures Inv(L, Next(L, s, InstallBlock), a)
  {
    InstallDiskPart(L, s, a);
    InstallCachePart(L, s, a);
  }

  /** Clearing the header once every block is home keeps the durable state. */
  lemma ClearKeeps(L: Layout, d: Disk, stable: Disk, h: Block)
    requires L.Ok() && Durable(L, d, stable)
    requires forall b :: L.Home(b) ==> d[b] == stable[b]
    ensures Durable(L, d[L.start := WriteHead(h, [])], stable)
    ensures ReadHead(d[L.start := WriteHead(h, [])][L.start]) == []
  {
    assert DiskOpen(0);
    HeadRoundTrip(h, []);
  }

  lemma ClearHeaderStep(L: Layout, s: State, a: Spec)
    requires Inv(L, s, a) && Enabled(L, s, ClearHeader)
    ensures Inv(L, Next(L, s, ClearHeader), a)
  {
    assert DiskOpen(0);
    var t := Next(L, s, ClearHeader);
    var h := s.cache[L.start].data;
    assert forall b :: L.Home(b) ==> s.disk[b] == a.stable[b];
    ClearKeeps(L, s.disk, a.stable, h);
    BwriteCache(L, s, L.start, WriteHead(h, []));
    assert s.lh[|s.lh|..] == [];
    assert Pinned(t.cache, []);
    assert Sees(L, t.disk, t.cache, a.current) by {
      forall b | L.Home(b) ensures View(t.disk, t.cache, b) == a.current[b] {
        assert !IsDirty(t.cache, b);
      }
    }
  }

  lemma CommitDoneStep(L: Layout, s: State, a: Spec)
    requires Inv(L, s, a) && Enabled(L, s, CommitDone)
    ensures Inv(L, Next(L, s, CommitDone), a)
  {
  }

  lemma CrashStep(L: Layout, s: State, a: Spec)
    requires Inv(L, s, a)
    ensures Inv(L, Next(L, s, Crash), SpecNext(a, Crash))
  {
    assert Pinned(map[], []);
  }

  lemma LoadHeaderStep(L: Layout, s: State, a: Spec)
    requires Inv(L, s, a) && Enabled(L, s, LoadHeader)
    ensures Inv(L, Next(L, s, LoadHeader), a)
  {
    assert s.cache[L.start].data == s.disk[L.start] by { assert !IsDirty(s.cache, L.start); }
  }

  // ---------------------------------------------------------------- whole runs

  /** `steps` can be taken one after the other from `s`. */
  predicate Run(L: Layout, s: State, steps: seq<Step>)
    requires L.Ok() && |s.disk| == L.nblocks
    decreases |steps|, 0
  {
    steps == [] ||
    (Run(L, s, Init(steps)) && Enabled(L, Exec(L, s, Init(steps)), Last(steps)))
  }

  function Exec(L: Layout, s: State, steps: seq<Step>): (r: State)
    requires L.Ok() && |s.disk| == L.nblocks && Run(L, s, steps)
    ensures |r.disk| == |s.disk|
    decreases |steps|, 1
  {
    if steps == [] then s else Next(L, Exec(L, s, Init(steps)), Last(steps))
  }

  predicate SpecRun(a: Spec, steps: seq<Step>)
    decreases |steps|, 0
  {
    steps == [] || (SpecRun(a, Init(steps)) && SpecEnabled(SpecExec(a, Init(steps)), Last(steps)))
  }

  function SpecExec(a: Spec, steps: seq<Step>): (r: Spec)
    requires SpecRun(a, steps)
    decreases |steps|, 1
  {
    if steps == [] then a else SpecNext(SpecExec(a, Init(steps)), Last(steps))
  }

  function Init(steps: seq<Step>): (r: seq<Step>)
    requires steps != []
    ensures |r| == |steps| - 1
  {
    steps[..|steps| - 1]
  }

  function Last(steps: seq<Step>): (r: Step)
    requires steps != []
  {
    steps[|steps| - 1]
  }

  lemma Extend(L: Layout, s: State, steps: seq<Step>, step: Step)
    requires L.Ok() && |s.disk| == L.nblocks && Run(L, s, steps) && Enabled(L, Exec(L, s, steps), step)
    ensures Run(L, s, steps + [step])
    ensures Exec(L, s, steps + [step]) == Next(L, Exec(L, s, steps), step)
  {
    var more := steps + [step];
    assert Init(more) == steps && Last(more) == step;
  }

  lemma {:induction false} RunPrefix(L: Layout, s: State, steps: seq<Step>, k: nat)
    requires L.Ok() && |s.disk| == L.nblocks && Run(L, s, steps) && k <= |steps|
    ensures Run(L, s, steps[..k])
    decreases |steps|
  {
    if k == |steps| {
      assert steps[..k] == steps;
    } else {
      RunPrefix(L, s, Init(steps), k);
      assert Init(steps)[..k] == steps[..k];
    }
  }

  lemma StepKeeps(L: Layout, s: State, a: Spec, step: Step)
    requires Inv(L, s, a) && Enabled(L, s, step)
    ensures SpecEnabled(a, step) && Inv(L, Next(L, s, step), SpecNext(a, step))
  {
    match step
    case Begin(op) => BeginStep(L, s, a, op);
    case Get(_, _) => BufferStep(L, s, a, step);
    case Release(_, _) => BufferStep(L, s, a, step);
    case Evict(_) => BufferStep(L, s, a, step);
    case Modify(op, b, data) => ModifyStep(L, s, a, op, b, data);
    case LogWrite(op, b) => LogWriteStep(L, s, a, op, b);
    case End(op) => EndStep(L, s, a, op);
    case WriteLogBlock => WriteLogBlockStep(L, s, a);
    case WriteHeader => WriteHeaderStep(L, s, a);
    case InstallBlock => InstallBlockStep(L, s, a);
    case ClearHeader => ClearHeaderStep(L, s, a);
    case CommitDone => CommitDoneStep(L, s, a);
    case Crash => CrashStep(L, s, a);
    case LoadHeader => LoadHeaderStep(L, s, a);
  }

  /** Every run of the machine is a run of the specification, step for step. */
  lemma {:induction false} RunRefines(L: Layout, s: State, a: Spec, steps: seq<Step>)
    requires Inv(L, s, a) && Run(L, s, steps)
    ensures SpecRun(a, steps) && Inv(L, Exec(L, s, steps), SpecExec(a, steps))
    decreases |steps|
  {
    if steps != [] {
      RunRefines(L, s, a, Init(steps));
      StepKeeps(L, Exec(L, s, Init(steps)), SpecExec(a, Init(steps)), Last(steps));
    }
  }

  /** The machine just after power-on with disk image `d`: recovery is about to read the header. */
  function Boot(d: Disk): (s: State) {
    State(d, map[], [], map[], 0, false, ReadHeader)
  }

  function BootSpec(L: Layout, d: Disk): (a: Spec)
    requires L.Ok() && |d| == L.nblocks && HeaderOk(L, d)
  {
    Spec(Recovered(L, d), Recovered(L, d), {})
  }

  /** A durable disk recovers to exactly the stable contents of the home blocks. */
  lemma RecoveredIsStable(L: Layout, d: Disk, stable: Disk)
    requires L.Ok() && Durable(L, d, stable)
    ensures forall b :: L.Home(b) ==> Recovered(L, d)[b] == stable[b]
  {
    assert DiskOpen(0);
    var hs := ReadHead(d[L.start]);
    InstallAt(L, d, hs, |hs|);
    assert hs[..|hs|] == hs;
  }

  lemma RecoveredDurable(L: Layout, d: Disk)
    requires L.Ok() && |d| == L.nblocks && HeaderOk(L, d)
    ensures Durable(L, d, Recovered(L, d))
  {
    assert DiskOpen(0);
    var hs := ReadHead(d[L.start]);
    InstallAt(L, d, hs, |hs|);
    assert hs[..|hs|] == hs;
  }

  lemma BootInv(L: Layout, d: Disk)
    requires L.Ok() && |d| == L.nblocks && HeaderOk(L, d)
    ensures Inv(L, Boot(d), BootSpec(L, d))
  {
    RecoveredDurable(L, d);
    assert Pinned(map[], []);
  }

  /** After `k` steps of the run no operation was active and the current contents were `d`. */
  ghost predicate QuiescentAt(a: Spec, steps: seq<Step>, k: nat, d: Disk)
  {
    && k <= |steps| && SpecRun(a, steps[..k])
    && SpecExec(a, steps[..k]).active == {} && SpecExec(a, steps[..k]).current == d
  }

  /** Step `k` is the last header write of the run; 0 if the run has none. */
  predicate LastCommit(steps: seq<Step>, k: nat) {
    && k <= |steps|
    && (if k < |steps| && steps[k].WriteHeader? then true else k == 0)
    && forall j :: k < j < |steps| ==> !steps[j].WriteHeader?
  }

  /** Stable contents are what current was, without an active operation, at the last header write. */
  lemma {:induction false} StableIsCommitted(a: Spec, steps: seq<Step>)
    requires SpecRun(a, steps) && a.active == {} && a.current == a.stable
    ensures exists k: nat :: LastCommit(steps, k) && QuiescentAt(a, steps, k, SpecExec(a, steps).stable)
    decreases |steps|
  {
    if steps == [] {
      assert LastCommit(steps, 0) && QuiescentAt(a, steps, 0, a.stable);
    } else {
      var pre := Init(steps);
      StableIsCommitted(a, pre);
      if Last(steps).WriteHeader? {
        assert steps[..|pre|] == pre;
        assert LastCommit(steps, |pre|) && QuiescentAt(a, steps, |pre|, SpecExec(a, steps).stable);
      } else {
        var k: nat :| LastCommit(pre, k) && QuiescentAt(a, pre, k, SpecExec(a, pre).stable);
        assert steps[..k] == pre[..k];
        assert forall j :: 0 <= j < |pre| ==> steps[j] == pre[j];
        assert LastCommit(steps, k) && QuiescentAt(a, steps, k, SpecExec(a, steps).stable);
      }
    }
  }

  /**
   Crash atomicity. Take any run from power-on, with any number of operations, commits, crashes and
   restarted recoveries, and stop it anywhere. Recovering the disk image found there gives home
   blocks equal to the contents at the last header write, when no operation was in progress: every
   operation that had ended by then is there with all of its writes, every later one with none.
   */
  lemma CrashAtomicity(L: Layout, d: Disk, steps: seq<Step>)
    requires L.Ok() && |d| == L.nblocks && HeaderOk(L, d) && Run(L, Boot(d), steps)
    ensures var s := Exec(L, Boot(d), steps);
      && HeaderOk(L, s.disk)
      && exists k: nat, image: Disk :: LastCommit(steps, k) && QuiescentAt(BootSpec(L, d), steps, k, image)
           && |image| == L.nblocks && forall b :: L.Home(b) ==> Recovered(L, s.disk)[b] == image[b]
  {
    var a := BootSpec(L, d);
    BootInv(L, d);
    RunRefines(L, Boot(d), a, steps);
    StableIsCommitted(a, steps);
    var k: nat :| LastCommit(steps, k) && QuiescentAt(a, steps, k, SpecExec(a, steps).stable);
    RecoveredIsStable(L, Exec(L, Boot(d), steps).disk, SpecExec(a, steps).stable);
  }

  // ---------------------------------------------------------------- one operation

  /** Operation `op` is open from step `i`, where it begins, up to step `j`. */
  predicate OpenFrom(steps: seq<Step>, i: nat, j: nat, op: nat) {
    && i < j <= |steps| && steps[i] == Begin(op)
    && forall m :: i < m < j ==> steps[m] != End(op) && !steps[m].Crash?
  }

  lemma {:induction false} ActiveIn(a: Spec, steps: seq<Step>, i: nat, k: nat, op: nat)
    requires OpenFrom(steps, i, k, op) && SpecRun(a, steps[..k])
    ensures op in SpecExec(a, steps[..k]).active
    decreases k
  {
    var now := steps[..k];
    assert Init(now) == steps[..k - 1] && Last(now) == steps[k - 1];
    if i < k - 1 { ActiveIn(a, steps, i, k - 1, op); }
  }

  /** The moment that survives a crash is before an operation begins or after it ends: all of it or nothing. */
  lemma OpAtomic(a: Spec, steps: seq<Step>, i: nat, j: nat, op: nat, k: nat, image: Disk)
    requires OpenFrom(steps, i, j, op) && QuiescentAt(a, steps, k, image)
    ensures k <= i || k > j
  {
    if i < k <= j { ActiveIn(a, steps, i, k, op); }
  }

  /** With no operation open and the log quiet all that is current is stable. */
  lemma QuietIsStable(L: Layout, s: State, a: Spec)
    requires Inv(L, s, a) && s.ops == map[] && s.phase.Quiet?
    ensures forall b :: L.Home(b) ==> a.stable[b] == a.current[b] == s.disk[b]
  {
    assert DiskOpen(0);
    forall b | L.Home(b)
      ensures a.stable[b] == a.current[b] == s.disk[b]
    {
      assert !IsDirty(s.cache, b) && View(s.disk, s.cache, b) == a.current[b];
    }
  }

  /** From step `i` on `op` is the only operation to begin, and there is no crash. */
  predicate OnlyOp(steps: seq<Step>, i: nat, op: nat) {
    i < |steps| && steps[i] == Begin(op) && forall m :: i < m < |steps| ==> !steps[m].Begin? && !steps[m].Crash?
  }

  /** Stable contents change only in a header write. */
  lemma {:induction false} StableStays(a: Spec, steps: seq<Step>, i: nat)
    requires SpecRun(a, steps) && i <= |steps| && SpecRun(a, steps[..i]) && forall m :: i <= m < |steps| ==> !steps[m].WriteHeader?
    ensures SpecExec(a, steps).stable == SpecExec(a, steps[..i]).stable
    decreases |steps|
  {
    if i == |steps| {
      assert steps[..i] == steps;
    } else {
      assert Init(steps)[..i] == steps[..i];
      StableStays(a, Init(steps), i);
    }
  }

  /** Once the only operation has ended nothing current changes any more. */
  lemma {:induction false} CurrentStays(a: Spec, steps: seq<Step>, k: nat)
    requires SpecRun(a, steps) && k <= |steps| && SpecRun(a, steps[..k]) && SpecExec(a, steps[..k]).active == {}
    requires forall m :: k <= m < |steps| ==> !steps[m].Begin? && !steps[m].Crash?
    ensures SpecExec(a, steps).current == SpecExec(a, steps[..k]).current && SpecExec(a, steps).active == {}
    decreases |steps|
  {
    if k == |steps| {
      assert steps[..k] == steps;
    } else {
      assert Init(steps)[..k] == steps[..k];
      CurrentStays(a, Init(steps), k);
    }
  }

  /** begin_op lets an operation in only when the log is quiet. */
  lemma BeginQuiet(L: Layout, d: Disk, steps: seq<Step>, i: nat, op: nat)
    requires L.Ok() && |d| == L.nblocks && HeaderOk(L, d) && Run(L, Boot(d), steps) && i < |steps| && steps[i] == Begin(op)
    requires Run(L, Boot(d), steps[..i])
    ensures Exec(L, Boot(d), steps[..i]).phase.Quiet?
  {
    RunPrefix(L, Boot(d), steps, i + 1);
    var now := steps[..i + 1];
    assert Init(now) == steps[..i] && Last(now) == Begin(op);
    BootInv(L, d);
    RunRefines(L, Boot(d), BootSpec(L, d), steps[..i]);
  }

  /**
   A crash anywhere in or after an operation that runs alone: recovery yields the contents from before
   it began, or the operation has ended and recovery yields all it has made.
   */
  lemma OldOrNew(L: Layout, d: Disk, steps: seq<Step>, i: nat, op: nat)
    requires L.Ok() && |d| == L.nblocks && HeaderOk(L, d) && Run(L, Boot(d), steps) && OnlyOp(steps, i, op)
    requires Run(L, Boot(d), steps[..i]) && Exec(L, Boot(d), steps[..i]).ops == map[]
    ensures var a := BootSpec(L, d);
      && HeaderOk(L, Exec(L, Boot(d), steps).disk) && SpecRun(a, steps) && SpecRun(a, steps[..i])
      && var old', new', got := SpecExec(a, steps[..i]).current, SpecExec(a, steps).current, Recovered(L, Exec(L, Boot(d), steps).disk);
         && |old'| == |new'| == L.nblocks
         && ((forall b :: L.Home(b) ==> got[b] == old'[b])
             || (op !in SpecExec(a, steps).active && forall b :: L.Home(b) ==> got[b] == new'[b]))
  {
    var a := BootSpec(L, d);
    BootInv(L, d);
    RunRefines(L, Boot(d), a, steps);
    RunRefines(L, Boot(d), a, steps[..i]);
    RecoveredIsStable(L, Exec(L, Boot(d), steps).disk, SpecExec(a, steps).stable);
    StableIsCommitted(a, steps);
    var k: nat :| LastCommit(steps, k) && QuiescentAt(a, steps, k, SpecExec(a, steps).stable);
    if k < |steps| && steps[k].WriteHeader? && k > i {
      CurrentStays(a, steps, k);
    } else {
      StableStays(a, steps, i);
      BeginQuiet(L, d, steps, i, op);
      QuietIsStable(L, Exec(L, Boot(d), steps[..i]), SpecExec(a, steps[..i]));
    }
  }

  /** Outside recovery every reader sees the current contents: eviction and commit are invisible. */
  lemma ReadsAreCurrent(L: Layout, d: Disk, steps: seq<Step>, b: nat)
    requires L.Ok() && |d| == L.nblocks && HeaderOk(L, d) && Run(L, Boot(d), steps)
    requires L.Home(b) && !Recovering(Exec(L, Boot(d), steps).phase)
    ensures SpecRun(BootSpec(L, d), steps)
    ensures var s := Exec(L, Boot(d), steps); var a := SpecExec(BootSpec(L, d), steps);
      |a.current| == L.nblocks && View(s.disk, s.cache, b) == a.current[b]
  {
    BootInv(L, d);
    RunRefines(L, Boot(d), BootSpec(L, d), steps);
  }

  /**
   The group-commit protocol in every reachable state: a commit runs alone, the log holds distinct
   blocks that are all pinned, and end_op cannot panic.
   */
  lemma GroupCommit(L: Layout, d: Disk, steps: seq<Step>)
    requires L.Ok() && |d| == L.nblocks && HeaderOk(L, d) && Run(L, Boot(d), steps)
    ensures var s := Exec(L, Boot(d), steps);
      && (s.committing ==> s.outstanding == 0 && s.ops == map[])
      && Distinct(s.lh) && |s.lh| <= LOGSIZE && s.outstanding == |s.ops|
      && (s.phase.Quiet? ==> forall i :: 0 <= i < |s.lh| ==> IsDirty(s.cache, s.lh[i]))
      && (s.ops != map[] ==> !EndPanics(s))
  {
    BootInv(L, d);
    RunRefines(L, Boot(d), BootSpec(L, d), steps);
    var s := Exec(L, Boot(d), steps);
    assert forall i :: 0 <= i < |s.lh| ==> s.lh[i] in s.lh;
  }

  // ---------------------------------------------------------------- reservations

  /** Blocks the active operations may still add to the log within their reservations. */
  ghost function Unspent(ops: map<nat, int>): (n: int)
  {
    if ops == map[] then 0
    else
      var k := Some(ops);
      ops[k] + Unspent(ops - {k})
  }

  ghost function Some(ops: map<nat, int>): (k: nat)
    requires ops != map[]
    ensures k in ops
  {
    var k :| k in ops; k
  }

  lemma {:induction false} UnspentRemove(ops: map<nat, int>, k: nat)
    requires k in ops
    ensures Unspent(ops) == ops[k] + Unspent(ops - {k})
    decreases |ops|
  {
    var j := Some(ops);
    if j != k {
      UnspentRemove(ops - {j}, k);
      assert ops - {j} - {k} == ops - {k} - {j};
      UnspentRemove(ops - {k}, j);
    }
  }

  lemma UnspentUpdate(ops: map<nat, int>, k: nat, v: int)
    ensures Unspent(ops[k := v]) == v + Unspent(ops - {k})
  {
    UnspentRemove(ops[k := v], k);
    assert ops[k := v] - {k} == ops - {k};
  }

  lemma {:induction false} UnspentBound(ops: map<nat, int>)
    requires forall k :: k in ops ==> ops[k] <= MAXOPBLOCKS
    ensures Unspent(ops) <= |ops| * MAXOPBLOCKS
    decreases |ops|
  {
    if ops != map[] {
      var k := Some(ops);
      UnspentBound(ops - {k});
      assert |ops - {k}| == |ops| - 1 by { assert (ops - {k}).Keys == ops.Keys - {k}; }
    }
  }

  /** No operation has added more blocks than it reserved. */
  predicate Within(ops: map<nat, int>) {
    forall op :: op in ops ==> ops[op] >= 0
  }

  /** No operation adds more blocks than it reserved at any moment of the run. */
  predicate Frugal(L: Layout, s: State, steps: seq<Step>)
    requires L.Ok() && |s.disk| == L.nblocks && Run(L, s, steps)
    decreases |steps|
  {
    Within(Exec(L, s, steps).ops) && (steps == [] || Frugal(L, s, Init(steps)))
  }

  lemma StepReserved(L: Layout, s: State, a: Spec, step: Step)
    requires Inv(L, s, a) && Enabled(L, s, step) && Within(s.ops) && |s.lh| + Unspent(s.ops) <= LOGSIZE
    ensures var t := Next(L, s, step); |t.lh| + Unspent(t.ops) <= LOGSIZE
  {
    match step {
      case Begin(op) => BeginReserved(L, s, op);
      case LogWrite(op, b) => LogWriteReserved(L, s, op, b);
      case End(op) => UnspentRemove(s.ops, op);
      case LoadHeader => assert s.ops == map[];
      case _ =>
    }
  }

  lemma BeginReserved(L: Layout, s: State, op: nat)
    requires L.Ok() && |s.disk| == L.nblocks && Enabled(L, s, Begin(op))
    requires s.outstanding == |s.ops| && forall k :: k in s.ops ==> s.ops[k] <= MAXOPBLOCKS
    ensures var t := Next(L, s, Begin(op)); |t.lh| + Unspent(t.ops) <= LOGSIZE
  {
    UnspentUpdate(s.ops, op, MAXOPBLOCKS);
    assert s.ops - {op} == s.ops;
    UnspentBound(s.ops);
  }

  lemma LogWriteReserved(L: Layout, s: State, op: nat, b: nat)
    requires L.Ok() && |s.disk| == L.nblocks && Enabled(L, s, LogWrite(op, b)) && |s.lh| + Unspent(s.ops) <= LOGSIZE
    ensures var t := Next(L, s, LogWrite(op, b)); |t.lh| + Unspent(t.ops) <= LOGSIZE
  {
    UnspentUpdate(s.ops, op, s.ops[op] - if b in s.lh then 0 else 1);
    UnspentRemove(s.ops, op);
  }

  /**
   If no operation overruns its reservation the log has room for all that is still reserved, and
   log_write can panic only through the test against log.size.
   */
  lemma {:induction false} ReservationsHold(L: Layout, d: Disk, steps: seq<Step>)
    requires L.Ok() && |d| == L.nblocks && HeaderOk(L, d) && Run(L, Boot(d), steps) && Frugal(L, Boot(d), steps)
    ensures var s := Exec(L, Boot(d), steps);
      && |s.lh| + Unspent(s.ops) <= LOGSIZE
      && (forall op :: op in s.ops && s.ops[op] > 0 ==> (LogWritePanics(L, s) <==> |s.lh| >= L.size - 1))
    decreases |steps|
  {
    var s := Exec(L, Boot(d), steps);
    BootInv(L, d);
    RunRefines(L, Boot(d), BootSpec(L, d), steps);
    if steps != [] {
      var pre := Init(steps);
      ReservationsHold(L, d, pre);
      RunRefines(L, Boot(d), BootSpec(L, d), pre);
      StepReserved(L, Exec(L, Boot(d), pre), SpecExec(BootSpec(L, d), pre), Last(steps));
    }
    forall op | op in s.ops && s.ops[op] > 0
      ensures LogWritePanics(L, s) <==> |s.lh| >= L.size - 1
    {
      UnspentRemove(s.ops, op);
      UnspentPositive(s.ops - {op});
    }
  }

  lemma {:induction false} UnspentPositive(ops: map<nat, int>)
    requires Within(ops)
    ensures Unspent(ops) >= 0
    decreases |ops|
  {
    if ops != map[] { UnspentPositive(ops - {Some(ops)}); }
  }
}
