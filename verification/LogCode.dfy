/**
 log.c over the buffer cache of LruCache. The ghost field `run` records, for each object, the
 machine steps its code has taken since power-on; Valid() says that they lead from there to the
 object's present state. All that LogMachine proves about runs, crash atomicity first, thus holds
 between any two block writes of this code.
 */
module LogCode {
  import opened LogFormat
  import opened LogMachine
  import opened LruCache
  import opened Sealing

  /** A block of `s` for every buffer needs as many blocks as buffers. */
  lemma {:induction false} Pigeonhole(bufs: seq<Buf>, s: set<nat>, k: nat)
    requires k <= |bufs|
    requires forall i :: 0 <= i < k ==> bufs[i].blockno in s
    requires forall i, j :: 0 <= i < j < k ==> bufs[i].blockno != bufs[j].blockno
    ensures k <= |s|
  {
    if k > 0 {
      Pigeonhole(bufs, s - {bufs[k - 1].blockno}, k - 1);
    }
  }

  lemma {:induction false} SetOfSeq(es: seq<Word>) returns (s: set<nat>)
    ensures |s| <= |es| && forall e :: e in es ==> e in s
  {
    if es == [] {
      s := {};
    } else {
      s := SetOfSeq(es[1..]);
      s := s + {es[0]};
      assert es == [es[0]] + es[1..];
    }
  }

  /** With fewer than NBUF - 1 blocks logged, or that many and nothing held, some buffer can be recycled. */
  lemma SomeRecyclable(bufs: seq<Buf>, d: Disk, c: Cache, slot: map<nat, nat>, es: seq<Word>, held: set<nat>)
    requires Coupled(bufs, d, c, slot) && Pinned(c, es) && |es| + |held| < NBUF
    requires forall b :: b in c && c[b].holder != Free ==> b in held
    ensures exists i :: 0 <= i < NBUF && bufs[i].Recyclable()
  {
    if forall i :: 0 <= i < NBUF ==> !bufs[i].Recyclable() {
      var s := SetOfSeq(es);
      forall i | 0 <= i < NBUF
        ensures bufs[i].blockno in s + held
      {
        var b := bufs[i].blockno;
        assert b in slot && slot[b] == i;
        assert bufs[i].dirty ==> IsDirty(c, b);
      }
      forall i, j | 0 <= i < j < NBUF
        ensures bufs[i].blockno != bufs[j].blockno
      {
        assert slot[bufs[i].blockno] == i && slot[bufs[j].blockno] == j;
      }
      assert |s + held| <= |s| + |held|;
      Pigeonhole(bufs, s + held, NBUF);
    }
  }

  /** What bread does to the cache is the machine's Evict, if a buffer was recycled, and Get. */
  lemma TakeSteps(L: Layout, s: State, ev: int, no: nat, h: Holder)
    requires L.Ok() && |s.disk| == L.nblocks && no < L.nblocks && ev != no
    requires h != Free && (h.Op? ==> h.id in s.ops && L.Home(no))
    requires ev >= 0 ==> ev in s.cache && s.cache[ev].holder == Free && !s.cache[ev].dirty
    requires no in s.cache ==> s.cache[no].holder == Free
    ensures ev >= 0 ==> Enabled(L, s, Evict(ev))
    ensures var s1 := if ev >= 0 then Next(L, s, Evict(ev)) else s;
      Enabled(L, s1, Get(h, no)) && Next(L, s1, Get(h, no)) == s.(cache := Taken(s.cache, ev, no, s.disk[no], h))
  {
  }

  /** `c` is `c0` after the log code took block `no`; some clean free blocks may have gone. */
  predicate Grabbed(c0: Cache, c: Cache, no: nat, data: Block) {
    && no in c && c[no] == (if no in c0 then c0[no] else CBuf(data, false, false, Free)).(holder := Log)
    && (forall b :: b in c && b != no ==> b in c0 && c[b] == c0[b])
    && (forall b :: b in c0 && (c0[b].dirty || c0[b].holder != Free) ==> b in c)
  }

  lemma GrabbedPinned(c0: Cache, c: Cache, no: nat, data: Block, es: seq<Word>)
    requires Grabbed(c0, c, no, data) && Pinned(c0, es)
    ensures Pinned(c, es)
  {
    forall b: int
      ensures IsDirty(c, b) <==> IsDirty(c0, b)
    {
    }
  }

  lemma TakenGrabbed(c: Cache, ev: int, no: nat, data: Block)
    requires ev != no && (ev >= 0 ==> ev in c && c[ev].holder == Free && !c[ev].dirty)
    ensures Grabbed(c, Taken(c, ev, no, data, Log), no, data)
  {
  }

  /** Both blocks of a pair are held by the log code, clean of unlogged changes, and all others are free. */
  predicate PairHeld(c: Cache, x: nat, y: nat) {
    && x in c && y in c && c[x].holder == Log && c[y].holder == Log && !c[x].touched && !c[y].touched
    && forall b :: b in c && b != x && b != y ==> c[b].holder == Free && !c[b].touched
  }

  /** Nothing is held, so nothing is half changed. */
  predicate Settled(c: Cache) {
    forall b :: b in c ==> c[b].holder == Free && !c[b].touched
  }

  lemma GrabbedPair(c0: Cache, c1: Cache, c: Cache, x: nat, y: nat, dx: Block, dy: Block)
    requires Settled(c0) && x != y && Grabbed(c0, c1, x, dx) && Grabbed(c1, c, y, dy)
    ensures PairHeld(c, x, y)
  {
  }

  /** When it is the turn of entry `tail`, its home block is pinned and the pair of blocks is in range. */
  lemma WriteLogReady(L: Layout, s: State, a: Spec)
    requires Inv(L, s, a) && s.phase.WriteLog? && s.phase.tail < |s.lh|
    ensures var x, y := L.start + s.phase.tail + 1, s.lh[s.phase.tail];
      x < L.nblocks && y < L.nblocks && x != y && IsDirty(s.cache, y)
    ensures Pinned(s.cache, s.lh) && |s.lh| < L.size
  {
    assert s.lh[s.phase.tail] in s.lh;
  }

  /** What install_trans finds in entry `tail`: outside recovery, a home block that is still pinned. */
  lemma InstallReady(L: Layout, s: State, a: Spec)
    requires Inv(L, s, a) && s.phase.InstallTrans? && s.phase.tail < |s.lh|
    ensures var x, y := L.start + s.phase.tail + 1, s.lh[s.phase.tail];
      x < L.nblocks && y < L.nblocks && x != y && (s.phase.recovering || IsDirty(s.cache, y))
    ensures Pinned(s.cache, if s.phase.recovering then [] else s.lh[s.phase.tail..]) && |s.lh| < L.size
  {
    assert s.lh[s.phase.tail] in s.lh[s.phase.tail..];
  }

  lemma InstallEffect(L: Layout, s: State)
    requires L.Ok() && |s.disk| == L.nblocks && s.phase.InstallTrans? && s.phase.tail < |s.lh|
    requires s.lh[s.phase.tail] < L.nblocks
    requires PairHeld(s.cache, L.start + s.phase.tail + 1, s.lh[s.phase.tail])
    ensures Enabled(L, s, InstallBlock)
    ensures Next(L, s, InstallBlock) ==
      Wrote(s, s.lh[s.phase.tail], s.cache[L.start + s.phase.tail + 1].data, InstallTrans(s.phase.tail + 1, s.phase.recovering))
  {
  }

  lemma GrabbedOne(c0: Cache, c: Cache, x: nat, data: Block)
    requires Settled(c0) && Grabbed(c0, c, x, data)
    ensures PairHeld(c, x, x)
  {
  }

  /** The header write that commits and the header write that clears, as machine steps. */
  lemma HeaderEffect(L: Layout, s: State)
    requires L.Ok() && |s.disk| == L.nblocks && PairHeld(s.cache, L.start, L.start) && |s.lh| <= LOGSIZE
    ensures s.phase == WriteLog(|s.lh|) ==>
      && Enabled(L, s, WriteHeader)
      && Next(L, s, WriteHeader) == Wrote(s, L.start, WriteHead(s.cache[L.start].data, s.lh), InstallTrans(0, false))
    ensures s.phase.InstallTrans? && s.phase.tail == |s.lh| ==>
      && Enabled(L, s, ClearHeader)
      && Next(L, s, ClearHeader) ==
         Wrote(s, L.start, WriteHead(s.cache[L.start].data, []), if s.phase.recovering then Quiet else Done).(lh := [])
  {
  }

  /** Before either header write some es are pinned, and the cache has room. */
  lemma HeaderReady(L: Layout, s: State, a: Spec) returns (es: seq<Word>)
    requires Inv(L, s, a)
    ensures Pinned(s.cache, es) && |es| < L.size && |s.lh| <= LOGSIZE
  {
    es := match s.phase
      case Quiet => s.lh
      case WriteLog(_) => s.lh
      case InstallTrans(tail, recovering) => if recovering then [] else s.lh[tail..]
      case Done => []
      case ReadHeader => [];
  }

  lemma LoadEffect(L: Layout, s: State, a: Spec)
    requires Inv(L, s, a) && s.phase.ReadHeader? && PairHeld(s.cache, L.start, L.start)
    ensures s.cache[L.start].data[0] <= LOGSIZE && Enabled(L, s, LoadHeader)
    ensures Next(L, s, LoadHeader) == s.(lh := ReadHead(s.cache[L.start].data), phase := InstallTrans(0, true))
  {
    assert !IsDirty(s.cache, L.start);
  }

  lemma LogWriteEffect(L: Layout, s: State, op: nat, no: nat)
    requires L.Ok() && |s.disk| == L.nblocks && op in s.ops && HeldBy(s, no, Op(op)) && no < L.nblocks
    requires !LogWritePanics(L, s)
    ensures Enabled(L, s, LogWrite(op, no))
    ensures Next(L, s, LogWrite(op, no)) == s.(
      lh := if no in s.lh then s.lh else s.lh + [no],
      cache := s.cache[no := s.cache[no].(dirty := true, touched := false)],
      ops := s.ops[op := s.ops[op] - if no in s.lh then 0 else 1])
  {
  }

  lemma ReleaseOne(c: Cache, x: nat)
    requires PairHeld(c, x, x)
    ensures Settled(c[x := c[x].(holder := Free)])
  {
  }

  /** After a commit or a recovery everything current is stable. */
  lemma CleanIsStable(L: Layout, s: State, a: Spec)
    requires Inv(L, s, a) && s.ops == map[] && s.lh == [] && (s.phase.Done? || s.phase.Quiet?)
    ensures forall b :: L.Home(b) ==> a.stable[b] == a.current[b] == s.disk[b]
  {
    assert DiskOpen(0);
    forall b | L.Home(b)
      ensures a.stable[b] == a.current[b] == s.disk[b]
    {
      assert !IsDirty(s.cache, b) && View(s.disk, s.cache, b) == a.current[b];
    }
  }

  lemma ReleasePair(c: Cache, x: nat, y: nat)
    requires PairHeld(c, x, y)
    ensures Settled(c[y := c[y].(holder := Free)][x := c[x].(holder := Free)])
    ensures Settled(c[x := c[x].(holder := Free)][y := c[y].(holder := Free)])
  {
  }

  /** The machine step that writes `data` to block `no` and moves to phase `p`. */
  function Wrote(s: State, no: nat, data: Block, p: Phase): (t: State)
    requires no < |s.disk| && no in s.cache
  {
    Bwrite(s, no, data).(phase := p)
  }

  lemma WrotePair(s: State, x: nat, y: nat, no: nat, data: Block, p: Phase)
    requires PairHeld(s.cache, x, y) && (no == x || no == y) && no < |s.disk|
    ensures PairHeld(Wrote(s, no, data, p).cache, x, y)
  {
  }

  lemma WriteLogEffect(L: Layout, s: State)
    requires L.Ok() && |s.disk| == L.nblocks && s.phase.WriteLog? && s.phase.tail < |s.lh|
    requires L.start + s.phase.tail + 1 < L.nblocks
    requires PairHeld(s.cache, L.start + s.phase.tail + 1, s.lh[s.phase.tail])
    ensures Enabled(L, s, WriteLogBlock)
    ensures Next(L, s, WriteLogBlock) ==
      Wrote(s, L.start + s.phase.tail + 1, s.cache[s.lh[s.phase.tail]].data, WriteLog(s.phase.tail + 1))
  {
  }

  /** The steps lead from power-on to `s`, and the specification to `spec`. */
  ghost predicate Leads(L: Layout, power: Disk, run: seq<Step>, s: State, spec: Spec)
    requires L.Ok() && |power| == L.nblocks
  {
    && HeaderOk(L, power) && Run(L, Boot(power), run) && Exec(L, Boot(power), run) == s
    && SpecRun(BootSpec(L, power), run) && SpecExec(BootSpec(L, power), run) == spec
  }

  lemma LeadsOn(L: Layout, power: Disk, run: seq<Step>, s: State, spec: Spec, step: Step)
    requires L.Ok() && |power| == L.nblocks && Leads(L, power, run, s, spec)
    requires |s.disk| == L.nblocks && Enabled(L, s, step) && SpecEnabled(spec, step)
    ensures Leads(L, power, run + [step], Next(L, s, step), SpecNext(spec, step))
  {
    Extend(L, Boot(power), run, step);
    var more := run + [step];
    assert Init(more) == run && Last(more) == step;
  }

  class WriteAheadLog {
    const L: Layout
    const bc: BufferCache
    const block: array<Word>
    var n: nat
    var outstanding: int
    var committing: bool
    ghost var ops: map<nat, int>
    ghost var phase: Phase
    ghost var power: Disk
    ghost var run: seq<Step>
    ghost var spec: Spec

    /** The machine state this object stands for. */
    ghost function Abs(): (s: State)
      requires block.Length == LOGSIZE && n <= LOGSIZE
      reads this, block, bc
    {
      State(bc.disk, bc.cache, block[..n], ops, outstanding, committing, phase)
    }

    ghost predicate Shape()
      reads this, block, bc, bc.buf, bc.next, bc.prev
    {
      && L.Ok() && L.size <= NBUF && |power| == L.nblocks
      && block.Length == LOGSIZE && n <= LOGSIZE
      && block as object != bc.next && block as object != bc.prev && block as object != bc.buf
      && bc.Valid() && |bc.disk| == L.nblocks
    }

    /** The recorded steps lead from power-on to `s`, and the specification to `spec`. */
    ghost predicate Traced(s: State)
      requires L.Ok() && |power| == L.nblocks
      reads this
    {
      forall k: nat {:trigger TraceOpen(k)} :: TraceOpen(k) ==> Leads(L, power, run, s, spec)
    }

    ghost predicate Valid()
      reads this, block, bc, bc.buf, bc.next, bc.prev
    {
      Shape() && Traced(Abs())
    }

    constructor (layout: Layout, d: Disk)
      requires layout.Ok() && layout.size <= NBUF && |d| == layout.nblocks && HeaderOk(layout, d)
      ensures Valid() && L == layout && bc.disk == power == d && run == [] && phase.ReadHeader?
      ensures fresh(bc) && fresh(block) && fresh(bc.buf) && fresh(bc.next) && fresh(bc.prev)
    {
      L := layout;
      bc := new BufferCache(d);
      block := new Word[LOGSIZE](_ => 0);
      n, outstanding, committing := 0, 0, false;
      ops, phase, power, run, spec := map[], ReadHeader, d, [], BootSpec(layout, d);
    }

    lemma Known(s: State)
      requires L.Ok() && |power| == L.nblocks && Traced(s)
      ensures Inv(L, s, spec)
    {
      assert TraceOpen(0);
      BootInv(L, power);
      RunRefines(L, Boot(power), BootSpec(L, power), run);
    }

    ghost method Did(s: State, step: Step)
      requires L.Ok() && |power| == L.nblocks && Traced(s)
      requires |s.disk| == L.nblocks && Enabled(L, s, step)
      modifies this`run, this`spec
      ensures run == old(run) + [step] && Traced(Next(L, s, step))
      ensures SpecEnabled(old(spec), step) && spec == SpecNext(old(spec), step)
    {
      assert Leads(L, power, run, s, spec) by { assert TraceOpen(0); }
      Known(s);
      StepKeeps(L, s, spec, step);
      LeadsOn(L, power, run, s, spec, step);
      run := run + [step];
      spec := SpecNext(spec, step);
    }

    ghost method Took(s: State, ev: int, no: nat, h: Holder)
      requires L.Ok() && |power| == L.nblocks && Traced(s)
      requires |s.disk| == L.nblocks && no < L.nblocks && ev != no
      requires h != Free && (h.Op? ==> h.id in s.ops && L.Home(no))
      requires ev >= 0 ==> ev in s.cache && s.cache[ev].holder == Free && !s.cache[ev].dirty
      requires no in s.cache ==> s.cache[no].holder == Free
      modifies this`run, this`spec
      ensures old(run) < run && spec == old(spec)
      ensures Traced(s.(cache := Taken(s.cache, ev, no, s.disk[no], h)))
    {
      TakeSteps(L, s, ev, no, h);
      if ev >= 0 {
        Did(s, Evict(ev));
        Did(Next(L, s, Evict(ev)), Get(h, no));
      } else {
        Did(s, Get(h, no));
      }
    }

    /** `s` is the machine state reached, and the buffers and the disk are in it as they are here. */
    ghost predicate At(s: State)
      reads this, block, bc, bc.buf, bc.next, bc.prev
    {
      Shape() && Traced(s) && s.disk == bc.disk && s.cache == bc.cache
    }

    /** bread by the log code. It fails only if the buffer is held or every other one is in use. */
    method Take(no: nat, ghost s: State) returns (i: nat)
      requires At(s) && no < L.nblocks
      requires no in bc.cache ==> bc.cache[no].holder == Free
      requires no in bc.cache || exists k :: 0 <= k < NBUF && bc.buf[k].Recyclable()
      modifies this`run, this`spec, bc`disk, bc`cache, bc`slot, bc.buf
      ensures At(s.(cache := bc.cache)) && spec == old(spec) && old(run) < run
      ensures no in bc.cache && bc.slot[no] == i && Grabbed(s.cache, bc.cache, no, s.disk[no])
      ensures forall b :: b in bc.slot && b in old(bc.slot) ==> bc.slot[b] == old(bc.slot)[b]
    {
      var r;
      ghost var ev;
      r, ev := bc.Bread(no, Log);
      i := r.i;
      TakenGrabbed(s.cache, ev, no, s.disk[no]);
      Took(s, ev, no, Log);
      assert bc.Valid();
    }

    /** brelse by the log code. */
    method Give(no: nat, i: nat, ghost s: State)
      requires At(s) && HeldBy(s, no, Log) && bc.slot[no] == i && !s.cache[no].touched
      modifies this`run, this`spec, bc`ring, bc`cache, bc.buf, bc.next, bc.prev
      ensures At(s.(cache := bc.cache)) && spec == old(spec) && old(run) < run
      ensures bc.cache == s.cache[no := s.cache[no].(holder := Free)]
    {
      bc.Holds(no);
      bc.Brelse(i);
      Did(s, Release(Log, no));
      assert bc.Valid();
    }

    /** memmove into a buffer the log code holds, and bwrite. The machine's step is still to be recorded. */
    method Store(no: nat, i: nat, data: Block, ghost s: State)
      requires At(s) && HeldBy(s, no, Log) && bc.slot[no] == i
      modifies bc`disk, bc`cache, bc.buf
      ensures Shape() && Traced(s) && no < L.nblocks
      ensures bc.disk == s.disk[no := data] && bc.cache == s.cache[no := s.cache[no].(data := data, dirty := false)]
    {
      bc.Holds(no);
      bc.Overwrite(i, data);
    }

    /** Room in the cache: no more than NBUF - 1 blocks are pinned or held. */
    lemma Room(s: State, es: seq<Word>, held: set<nat>)
      requires At(s) && Pinned(s.cache, es) && |es| + |held| < NBUF
      requires forall b :: b in s.cache && s.cache[b].holder != Free ==> b in held
      ensures exists k :: 0 <= k < NBUF && bc.buf[k].Recyclable()
    {
      assert MapOpen(0);
      SomeRecyclable(bc.buf[..], bc.disk, bc.cache, bc.slot, es, held);
    }

    /** The two breads of write_log and install_trans: a log block, then the home block it belongs to. */
    method TakeBoth(x: nat, y: nat, ghost es: seq<Word>, ghost s: State) returns (i: nat, j: nat)
      requires At(s) && x < L.nblocks && y < L.nblocks && x != y && Settled(s.cache)
      requires Pinned(s.cache, es) && |es| < NBUF && (IsDirty(s.cache, y) || |es| + 1 < NBUF)
      modifies this`run, this`spec, bc`disk, bc`cache, bc`slot, bc.buf
      ensures At(s.(cache := bc.cache)) && spec == old(spec) && old(run) < run
      ensures PairHeld(bc.cache, x, y) && bc.slot[x] == i && bc.slot[y] == j
    {
      Room(s, es, {});
      i := Take(x, s);
      ghost var s1 := s.(cache := bc.cache);
      GrabbedPinned(s.cache, s1.cache, x, s.disk[x], es);
      if !IsDirty(s.cache, y) {
        Room(s1, es, {x});
      }
      j := Take(y, s1);
      GrabbedPair(s.cache, s1.cache, bc.cache, x, y, s.disk[x], s.disk[y]);
    }

    method GiveBoth(x: nat, i: nat, y: nat, j: nat, ghost s: State)
      requires At(s) && x != y && HeldBy(s, x, Log) && HeldBy(s, y, Log) && bc.slot[x] == i && bc.slot[y] == j
      requires !s.cache[x].touched && !s.cache[y].touched
      modifies this`run, this`spec, bc`ring, bc`cache, bc.buf, bc.next, bc.prev
      ensures At(s.(cache := bc.cache)) && spec == old(spec) && old(run) < run
      ensures bc.cache == s.cache[x := s.cache[x].(holder := Free)][y := s.cache[y].(holder := Free)]
    {
      Give(x, i, s);
      ghost var s1 := s.(cache := bc.cache);
      Give(y, j, s1);
    }

    lemma ToWrite(s: State)
      requires L.Ok() && |power| == L.nblocks && Traced(s)
      requires s.phase.WriteLog? && s.phase.tail < |s.lh|
      ensures var x, y := L.start + s.phase.tail + 1, s.lh[s.phase.tail];
        x < L.nblocks && y < L.nblocks && x != y && IsDirty(s.cache, y)
      ensures Pinned(s.cache, s.lh) && |s.lh| < L.size
    {
      Known(s);
      WriteLogReady(L, s, spec);
    }

    /** memmove and bwrite of a log block in write_log. */
    method LogBlock(x: nat, to: nat, y: nat, from: nat, ghost s: State, ghost p: Phase)
      requires At(s) && s.phase.WriteLog? && s.phase.tail < |s.lh|
      requires x == L.start + s.phase.tail + 1 < L.nblocks && y == s.lh[s.phase.tail]
      requires PairHeld(s.cache, x, y) && bc.slot[x] == to && bc.slot[y] == from
      requires p == WriteLog(s.phase.tail + 1)
      modifies this`run, this`spec, bc`disk, bc`cache, bc.buf
      ensures At(s.(disk := bc.disk, cache := bc.cache, phase := p))
      ensures PairHeld(bc.cache, x, y) && spec == old(spec) && old(run) < run
    {
      bc.Holds(y);
      WriteLogEffect(L, s);
      WrotePair(s, x, y, x, s.cache[y].data, p);
      Store(x, to, bc.buf[from].data, s);
      assert Wrote(s, x, s.cache[y].data, p) == s.(disk := bc.disk, cache := bc.cache, phase := p);
      Did(s, WriteLogBlock);
    }

    /** The body of the loop in write_log up to the first brelse. */
    method WriteLogHeld(x: nat, y: nat, ghost s: State, ghost p: Phase) returns (to: nat, from: nat)
      requires At(s) && s.phase.WriteLog? && s.phase.tail < |s.lh| && Settled(s.cache)
      requires x == L.start + s.phase.tail + 1 && y == s.lh[s.phase.tail] && p == WriteLog(s.phase.tail + 1)
      modifies this`run, this`spec, bc`disk, bc`cache, bc`slot, bc.buf
      ensures At(s.(disk := bc.disk, cache := bc.cache, phase := p))
      ensures PairHeld(bc.cache, x, y) && x != y && bc.slot[x] == to && bc.slot[y] == from
      ensures spec == old(spec) && old(run) < run
    {
      ToWrite(s);
      to, from := TakeBoth(x, y, s.lh, s);
      LogBlock(x, to, y, from, s.(cache := bc.cache), p);
    }

    /** The body of the loop in write_log. */
    method WriteLogOne(tail: nat, ghost s: State)
      requires At(s) && s.phase == WriteLog(tail) && s.lh == block[..n] && tail < n && Settled(s.cache)
      modifies this`run, this`spec, bc, bc.buf, bc.next, bc.prev
      ensures At(s.(disk := bc.disk, cache := bc.cache, phase := WriteLog(tail + 1)))
      ensures Settled(bc.cache) && spec == old(spec) && old(run) < run
    {
      var x, y: nat := L.start + tail + 1, block[tail];
      var to, from := WriteLogHeld(x, y, s, WriteLog(tail + 1));
      ghost var s2 := s.(disk := bc.disk, cache := bc.cache, phase := WriteLog(tail + 1));
      ReleasePair(s2.cache, x, y);
      GiveBoth(y, from, x, to, s2);
    }

    /** write_log: copy modified blocks from the cache to the log. */
    method CopyToLog(ghost s: State)
      requires At(s) && s.phase == WriteLog(0) && s.lh == block[..n] && Settled(s.cache)
      modifies this`run, this`spec, bc, bc.buf, bc.next, bc.prev
      ensures At(s.(disk := bc.disk, cache := bc.cache, phase := WriteLog(n)))
      ensures Settled(bc.cache) && spec == old(spec) && old(run) <= run
    {
      for tail := 0 to n
        invariant At(s.(disk := bc.disk, cache := bc.cache, phase := WriteLog(tail)))
        invariant Settled(bc.cache) && spec == old(spec) && old(run) <= run && block[..n] == s.lh
      {
        WriteLogOne(tail, s.(disk := bc.disk, cache := bc.cache, phase := WriteLog(tail)));
      }
    }

    lemma ToInstall(s: State) returns (es: seq<Word>)
      requires L.Ok() && L.size <= NBUF && |power| == L.nblocks && Traced(s)
      requires s.phase.InstallTrans? && s.phase.tail < |s.lh|
      ensures var x, y := L.start + s.phase.tail + 1, s.lh[s.phase.tail];
        && x < L.nblocks && y < L.nblocks && x != y
        && Pinned(s.cache, es) && |es| < NBUF && (IsDirty(s.cache, y) || |es| + 1 < NBUF)
    {
      Known(s);
      InstallReady(L, s, spec);
      es := if s.phase.recovering then [] else s.lh[s.phase.tail..];
    }

    /** memmove and bwrite of a home block in install_trans. */
    method HomeWrite(x: nat, from: nat, y: nat, to: nat, ghost s: State, ghost p: Phase)
      requires At(s) && s.phase.InstallTrans? && s.phase.tail < |s.lh|
      requires x == L.start + s.phase.tail + 1 && y == s.lh[s.phase.tail] < L.nblocks
      requires PairHeld(s.cache, x, y) && bc.slot[x] == from && bc.slot[y] == to
      requires p == InstallTrans(s.phase.tail + 1, s.phase.recovering)
      modifies this`run, this`spec, bc`disk, bc`cache, bc.buf
      ensures At(s.(disk := bc.disk, cache := bc.cache, phase := p))
      ensures PairHeld(bc.cache, x, y) && spec == old(spec) && old(run) < run
    {
      bc.Holds(x);
      InstallEffect(L, s);
      WrotePair(s, x, y, y, s.cache[x].data, p);
      Store(y, to, bc.buf[from].data, s);
      assert Wrote(s, y, s.cache[x].data, p) == s.(disk := bc.disk, cache := bc.cache, phase := p);
      Did(s, InstallBlock);
    }

    /** The body of the loop in install_trans up to the first brelse. */
    method InstallHeld(x: nat, y: nat, ghost s: State, ghost p: Phase) returns (from: nat, to: nat)
      requires At(s) && s.phase.InstallTrans? && s.phase.tail < |s.lh| && Settled(s.cache)
      requires x == L.start + s.phase.tail + 1 && y == s.lh[s.phase.tail]
      requires p == InstallTrans(s.phase.tail + 1, s.phase.recovering)
      modifies this`run, this`spec, bc`disk, bc`cache, bc`slot, bc.buf
      ensures At(s.(disk := bc.disk, cache := bc.cache, phase := p))
      ensures PairHeld(bc.cache, x, y) && x != y && bc.slot[x] == from && bc.slot[y] == to
      ensures spec == old(spec) && old(run) < run
    {
      ghost var es := ToInstall(s);
      from, to := TakeBoth(x, y, es, s);
      HomeWrite(x, from, y, to, s.(cache := bc.cache), p);
    }

    /** The body of the loop in install_trans. */
    method InstallOne(tail: nat, ghost s: State, ghost p: Phase)
      requires At(s) && s.phase.InstallTrans? && s.phase.tail == tail && s.lh == block[..n] && tail < n
      requires Settled(s.cache) && p == InstallTrans(tail + 1, s.phase.recovering)
      modifies this`run, this`spec, bc, bc.buf, bc.next, bc.prev
      ensures At(s.(disk := bc.disk, cache := bc.cache, phase := p))
      ensures Settled(bc.cache) && spec == old(spec) && old(run) < run
    {
      var x, y: nat := L.start + tail + 1, block[tail];
      var from, to := InstallHeld(x, y, s, p);
      ghost var s2 := s.(disk := bc.disk, cache := bc.cache, phase := p);
      ReleasePair(s2.cache, x, y);
      GiveBoth(x, from, y, to, s2);
    }

    /** install_trans: copy committed blocks from the log to their home locations. */
    method InstallFromLog(ghost s: State)
      requires At(s) && s.phase.InstallTrans? && s.phase.tail == 0 && s.lh == block[..n] && Settled(s.cache)
      modifies this`run, this`spec, bc, bc.buf, bc.next, bc.prev
      ensures At(s.(disk := bc.disk, cache := bc.cache, phase := InstallTrans(n, s.phase.recovering)))
      ensures Settled(bc.cache) && spec == old(spec) && old(run) <= run
    {
      for tail := 0 to n
        invariant At(s.(disk := bc.disk, cache := bc.cache, phase := InstallTrans(tail, s.phase.recovering)))
        invariant Settled(bc.cache) && spec == old(spec) && old(run) <= run && block[..n] == s.lh
      {
        ghost var p, q := InstallTrans(tail, s.phase.recovering), InstallTrans(tail + 1, s.phase.recovering);
        InstallOne(tail, s.(disk := bc.disk, cache := bc.cache, phase := p), q);
      }
    }

    lemma HeaderRoom(s: State)
      requires At(s) && Settled(s.cache)
      ensures |s.lh| <= LOGSIZE && exists k :: 0 <= k < NBUF && bc.buf[k].Recyclable()
    {
      Known(s);
      var es := HeaderReady(L, s, spec);
      Room(s, es, {});
    }

    /** The header contents write_head builds over what the block held. */
    method HeaderData(hb: Block) returns (data: Block)
      requires block.Length == LOGSIZE && n <= LOGSIZE
      ensures data == WriteHead(hb, block[..n])
    {
      data := hb[0 := n];
      for i := 0 to n
        invariant |data| == BWORDS && data[0] == n
        invariant forall j :: 0 <= j < i ==> data[1 + j] == block[j]
        invariant forall j :: 1 + i <= j < BWORDS ==> data[j] == hb[j]
      {
        data := data[1 + i := block[i]];
      }
      assert data == [n] + block[..n] + hb[1 + n..];
    }

    /** bread of the header block. */
    method HoldHeader(ghost s: State) returns (i: nat)
      requires At(s) && Settled(s.cache)
      modifies this`run, this`spec, bc`disk, bc`cache, bc`slot, bc.buf
      ensures At(s.(cache := bc.cache)) && spec == old(spec) && old(run) < run && |s.lh| <= LOGSIZE
      ensures PairHeld(bc.cache, L.start, L.start) && bc.slot[L.start] == i && i < bc.buf.Length && bc.buf[i].data == bc.cache[L.start].data
    {
      HeaderRoom(s);
      i := Take(L.start, s);
      GrabbedOne(s.cache, bc.cache, L.start, s.disk[L.start]);
      bc.Holds(L.start);
    }

    /** brelse of the header block, after which nothing is held. */
    method GiveHeader(i: nat, ghost s: State)
      requires At(s) && PairHeld(s.cache, L.start, L.start) && bc.slot[L.start] == i
      modifies this`run, this`spec, bc`ring, bc`cache, bc.buf, bc.next, bc.prev
      ensures At(s.(cache := bc.cache)) && Settled(bc.cache) && spec == old(spec) && old(run) < run
    {
      ReleaseOne(s.cache, L.start);
      Give(L.start, i, s);
    }

    /** bread of the header block and the building of its new contents, for write_head. */
    method TakeHeader(ghost s: State) returns (i: nat, data: Block)
      requires At(s) && Settled(s.cache)
      modifies this`run, this`spec, bc`disk, bc`cache, bc`slot, bc.buf
      ensures At(s.(cache := bc.cache)) && spec == old(spec) && old(run) < run && |s.lh| <= LOGSIZE
      ensures PairHeld(bc.cache, L.start, L.start) && bc.slot[L.start] == i
      ensures data == WriteHead(bc.cache[L.start].data, block[..n])
    {
      i := HoldHeader(s);
      data := HeaderData(bc.buf[i].data);
    }

    /** The assignments to the header buffer, and bwrite; the machine is to go on to phase `p`. */
    method StoreHeader(i: nat, data: Block, ghost s: State, ghost p: Phase)
      requires At(s) && PairHeld(s.cache, L.start, L.start) && bc.slot[L.start] == i
      modifies bc`disk, bc`cache, bc.buf
      ensures Shape() && Traced(s) && PairHeld(bc.cache, L.start, L.start)
      ensures L.start < |s.disk| && Wrote(s, L.start, data, p) == s.(disk := bc.disk, cache := bc.cache, phase := p)
    {
      bc.Holds(L.start);
      WrotePair(s, L.start, L.start, L.start, data, p);
      Store(L.start, i, data, s);
    }

    /** write_head when it commits: `s` is after write_log. */
    method CommitHead(ghost s: State)
      requires At(s) && s.phase == WriteLog(n) && s.lh == block[..n] && Settled(s.cache)
      modifies this`run, this`spec, bc, bc.buf, bc.next, bc.prev
      ensures At(s.(disk := bc.disk, cache := bc.cache, phase := InstallTrans(0, false)))
      ensures Settled(bc.cache) && spec == old(spec).(stable := old(spec).current) && old(run) < run
    {
      var i, data := TakeHeader(s);
      ghost var s1, p := s.(cache := bc.cache), InstallTrans(0, false);
      HeaderEffect(L, s1);
      StoreHeader(i, data, s1, p);
      Did(s1, WriteHeader);
      GiveHeader(i, s.(disk := bc.disk, cache := bc.cache, phase := p));
    }

    /** write_head with log.lh.n == 0: `s` is after install_trans, its entries already forgotten here. */
    method ClearHead(ghost s: State, ghost p: Phase)
      requires At(s) && s.phase.InstallTrans? && s.phase.tail == |s.lh| && n == 0 && Settled(s.cache)
      requires p == if s.phase.recovering then Quiet else Done
      modifies this`run, this`spec, bc, bc.buf, bc.next, bc.prev
      ensures At(s.(disk := bc.disk, cache := bc.cache, phase := p, lh := []))
      ensures Settled(bc.cache) && spec == old(spec) && old(run) < run
    {
      assert block[..n] == [];
      var i, data := TakeHeader(s);
      ghost var s1 := s.(cache := bc.cache);
      HeaderEffect(L, s1);
      StoreHeader(i, data, s1, p);
      Did(s1, ClearHeader);
      GiveHeader(i, s.(disk := bc.disk, cache := bc.cache, phase := p, lh := []));
    }

    /** What commit and recover_from_log end with: install_trans, and the header erased. */
    method InstallAndClear(ghost s: State, ghost p: Phase)
      requires At(s) && s.phase.InstallTrans? && s.phase.tail == 0 && s.lh == block[..n] && Settled(s.cache)
      requires p == if s.phase.recovering then Quiet else Done
      modifies this`n, this`run, this`spec, bc, bc.buf, bc.next, bc.prev
      ensures n == 0 && At(s.(disk := bc.disk, cache := bc.cache, phase := p, lh := []))
      ensures Settled(bc.cache) && spec == old(spec) && old(run) < run
    {
      InstallFromLog(s);
      ghost var s1 := s.(disk := bc.disk, cache := bc.cache, phase := InstallTrans(n, s.phase.recovering));
      n := 0;
      ClearHead(s1, p);
    }

    /** commit(), from the state in which end_op calls it. */
    method Commit()
      requires Valid() && Settled(bc.cache) && phase == (if n > 0 then WriteLog(0) else Done)
      modifies this, bc, bc.buf, bc.next, bc.prev
      ensures Valid() && Settled(bc.cache) && phase == Done && n == 0 && old(run) <= run
      ensures power == old(power) && ops == old(ops) && outstanding == old(outstanding) && committing == old(committing)
      ensures spec.current == old(spec).current && spec.active == old(spec).active
      ensures spec.stable == if old(n) > 0 then old(spec).current else old(spec).stable
    {
      if n > 0 {
        ghost var s := Abs();
        CopyToLog(s);
        CommitHead(s.(disk := bc.disk, cache := bc.cache, phase := WriteLog(n)));
        ghost var s1 := s.(disk := bc.disk, cache := bc.cache, phase := InstallTrans(0, false));
        InstallAndClear(s1, Done);
        phase := Done;
        assert Abs() == s1.(disk := bc.disk, cache := bc.cache, phase := Done, lh := []);
      }
    }

    /** The loop of read_head. */
    method CopyEntries(hb: Block)
      requires block.Length == LOGSIZE && hb[0] <= LOGSIZE
      modifies this`n, block
      ensures n == hb[0] && block[..n] == ReadHead(hb)
    {
      n := hb[0];
      for k := 0 to n
        invariant n == hb[0] && forall j :: 0 <= j < k ==> block[j] == hb[1 + j]
      {
        block[k] := hb[1 + k];
      }
      forall j | 0 <= j < n
        ensures block[j] == ReadHead(hb)[j]
      {
        EntriesAt(hb, hb[0], j);
      }
    }

    lemma ToLoad(s: State)
      requires L.Ok() && |power| == L.nblocks && Traced(s)
      requires s.phase.ReadHeader? && PairHeld(s.cache, L.start, L.start)
      ensures s.cache[L.start].data[0] <= LOGSIZE && |s.disk| == L.nblocks && Enabled(L, s, LoadHeader)
      ensures Next(L, s, LoadHeader) == s.(lh := ReadHead(s.cache[L.start].data), phase := InstallTrans(0, true))
    {
      Known(s);
      LoadEffect(L, s, spec);
    }

    /** read_head, as initlog runs it at power-on. */
    method LoadHead(ghost s: State)
      requires At(s) && s.phase == ReadHeader && Settled(s.cache)
      modifies this`n, this`run, this`spec, block, bc, bc.buf, bc.next, bc.prev
      ensures Shape() && At(s.(cache := bc.cache, lh := block[..n], phase := InstallTrans(0, true)))
      ensures Settled(bc.cache) && spec == old(spec) && old(run) < run
    {
      var i := HoldHeader(s);
      ghost var s1 := s.(cache := bc.cache);
      ToLoad(s1);
      CopyEntries(bc.buf[i].data);
      Did(s1, LoadHeader);
      ghost var s2 := s1.(lh := block[..n], phase := InstallTrans(0, true));
      GiveHeader(i, s2);
    }

    /** recover_from_log, as initlog calls it at power-on. */
    method Recover()
      requires Valid() && phase == ReadHeader && Settled(bc.cache)
      modifies this, block, bc, bc.buf, bc.next, bc.prev
      ensures Valid() && Settled(bc.cache) && phase == Quiet && n == 0 && old(run) < run
      ensures power == old(power) && ops == old(ops) && outstanding == old(outstanding) && committing == old(committing)
      ensures spec == old(spec)
    {
      ghost var s := Abs();
      LoadHead(s);
      ghost var s1 := s.(cache := bc.cache, lh := block[..n], phase := InstallTrans(0, true));
      InstallAndClear(s1, Quiet);
      phase := Quiet;
      assert Abs() == s1.(disk := bc.disk, cache := bc.cache, phase := Quiet, lh := []);
    }

    /** One pass of the loop in begin_op: false means the caller sleeps. */
    method BeginOp(ghost op: nat) returns (ok: bool)
      requires Valid() && !Recovering(phase) && op !in ops
      modifies this
      ensures Valid() && ok == (!old(committing) && old(n) + (old(outstanding) + 1) * MAXOPBLOCKS <= LOGSIZE)
      ensures !ok ==> Abs() == old(Abs()) && spec == old(spec) && run == old(run) && power == old(power)
      ensures ok ==> run == old(run) + [Begin(op)] && power == old(power)
      ensures ok ==> Abs() == old(Abs()).(ops := old(ops)[op := MAXOPBLOCKS], outstanding := old(outstanding) + 1)
    {
      if committing {
        return false;
      } else if n + (outstanding + 1) * MAXOPBLOCKS > LOGSIZE {
        return false;
      }
      Did(Abs(), Begin(op));
      outstanding := outstanding + 1;
      ops := ops[op := MAXOPBLOCKS];
      return true;
    }

    /** bread by an operation. */
    method OpRead(no: nat, ghost op: nat) returns (r: GetResult)
      requires Valid() && op in ops && L.Home(no)
      modifies this`run, this`spec, bc`disk, bc`cache, bc`slot, bc.buf
      ensures Valid() && spec == old(spec) && old(run) <= run && bc.disk == old(bc.disk)
      ensures r.Got? ==> HeldBy(Abs(), no, Op(op)) && bc.slot[no] == r.i
      ensures r.Got? ==> no in old(bc.cache) ==> bc.cache[no] == old(bc.cache)[no].(holder := Op(op))
      ensures !r.Got? ==> Abs() == old(Abs())
    {
      ghost var s, ev := Abs(), -1;
      r, ev := bc.Bread(no, Op(op));
      if r.Got? {
        Took(s, ev, no, Op(op));
      }
      assert bc.Valid();
    }

    /** A change of b->data by the operation that holds the buffer. */
    method OpModify(no: nat, i: nat, data: Block, ghost op: nat)
      requires Valid() && op in ops && HeldBy(Abs(), no, Op(op)) && bc.slot[no] == i
      modifies this`run, this`spec, bc`cache, bc.buf
      ensures Valid() && run == old(run) + [Modify(op, no, data)]
      ensures Abs() == old(Abs()).(cache := old(bc.cache)[no := old(bc.cache)[no].(data := data, touched := true)])
    {
      ghost var s := Abs();
      bc.Holds(no);
      bc.Fill(i, data, true);
      Did(s, Modify(op, no, data));
      assert bc.Valid();
    }

    /** The loop of log_write: a block already in the transaction is not entered twice. */
    method Absorb(no: Word)
      requires block.Length == LOGSIZE && n < LOGSIZE
      modifies this`n, block
      ensures n <= LOGSIZE && n == old(n) + if no in old(block[..n]) then 0 else 1
      ensures block[..n] == if no in old(block[..n]) then old(block[..n]) else old(block[..n]) + [no]
    {
      var k := 0;
      while k < n && block[k] != no
        invariant 0 <= k <= n
        invariant forall j :: 0 <= j < k ==> block[j] != no
      {
        k := k + 1;
      }
      assert k < n ==> block[..n][k] == no;
      block[k] := no;
      if k == n {
        n := n + 1;
      }
    }

    /** The locked part of log_write. */
    method Enter(no: nat, i: nat, ghost op: nat, ghost s: State)
      requires At(s) && s.lh == block[..n] && n < LOGSIZE && HeldBy(s, no, Op(op)) && bc.slot[no] == i
      modifies this`n, block, bc`cache, bc.buf
      ensures Shape() && Traced(s) && n == old(n) + if no in s.lh then 0 else 1
      ensures block[..n] == if no in s.lh then s.lh else s.lh + [no]
      ensures bc.cache == s.cache[no := s.cache[no].(dirty := true, touched := false)] && no < L.nblocks
    {
      bc.Holds(no);
      Absorb(no);
      bc.Pin(i);
      assert bc.Valid();
    }

    /** The machine's step, and what it takes from the reservation. */
    ghost method Record(op: nat, no: nat, s: State)
      requires Shape() && Traced(s) && |s.disk| == L.nblocks && op in s.ops
      requires HeldBy(s, no, Op(op)) && no < L.nblocks && !LogWritePanics(L, s)
      requires Abs() ==
        s.(lh := if no in s.lh then s.lh else s.lh + [no], cache := s.cache[no := s.cache[no].(dirty := true, touched := false)])
      modifies this`ops, this`run, this`spec
      ensures Valid() && run == old(run) + [LogWrite(op, no)] && ops == old(ops)[op := old(ops)[op] - if no in s.lh then 0 else 1]
    {
      LogWriteEffect(L, s, op, no);
      Did(s, LogWrite(op, no));
      ops := ops[op := ops[op] - if no in s.lh then 0 else 1];
      assert Abs() == Next(L, s, LogWrite(op, no));
    }

    /** log_write; true means it panicked. */
    method LogWriteBlock(no: nat, i: nat, ghost op: nat) returns (panicked: bool)
      requires Valid() && op in ops && HeldBy(Abs(), no, Op(op)) && bc.slot[no] == i
      modifies this`n, this`ops, this`run, this`spec, block, bc`cache, bc.buf
      ensures Valid() && panicked == (old(n) >= LOGSIZE || old(n) >= L.size - 1 || outstanding < 1)
      ensures panicked ==> Abs() == old(Abs()) && run == old(run)
      ensures !panicked ==> run == old(run) + [LogWrite(op, no)]
      ensures !panicked ==> block[..n] == if no in old(block[..n]) then old(block[..n]) else old(block[..n]) + [no]
      ensures !panicked ==> bc.cache == old(bc.cache)[no := old(bc.cache)[no].(dirty := true, touched := false)]
      ensures !panicked ==> ops == old(ops)[op := old(ops)[op] - if no in old(block[..n]) then 0 else 1]
    {
      if n >= LOGSIZE || n >= L.size - 1 || outstanding < 1 {
        return true;
      }
      ghost var s := Abs();
      Enter(no, i, op, s);
      Record(op, no, s);
      return false;
    }

    /** brelse by an operation. */
    method OpRelease(no: nat, i: nat, ghost op: nat)
      requires Valid() && HeldBy(Abs(), no, Op(op)) && bc.slot[no] == i && !bc.cache[no].touched
      modifies this`run, this`spec, bc`ring, bc`cache, bc.buf, bc.next, bc.prev
      ensures Valid() && run == old(run) + [Release(Op(op), no)] && spec == old(spec)
      ensures Abs() == old(Abs()).(cache := old(bc.cache)[no := old(bc.cache)[no].(holder := Free)])
    {
      ghost var s := Abs();
      bc.Holds(no);
      bc.Brelse(i);
      Did(s, Release(Op(op), no));
      assert bc.Valid();
    }

    /** The panic of end_op is unreachable. */
    lemma CannotPanic(s: State, op: nat)
      requires L.Ok() && |power| == L.nblocks && Traced(s) && op in s.ops
      ensures !EndPanics(s)
    {
      Known(s);
    }

    /** The locked part of end_op; true means that this was the last operation and commit() is due. */
    method Leave(ghost op: nat) returns (doCommit: bool)
      requires Valid() && op in ops && forall b :: b in bc.cache ==> bc.cache[b].holder != Op(op)
      modifies this
      ensures Valid() && run == old(run) + [End(op)] && power == old(power)
      ensures doCommit == (old(outstanding) == 1) && !old(committing)
      ensures Abs() == old(Abs()).(ops := old(ops) - {op}, outstanding := old(outstanding) - 1,
        committing := if doCommit then true else old(committing),
        phase := if doCommit then (if n > 0 then WriteLog(0) else Done) else old(phase))
      ensures spec == old(spec).(active := old(spec).active - {op}) && n == old(n)
    {
      ghost var s := Abs();
      CannotPanic(s, op);
      Did(s, End(op));
      outstanding := outstanding - 1;
      ops := ops - {op};
      doCommit := outstanding == 0;
      if doCommit {
        committing := true;
        phase := if n > 0 then WriteLog(0) else Done;
      }
      assert Abs() == Next(L, s, End(op));
    }

    /** end_op. The last operation out commits, and then everything current is on the disk. */
    method EndOp(ghost op: nat)
      requires Valid() && op in ops && forall b :: b in bc.cache ==> bc.cache[b].holder != Op(op)
      requires outstanding == 1 ==> Settled(bc.cache)
      modifies this, bc, bc.buf, bc.next, bc.prev
      ensures Valid() && power == old(power) && old(run) < run
      ensures ops == old(ops) - {op} && outstanding == old(outstanding) - 1 && !committing
      ensures |spec.stable| == |spec.current| == L.nblocks && spec.current == old(spec).current
      ensures old(outstanding) != 1 ==> spec.stable == old(spec).stable
      ensures old(outstanding) == 1 ==> n == 0 && phase == Quiet
      ensures old(outstanding) == 1 ==> forall b :: L.Home(b) ==> spec.stable[b] == spec.current[b] == bc.disk[b]
    {
      var doCommit := Leave(op);
      if doCommit {
        Commit();
        Reopen();
        Committed();
      } else {
        Sizes();
      }
    }

    /** The locked part at the end of end_op. */
    method Reopen()
      requires Valid() && phase.Done?
      modifies this`committing, this`phase, this`run, this`spec
      ensures Valid() && !committing && phase == Quiet && spec == old(spec) && run == old(run) + [CommitDone]
    {
      Did(Abs(), CommitDone);
      committing := false;
      phase := Quiet;
    }

    lemma Sizes()
      requires Valid()
      ensures |spec.stable| == |spec.current| == L.nblocks
    {
      Known(Abs());
    }

    lemma Committed()
      requires Valid() && phase == Quiet && n == 0 && outstanding == 0
      ensures |spec.stable| == |spec.current| == L.nblocks
      ensures forall b :: L.Home(b) ==> spec.stable[b] == spec.current[b] == bc.disk[b]
    {
      Known(Abs());
      assert ops == map[] by { assert |ops| == 0; }
      CleanIsStable(L, Abs(), spec);
    }

    /**
     Power loss at any moment of this object's life. Every step of `run` makes at most one block
     write, so `k` ranges over all disk images there have been. Each of them recovers to the contents
     at the last header write before it, when no operation was in progress.
     */
    lemma CrashAnywhere(k: nat)
      requires Valid() && k <= |run|
      ensures HeaderOk(L, power) && Run(L, Boot(power), run[..k])
      ensures var d := Exec(L, Boot(power), run[..k]).disk;
        && HeaderOk(L, d)
        && exists j: nat, image: Disk :: LastCommit(run[..k], j) && QuiescentAt(BootSpec(L, power), run[..k], j, image)
             && |image| == L.nblocks && forall b :: L.Home(b) ==> Recovered(L, d)[b] == image[b]
    {
      assert TraceOpen(0);
      RunPrefix(L, Boot(power), run, k);
      CrashAtomicity(L, power, run[..k]);
    }
  }
}
