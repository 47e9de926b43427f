/**
 Kinship over whole runs: every process descends from init, no process is left asleep in wait()
 with a zombie to collect, and list membership agrees with p->state up to one faulty branch.
 */
module ProcKin {
  import opened StateLists
  import opened ProcSpec
  import opened ProcRuns
  import opened ProcEffects
  import opened Sealing

  // ---------------------------------------------------------------- pids

  /** Given out, and younger than its parent: pids grow from parent to child. */
  predicate PidOk(t: Table, p: nat)
    requires p < |t.procs|
  {
    var q := t.procs[p];
    && q.pid < t.nextpid && (!q.state.UNUSED? ==> q.pid > 0)
    && (p != INIT && HasParent(q.state) && 0 <= q.parent < |t.procs| ==> t.procs[q.parent].pid < q.pid)
  }

  predicate Differ(procs: seq<Proc>, p: nat, q: nat)
    requires p < |procs| && q < |procs|
  {
    procs[p].pid != procs[q].pid || procs[p].pid == 0
  }

  predicate ForkPid(t: Table, f: nat)
    requires f in t.forking
  {
    f < |t.procs| && t.forking[f] < |t.procs| && t.procs[f].pid < t.procs[t.forking[f]].pid
  }

  /** Pids are unique once given and below nextpid, and grow from parent to child. */
  ghost predicate Pids(t: Table) {
    && |t.procs| == NPROC && t.procs[INIT].pid == 1
    && (forall p :: 0 <= p < NPROC ==> PidOk(t, p))
    && (forall p, q :: 0 <= p < NPROC && 0 <= q < NPROC && p != q ==> Differ(t.procs, p, q))
    && (forall f :: f in t.forking ==> ForkPid(t, f))
  }

  /** A step that gives out no pid and changes parents only to init or to the process that forked. */
  predicate SamePid(t: Table, r: Table, p: nat)
    requires p < |t.procs| && p < |r.procs|
  {
    var q, s := t.procs[p], r.procs[p];
    && s.pid == q.pid && (q.state.UNUSED? ==> s.state.UNUSED?)
    && (HasParent(s.state) ==>
          || (HasParent(q.state) && (s.parent == q.parent || s.parent == INIT))
          || (s.parent in t.forking && t.forking[s.parent] == p))
  }

  lemma PidsKeep(t: Table, r: Table)
    requires Pids(t) && |r.procs| == NPROC && r.nextpid == t.nextpid
    requires forall f :: f in r.forking ==> f in t.forking && r.forking[f] == t.forking[f]
    requires forall p :: 0 <= p < NPROC ==> SamePid(t, r, p)
    ensures Pids(r)
  {
    assert SamePid(t, r, INIT);
    forall p | 0 <= p < NPROC ensures PidOk(r, p) { PidKeeps(t, r, p); }
    forall p, q | 0 <= p < NPROC && 0 <= q < NPROC && p != q
      ensures Differ(r.procs, p, q)
    {
      assert Differ(t.procs, p, q) && SamePid(t, r, p) && SamePid(t, r, q);
    }
    forall f | f in r.forking
      ensures ForkPid(r, f)
    {
      assert ForkPid(t, f) && SamePid(t, r, f) && SamePid(t, r, t.forking[f]);
    }
  }

  lemma PidKeeps(t: Table, r: Table, p: nat)
    requires Pids(t) && |r.procs| == NPROC && r.nextpid == t.nextpid && p < NPROC
    requires forall x :: 0 <= x < NPROC ==> SamePid(t, r, x)
    ensures PidOk(r, p)
  {
    var x := r.procs[p].parent;
    assert SamePid(t, r, p) && PidOk(t, p);
    if p != INIT && HasParent(r.procs[p].state) && 0 <= x < NPROC {
      assert SamePid(t, r, x) && Differ(t.procs, INIT, p);
      assert x in t.forking ==> ForkPid(t, x);
    }
  }

  /** One slot gets a new pid, or gives its pid back; no one names it as parent. */
  lemma PidChange(t: Table, r: Table, p: nat)
    requires Family(t) && Pids(t) && p < NPROC && p != INIT && !Alive(t.procs[p].state) && r.nextpid >= t.nextpid
    requires |r.procs| == NPROC && r.procs == t.procs[p := r.procs[p]] && !HasParent(r.procs[p].state)
    requires r.procs[p].pid == 0 || t.nextpid <= r.procs[p].pid < r.nextpid
    requires !r.procs[p].state.UNUSED? ==> r.procs[p].pid > 0
    requires forall f :: f in r.forking ==>
      if r.forking[f] == p then f < NPROC && f != p && r.procs[p].pid >= t.nextpid
      else f in t.forking && f != p && r.forking[f] == t.forking[f]
    ensures Pids(r)
  {
    forall x | 0 <= x < NPROC ensures PidOk(r, x) { assert PidOk(t, x) && Kept(t.procs, x); }
    forall x, y | 0 <= x < NPROC && 0 <= y < NPROC && x != y
      ensures Differ(r.procs, x, y)
    {
      assert Differ(t.procs, x, y) && PidOk(t, x) && PidOk(t, y);
    }
    forall f | f in r.forking
      ensures ForkPid(r, f)
    {
      if r.forking[f] == p { assert PidOk(t, f); } else { assert ForkPid(t, f); }
    }
  }

  lemma AllocPids(t: Table, me: nat)
    requires Partition(t) && Family(t) && Pids(t) && Enabled(t, Alloc(me))
    ensures Pids(Next(t, Alloc(me)))
  {
    StateOf(t, FREE, 0);
    assert PidOk(t, INIT);
    assert forall f :: f in t.forking ==> t.procs[f].state.RUNNING? || t.procs[f].state.RUNNABLE?;
    PidChange(t, Next(t, Alloc(me)), t.lists[FREE][0]);
  }

  lemma WaitPids(t: Table, me: nat, ticks: nat)
    requires Partition(t) && Family(t) && Pids(t) && Enabled(t, WaitProc(me, ticks))
    ensures Pids(Next(t, WaitProc(me, ticks)))
  {
    var r := Next(t, WaitProc(me, ticks));
    if WaitOutcome(t, me).Reaped? {
      var k := First(t.lists[ZOMBIES], t.procs, ByParent(me));
      StateOf(t, ZOMBIES, k);
      PidChange(t, r, t.lists[ZOMBIES][k]);
    } else {
      PidsKeep(t, r);
    }
  }

  lemma ExitPids(t: Table, me: nat)
    requires Partition(t) && Pids(t) && Enabled(t, ExitProc(me))
    ensures Pids(Next(t, ExitProc(me)))
  {
    var r := Next(t, ExitProc(me));
    AdoptingEffect(t, me);
    ExitEffect(t, me);
    forall p | 0 <= p < NPROC ensures SamePid(t, r, p) { assert Fostered(t, Adopting(t, me), p, me); }
    PidsKeep(t, r);
  }

  lemma ForkPids(t: Table, step: Step)
    requires Partition(t) && Pids(t) && Enabled(t, step)
    requires step.StackFail? || step.StackOk? || step.ForkFail? || step.SetParent? || step.Publish?
    ensures Pids(Next(t, step))
  {
    Home(t, t.forking[step.me]);
    PidsKeep(t, Next(t, step));
  }

  lemma StepPids(t: Table, step: Step)
    requires Partition(t) && Family(t) && Pids(t) && Enabled(t, step)
    ensures Pids(Next(t, step))
  {
    if step.Alloc? {
      AllocPids(t, step.me);
    } else if step.ExitProc? {
      ExitPids(t, step.me);
    } else if step.WaitProc? {
      WaitPids(t, step.me, step.ticks);
    } else if step.PromoteAll? {
      PidsKeep(t, Promote(t));
    } else if IsLocal(step) {
      var p, q := LocalEffect(t, step);
      PidsKeep(t, Next(t, step));
    } else {
      ForkPids(t, step);
    }
  }

  // ---------------------------------------------------------------- wait() loses no wakeup

  predicate ChildOf(q: Proc, me: nat) {
    q.parent == me && !q.state.UNUSED?
  }

  ghost predicate HasChild(procs: seq<Proc>, me: nat) {
    exists c :: 0 <= c < |procs| && ChildOf(procs[c], me)
  }

  ghost predicate HasZombie(procs: seq<Proc>, me: nat) {
    exists c :: 0 <= c < |procs| && procs[c].parent == me && procs[c].state.ZOMBIE?
  }

  /** Whoever sleeps in wait() sleeps on itself, is not killed, has a child, and none to collect. */
  ghost predicate WaitOk(procs: seq<Proc>, p: nat)
    requires p < |procs|
  {
    Blocked(procs[p]) ==>
      procs[p].chan == ProcChan(p) && !procs[p].killed && HasChild(procs, p) && !HasZombie(procs, p)
  }

  ghost predicate Waits(procs: seq<Proc>) {
    forall p :: 0 <= p < |procs| ==> WaitOk(procs, p)
  }

  /** A record whose change leaves the children of `p` as they were. */
  predicate SameChild(q: Proc, r: Proc, p: nat) {
    && (ChildOf(q, p) ==> ChildOf(r, p))
    && (r.parent == p && r.state.ZOMBIE? ==> q.parent == p && q.state.ZOMBIE?)
  }

  /** A sleeper in wait() stays as it was, and its children too. */
  ghost predicate Undisturbed(t: seq<Proc>, r: seq<Proc>, p: nat)
    requires |t| == |r| && p < |t|
  {
    Blocked(r[p]) ==>
      Blocked(t[p]) && r[p].chan == t[p].chan && r[p].killed == t[p].killed && forall c :: 0 <= c < |t| ==> SameChild(t[c], r[c], p)
  }

  lemma WaitsKeep(t: seq<Proc>, r: seq<Proc>)
    requires Waits(t) && |t| == |r| && forall p :: 0 <= p < |t| ==> Undisturbed(t, r, p)
    ensures Waits(r)
  {
    forall p | 0 <= p < |r|
      ensures WaitOk(r, p)
    {
      assert Undisturbed(t, r, p) && WaitOk(t, p);
      if Blocked(r[p]) { ChildrenKeep(t, r, p); }
    }
  }

  lemma ChildrenKeep(t: seq<Proc>, r: seq<Proc>, p: nat)
    requires |t| == |r| && p < |t| && forall c :: 0 <= c < |t| ==> SameChild(t[c], r[c], p)
    ensures HasChild(t, p) ==> HasChild(r, p)
    ensures HasZombie(r, p) ==> HasZombie(t, p)
  {
    if c :| 0 <= c < |t| && ChildOf(t[c], p) { assert ChildOf(r[c], p); }
    if c :| 0 <= c < |r| && r[c].parent == p && r[c].state.ZOMBIE? { assert SameChild(t[c], r[c], p); }
  }

  /** One record changed, which kept its parent and is no new zombie. */
  lemma WaitsOne(t: seq<Proc>, r: seq<Proc>, x: nat)
    requires Waits(t) && |t| == |r| && x < |t| && r == t[x := r[x]]
    requires forall p :: 0 <= p < |t| && Blocked(t[p]) ==> SameChild(t[x], r[x], p)
    requires Blocked(r[x]) ==> Blocked(t[x]) && r[x].chan == t[x].chan && r[x].killed == t[x].killed
    ensures Waits(r)
  {
    forall p | 0 <= p < |t| ensures Undisturbed(t, r, p) { }
    WaitsKeep(t, r);
  }

  /** Sleepers in wait() each sleep on themselves. */
  ghost predicate OwnChans(procs: seq<Proc>) {
    forall p :: 0 <= p < |procs| && Blocked(procs[p]) ==> procs[p].chan == ProcChan(p)
  }

  /** The wakeup1 at the start of exit() reaches the parent if it is asleep in wait(). */
  lemma WakesWaiter(t: Table, x: nat)
    requires Partition(t) && x < NPROC
    requires OwnChans(t.procs)
    ensures !Blocked(Wakeup(t, ProcChan(x)).procs[x])
  {
    WakeupEffect(t, ProcChan(x));
    if Blocked(t.procs[x]) {
      Home(t, x);
      assert x in t.lists[SLEEP];
    }
  }

  /** The zombie loop of exit() wakes init if it adopts a zombie. */
  lemma {:induction false} AdoptionWakes(t: Table, zs: seq<nat>, me: nat, z: nat)
    requires Partition(t) && me != INIT && me < NPROC && z in zs && z < NPROC && t.procs[z].parent == me
    requires OwnChans(t.procs)
    ensures !Blocked(AdoptZombies(t, zs, me).procs[INIT])
    decreases |zs|
  {
    if zs[0] < NPROC && t.procs[zs[0]].parent == me {
      var procs := t.procs[zs[0] := t.procs[zs[0]].(parent := INIT)];
      RecordsKeep(t, procs);
      var u := t.(procs := procs);
      WakesWaiter(u, INIT);
      AdoptZombiesEffect(Wakeup(u, ProcChan(INIT)), zs[1..], me);
    } else {
      AdoptionWakes(t, zs[1..], me, z);
    }
  }

  lemma AdoptQuiet(t: Table, ls: set<nat>, me: nat)
    requires Partition(t) && OwnChans(t.procs)
    ensures var r := Adopt(t, ls, me); OwnChans(r.procs) && forall p :: 0 <= p < NPROC ==>
      r.procs[p].(parent := 0) == t.procs[p].(parent := 0)
  {
  }

  /** exit() leaves the parent awake. */
  lemma ExitWakesParent(t: Table, me: nat)
    requires Partition(t) && OwnChans(t.procs) && me < NPROC && me != INIT && 0 <= t.procs[me].parent < NPROC
    ensures !Blocked(Adopting(t, me).procs[t.procs[me].parent])
  {
    var x := t.procs[me].parent;
    var t1 := Wakeup(t, ProcChan(x));
    WakeupEffect(t, ProcChan(x));
    WakesWaiter(t, x);
    AdoptQuiet(t1, WalkedLists(), me);
    var t2 := Adopt(t1, WalkedLists(), me);
    AdoptZombiesEffect(t2, t2.lists[ZOMBIES], me);
  }

  /** exit() leaves init awake if it adopted a zombie. */
  lemma ExitWakesInit(t: Table, me: nat, z: nat)
    requires Partition(t) && OwnChans(t.procs) && me < NPROC && me != INIT
    requires z < NPROC && t.procs[z].parent == me && t.procs[z].state.ZOMBIE?
    ensures !Blocked(Adopting(t, me).procs[INIT])
  {
    var c := ParentChan(t.procs[me].parent);
    var t1 := Wakeup(t, c);
    WakeupEffect(t, c);
    AdoptQuiet(t1, WalkedLists(), me);
    var t2 := Adopt(t1, WalkedLists(), me);
    Home(t1, z);
    AdoptionWakes(t2, t2.lists[ZOMBIES], me, z);
  }

  lemma WaitersOwn(procs: seq<Proc>)
    requires Waits(procs)
    ensures OwnChans(procs)
  {
    forall p | 0 <= p < |procs| && Blocked(procs[p]) ensures procs[p].chan == ProcChan(p) { assert WaitOk(procs, p); }
  }

  lemma ExitWaits(t: Table, me: nat)
    requires Partition(t) && Family(t) && Pids(t) && Waits(t.procs) && Enabled(t, ExitProc(me))
    ensures Waits(Next(t, ExitProc(me)).procs)
  {
    var u, r := Adopting(t, me), Next(t, ExitProc(me));
    AdoptingEffect(t, me);
    ExitEffect(t, me);
    assert PidOk(t, me) && Kept(t.procs, me);
    WaitersOwn(t.procs);
    ExitWakesParent(t, me);
    if z :| 0 <= z < NPROC && t.procs[z].parent == me && t.procs[z].state.ZOMBIE? { ExitWakesInit(t, me, z); }
    forall p | 0 <= p < NPROC ensures Undisturbed(t.procs, r.procs, p) { ExitUndisturbed(t, u, r, me, p); }
    WaitsKeep(t.procs, r.procs);
  }

  lemma ExitUndisturbed(t: Table, u: Table, r: Table, me: nat, p: nat)
    requires |t.procs| == |u.procs| == NPROC && me < NPROC && p < NPROC && 0 <= t.procs[me].parent < NPROC
    requires t.procs[me].state.RUNNING? && t.procs[me].parent != me
    requires forall c :: 0 <= c < NPROC ==> Fostered(t, u, c, me)
    requires r.procs == u.procs[me := u.procs[me].(state := ZOMBIE)]
    requires !Blocked(u.procs[t.procs[me].parent]) && (HasZombie(t.procs, me) ==> !Blocked(u.procs[INIT]))
    ensures Undisturbed(t.procs, r.procs, p)
  {
    if Blocked(r.procs[p]) {
      assert Fostered(t, u, p, me);
      forall c | 0 <= c < NPROC
        ensures SameChild(t.procs[c], r.procs[c], p)
      {
        assert Fostered(t, u, c, me);
        if t.procs[c].parent == me && t.procs[c].state.ZOMBIE? { assert HasZombie(t.procs, me); }
      }
    }
  }

  /** What wait() looks for on the lists is what the process table says about children. */
  lemma KidsExact(t: Table, me: nat)
    requires Partition(t) && Family(t) && me < NPROC
    ensures First(t.lists[ZOMBIES], t.procs, ByParent(me)) < |t.lists[ZOMBIES]| <==> HasZombie(t.procs, me)
    ensures HasChild(t.procs, me) <==> HasKids(t, me) || HasZombie(t.procs, me)
  {
    var s := t.lists[ZOMBIES];
    var k := First(s, t.procs, ByParent(me));
    if k < |s| { StateOf(t, ZOMBIES, k); }
    forall p | 0 <= p < NPROC
      ensures t.procs[p].state.ZOMBIE? <==> p in s
      ensures !t.procs[p].state.UNUSED? ==> Walks(ListOf(t, p)) || t.procs[p].state.ZOMBIE?
      ensures Walks(ListOf(t, p)) && t.procs[p].parent == me ==> !t.procs[p].state.UNUSED?
    {
      Home(t, p);
      assert Kept(t.procs, p);
    }
    if c :| 0 <= c < NPROC && t.procs[c].parent == me && t.procs[c].state.ZOMBIE? { assert c in s; }
    if c :| 0 <= c < NPROC && Walks(ListOf(t, c)) && t.procs[c].parent == me { assert ChildOf(t.procs[c], me); }
  }

  /**
   What wait() returns: the pid of a zombie child if there is one, -1 exactly when there is none and
   the caller has no child at all or was killed; only otherwise does it sleep.
   */
  lemma WaitExact(t: Table, me: nat)
    requires Partition(t) && Family(t) && me < NPROC
    ensures var w := WaitOutcome(t, me);
      && (w.Reaped? <==> HasZombie(t.procs, me))
      && (w.NoKids? <==> !HasZombie(t.procs, me) && (!HasChild(t.procs, me) || t.procs[me].killed))
      && (w.Reaped? ==> exists c :: 0 <= c < NPROC && t.procs[c].parent == me && t.procs[c].state.ZOMBIE? && t.procs[c].pid == w.pid)
  {
    KidsExact(t, me);
    var s := t.lists[ZOMBIES];
    var k := First(s, t.procs, ByParent(me));
    if k < |s| {
      StateOf(t, ZOMBIES, k);
      assert t.procs[s[k]].parent == me;
    }
  }

  lemma WaitWaits(t: Table, me: nat, ticks: nat)
    requires Partition(t) && Family(t) && Waits(t.procs) && Enabled(t, WaitProc(me, ticks))
    ensures Waits(Next(t, WaitProc(me, ticks)).procs)
  {
    var r := Next(t, WaitProc(me, ticks));
    KidsExact(t, me);
    match WaitOutcome(t, me)
    case NoKids =>
    case Reaped(_) =>
      var k := First(t.lists[ZOMBIES], t.procs, ByParent(me));
      StateOf(t, ZOMBIES, k);
      WaitsOne(t.procs, r.procs, t.lists[ZOMBIES][k]);
    case Sleeps => FallsAsleep(t.procs, r.procs, me);
  }

  lemma FallsAsleep(t: seq<Proc>, r: seq<Proc>, me: nat)
    requires Waits(t) && |t| == |r| && me < |t| && r == t[me := r[me]] && r[me].parent == t[me].parent
    requires t[me].state.RUNNING? && r[me].state.SLEEPING? && r[me].chan == ProcChan(me) && !r[me].killed
    requires HasChild(t, me) && !HasZombie(t, me)
    ensures Waits(r)
  {
    forall p | 0 <= p < |r|
      ensures WaitOk(r, p)
    {
      assert WaitOk(t, p);
      forall c | 0 <= c < |t| ensures SameChild(t[c], r[c], p) { }
      ChildrenKeep(t, r, p);
    }
  }

  lemma AllocWaits(t: Table, me: nat)
    requires Partition(t) && Family(t) && Waits(t.procs) && Enabled(t, Alloc(me))
    ensures Waits(Next(t, Alloc(me)).procs)
  {
    StateOf(t, FREE, 0);
    assert Kept(t.procs, t.lists[FREE][0]);
    WaitsOne(t.procs, Next(t, Alloc(me)).procs, t.lists[FREE][0]);
  }

  lemma ForkWaits(t: Table, step: Step)
    requires Partition(t) && Waits(t.procs) && Enabled(t, step)
    requires step.StackFail? || step.StackOk? || step.ForkFail? || step.SetParent? || step.Publish?
    ensures Waits(Next(t, step).procs)
  {
    Home(t, t.forking[step.me]);
    WaitsOne(t.procs, Next(t, step).procs, t.forking[step.me]);
  }

  lemma StepWaits(t: Table, step: Step)
    requires Partition(t) && Family(t) && Pids(t) && Waits(t.procs) && Enabled(t, step)
    ensures Waits(Next(t, step).procs)
  {
    var r := Next(t, step);
    if step.ExitProc? {
      ExitWaits(t, step.me);
    } else if step.WaitProc? {
      WaitWaits(t, step.me, step.ticks);
    } else if step.Alloc? {
      AllocWaits(t, step.me);
    } else if step.PromoteAll? {
      WaitsKeep(t.procs, r.procs);
    } else if IsLocal(step) {
      var p, q := LocalEffect(t, step);
      WaitsOne(t.procs, r.procs, p);
    } else {
      ForkWaits(t, step);
    }
  }

  // ---------------------------------------------------------------- whole runs

  ghost predicate Run(t: Table, steps: seq<Step>)
    requires Partition(t)
    decreases |steps|
  {
    steps == [] || (Enabled(t, steps[0]) && Run(Next(t, steps[0]), steps[1..]))
  }

  ghost function Exec(t: Table, steps: seq<Step>): (r: Table)
    requires Partition(t) && Run(t, steps)
    ensures Partition(r)
    decreases |steps|
  {
    if steps == [] then t else Exec(Next(t, steps[0]), steps[1..])
  }

  /** After userinit: init in slot 0, ready at the top level and its own parent; every other slot free. */
  function BootProc(p: nat): (q: Proc) {
    if p == INIT then Proc(RUNNABLE, 1, INIT, NoChan, false, 0, MAXBUDG, 0)
    else Proc(UNUSED, 0, NULL, NoChan, false, 0, 0, 0)
  }

  function BootLists(): (r: seq<seq<nat>>) {
    seq(NLISTS, l requires 0 <= l < NLISTS =>
      if l == 0 then [INIT] else if l == FREE then seq(NPROC - 1, i requires 0 <= i => i + 1) else [])
  }

  ghost function Boot(): (t: Table)
    ensures Partition(t)
  {
    BootPartition();
    Table(BootLists(), seq(NPROC, p requires 0 <= p < NPROC => BootProc(p)), 2, map[], {})
  }

  lemma BootPartition()
    ensures Partition(Table(BootLists(), seq(NPROC, p requires 0 <= p < NPROC => BootProc(p)), 2, map[], {}))
  {
    var t := Table(BootLists(), seq(NPROC, p requires 0 <= p < NPROC => BootProc(p)), 2, map[], {});
    assert PartOpen(0);
    forall p | 0 <= p < NPROC
      ensures p in t.lists[ListOf(t, p)]
    {
      if p != INIT { assert t.lists[FREE][p - 1] == p; }
    }
  }

  ghost predicate Kin(t: Table) {
    Family(t) && Pids(t) && Waits(t.procs)
  }

  lemma BootKin()
    ensures Kin(Boot())
  {
    var t := Boot();
    assert forall p :: 0 <= p < NPROC ==> Kept(t.procs, p);
    assert forall p :: 0 <= p < NPROC ==> WaitOk(t.procs, p);
  }

  lemma {:induction false} RunKin(t: Table, steps: seq<Step>)
    requires Partition(t) && Kin(t) && Run(t, steps)
    ensures Kin(Exec(t, steps))
    decreases |steps|
  {
    if steps != [] {
      StepFamily(t, steps[0]);
      StepPids(t, steps[0]);
      StepWaits(t, steps[0]);
      RunKin(Next(t, steps[0]), steps[1..]);
    }
  }

  function Ancestor(procs: seq<Proc>, p: nat, n: nat): (a: int)
    decreases n
  {
    if n == 0 || p >= |procs| || procs[p].parent < 0 then p else Ancestor(procs, procs[p].parent, n - 1)
  }

  /** From any living or dead process the parent links lead up to init, in fewer steps than its pid. */
  lemma {:induction false} Descends(t: Table, p: nat) returns (n: nat)
    requires Family(t) && Pids(t) && p < NPROC && HasParent(t.procs[p].state)
    ensures n < t.procs[p].pid && Ancestor(t.procs, p, n) == INIT
    decreases t.procs[p].pid
  {
    assert PidOk(t, p) && Kept(t.procs, p);
    if p == INIT {
      n := 0;
    } else {
      n := Descends(t, t.procs[p].parent);
      n := n + 1;
    }
  }

  /** In every run no process is orphaned: its parent is alive, and its line of parents ends at init. */
  lemma NoOrphans(steps: seq<Step>, p: nat) returns (n: nat)
    requires Run(Boot(), steps) && p < NPROC && HasParent(Exec(Boot(), steps).procs[p].state)
    ensures var procs := Exec(Boot(), steps).procs;
      && 0 <= procs[p].parent < NPROC && Alive(procs[procs[p].parent].state)
      && Ancestor(procs, p, n) == INIT
  {
    BootKin();
    RunKin(Boot(), steps);
    assert Kept(Exec(Boot(), steps).procs, p);
    n := Descends(Exec(Boot(), steps), p);
  }

  /** Who goes to sleep in wait() in this step. */
  ghost function Fell(t: Table, step: Step): (s: set<nat>)
    requires Partition(t) && Enabled(t, step)
  {
    if step.WaitProc? && WaitOutcome(t, step.me).Sleeps? then {step.me} else {}
  }

  ghost function StillWaiting(t: Table, w: set<nat>, step: Step): (s: set<nat>)
    requires Partition(t) && Enabled(t, step)
  {
    set p | p in w + Fell(t, step) && p < NPROC && Next(t, step).procs[p].state.SLEEPING?
  }

  /** Those of `w`, asleep in wait() at `t`, and those who go to sleep in wait() during the run, who have slept ever since. */
  ghost function Waiting(t: Table, w: set<nat>, steps: seq<Step>): (s: set<nat>)
    requires Partition(t) && Run(t, steps)
    decreases |steps|
  {
    if steps == [] then w else Waiting(Next(t, steps[0]), StillWaiting(t, w, steps[0]), steps[1..])
  }

  /** A sleeper that sleeps on sleeps on the same channel. */
  lemma SleeperKeeps(t: Table, step: Step, p: nat)
    requires Partition(t) && Enabled(t, step) && p < NPROC && t.procs[p].state.SLEEPING? && Next(t, step).procs[p].state.SLEEPING?
    ensures Next(t, step).procs[p].chan == t.procs[p].chan
  {
    match step
    case ExitProc(me) =>
      AdoptingEffect(t, me);
      ExitEffect(t, me);
      assert Fostered(t, Adopting(t, me), p, me);
    case WaitProc(me, ticks) =>
      if WaitOutcome(t, me).Reaped? { var z := ReapEffect(t, me, ticks); }
    case Dispatch(level, ticks) => DispatchEffect(t, level, ticks);
    case Wake(c) => WakeupEffect(t, c);
    case Kill(pid) => var x, q := KillEffect(t, KillOrder(), pid);
    case Alloc(me) => AllocEffect(t, me);
    case _ =>
  }

  lemma FallsBlocked(t: Table, step: Step, p: nat)
    requires Partition(t) && Enabled(t, step) && p in Fell(t, step)
    ensures p < NPROC && Next(t, step).procs[p].state.SLEEPING? && Next(t, step).procs[p].chan == ProcChan(p)
  {
  }

  lemma {:induction false} WaitersBlocked(t: Table, w: set<nat>, steps: seq<Step>)
    requires Partition(t) && Run(t, steps) && forall p :: p in w ==> p < NPROC && Blocked(t.procs[p])
    ensures forall p :: p in Waiting(t, w, steps) ==> p < NPROC && Blocked(Exec(t, steps).procs[p])
    decreases |steps|
  {
    if steps != [] {
      var r := Next(t, steps[0]);
      var v := StillWaiting(t, w, steps[0]);
      forall p | p in v
        ensures Blocked(r.procs[p])
      {
        if p in Fell(t, steps[0]) { FallsBlocked(t, steps[0], p); } else { SleeperKeeps(t, steps[0], p); }
      }
      WaitersBlocked(r, v, steps[1..]);
    }
  }

  /** In every run a process that went to sleep in wait() and sleeps still has a child and no zombie child, and is not killed. */
  lemma NoLostWakeup(steps: seq<Step>, p: nat)
    requires Run(Boot(), steps) && p in Waiting(Boot(), {}, steps)
    ensures p < NPROC
    ensures var procs := Exec(Boot(), steps).procs; HasChild(procs, p) && !HasZombie(procs, p) && !procs[p].killed
  {
    BootKin();
    RunKin(Boot(), steps);
    WaitersBlocked(Boot(), {}, steps);
    assert WaitOk(Exec(Boot(), steps).procs, p);
  }

  /** And the exit of a child makes it ready. */
  lemma ExitEndsWait(steps: seq<Step>, c: nat)
    requires Run(Boot(), steps) && Enabled(Exec(Boot(), steps), ExitProc(c))
    ensures var t := Exec(Boot(), steps); t.procs[c].parent in Waiting(Boot(), {}, steps) ==>
      t.procs[c].parent < NPROC && Next(t, ExitProc(c)).procs[t.procs[c].parent].state.RUNNABLE?
  {
    var t := Exec(Boot(), steps);
    if t.procs[c].parent in Waiting(Boot(), {}, steps) {
      var p: nat := t.procs[c].parent;
      BootKin();
      RunKin(Boot(), steps);
      WaitersBlocked(Boot(), {}, steps);
      WaitersOwn(t.procs);
      ExitWakesParent(t, c);
      AdoptingEffect(t, c);
      ExitEffect(t, c);
      assert PidOk(t, c) && Kept(t.procs, c) && Fostered(t, Adopting(t, c), p, c);
    }
  }

  /** In every run two slots with the same pid are both free and were never given one. */
  lemma PidsUnique(steps: seq<Step>, p: nat, q: nat)
    requires Run(Boot(), steps) && p < NPROC && q < NPROC && p != q
    requires var procs := Exec(Boot(), steps).procs; procs[p].pid == procs[q].pid
    ensures var procs := Exec(Boot(), steps).procs; procs[p].state.UNUSED? && procs[q].state.UNUSED?
  {
    BootKin();
    RunKin(Boot(), steps);
    var t := Exec(Boot(), steps);
    assert Differ(t.procs, p, q) && PidOk(t, p) && PidOk(t, q);
  }

  // ---------------------------------------------------------------- lists against p->state

  /** Every list holds exactly the processes whose state and priority call for it. */
  ghost predicate Agree(t: Table)
    requires Partition(t)
  {
    forall l, p :: 0 <= l < NLISTS && 0 <= p < NPROC ==> (p in t.lists[l] <==> l == ListFor(t.procs[p]))
  }

  lemma AgreeExact(t: Table)
    requires Partition(t)
    ensures Agree(t) <==> t.leaked == {}
  {
    forall p | 0 <= p < NPROC
      ensures ListFor(t.procs[p]) < NLISTS && (p in t.lists[ListFor(t.procs[p])] <==> p !in t.leaked)
    {
      Home(t, p);
    }
    assert PartOpen(0);
    if t.leaked != {} {
      var p :| p in t.leaked;
      assert p !in t.lists[ListFor(t.procs[p])];
    }
  }

  lemma StepLeaks(t: Table, step: Step)
    requires Partition(t) && Enabled(t, step)
    ensures Next(t, step).leaked == t.leaked + if step.StackFail? then {t.forking[step.me]} else {}
  {
    if step.ExitProc? {
      AdoptingEffect(t, step.me);
      ExitEffect(t, step.me);
    } else if IsLocal(step) {
      var p, q := LocalEffect(t, step);
    }
  }

  lemma {:induction false} RunLeaks(t: Table, steps: seq<Step>)
    requires Partition(t) && Run(t, steps)
    ensures Exec(t, steps).leaked == {} <==> t.leaked == {} && forall i :: 0 <= i < |steps| ==> !steps[i].StackFail?
    decreases |steps|
  {
    if steps != [] {
      StepLeaks(t, steps[0]);
      RunLeaks(Next(t, steps[0]), steps[1..]);
      assert forall i :: 0 <= i < |steps| ==> steps[i] == if i == 0 then steps[0] else steps[1..][i - 1];
    }
  }

  /**
   List membership agrees with p->state at the end of a run if and only if no kernel-stack
   allocation failed in it: the guard CS33_P3P4 is never defined, so that branch alone sets the
   state of a slot without moving it.
   */
  lemma AgreementExact(steps: seq<Step>)
    requires Run(Boot(), steps)
    ensures Agree(Exec(Boot(), steps)) <==> forall i :: 0 <= i < |steps| ==> !steps[i].StackFail?
  {
    AgreeExact(Exec(Boot(), steps));
    RunLeaks(Boot(), steps);
  }

  /** A run that does hit the branch: init forks once and there is no page for the stack. */
  lemma AgreementFails()
    ensures Run(Boot(), [Dispatch(0, 0), Alloc(INIT), StackFail(INIT)])
    ensures !Agree(Exec(Boot(), [Dispatch(0, 0), Alloc(INIT), StackFail(INIT)]))
  {
    var t := Boot();
    var t1 := Next(t, Dispatch(0, 0));
    assert t1.lists[FREE] == t.lists[FREE];
    var t2 := Next(t1, Alloc(INIT));
    var t3 := Next(t2, StackFail(INIT));
    var steps := [Dispatch(0, 0), Alloc(INIT), StackFail(INIT)];
    assert steps[1..] == [Alloc(INIT), StackFail(INIT)] && steps[1..][1..] == [StackFail(INIT)];
    assert Run(t2, [StackFail(INIT)]);
    assert Run(t1, [Alloc(INIT), StackFail(INIT)]);
    AgreementExact(steps);
    assert steps[2].StackFail?;
  }
}
