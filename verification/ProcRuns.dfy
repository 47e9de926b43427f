/**
 What single steps of the process table do, wakeup, kill and exit first, and that every step keeps
 parents alive and forks apart.
 */
module ProcRuns {
  import opened StateLists
  import opened ProcSpec

  // ---------------------------------------------------------------- what single steps do

  /** A record as wakeup1 may leave it. */
  predicate Woken(q: Proc, r: Proc) {
    r == q || (q.state.SLEEPING? && r == q.(state := RUNNABLE))
  }

  /** wakeup1 moves the first sleeper on the channel, and no one else. */
  lemma WakeupEffect(t: Table, c: Chan)
    requires Partition(t)
    ensures var r := Wakeup(t, c); var s := t.lists[SLEEP]; var k := First(s, t.procs, ByChan(c));
      && r.forking == t.forking && r.leaked == t.leaked && r.nextpid == t.nextpid
      && (forall p :: 0 <= p < NPROC ==> Woken(t.procs[p], r.procs[p]))
      && (k == |s| ==> r == t)
      && (k < |s| ==> s[k] < NPROC && t.procs[s[k]].state.SLEEPING? && t.procs[s[k]].prio <= MAXPRIO)
      && (k < |s| ==> r.procs == t.procs[s[k] := t.procs[s[k]].(state := RUNNABLE)])
      && (k < |s| ==> var l := t.procs[s[k]].prio;
            r.lists == t.lists[SLEEP := Without(s, k)][l := t.lists[l] + [s[k]]])
  {
    var s := t.lists[SLEEP];
    var k := First(s, t.procs, ByChan(c));
    if k < |s| {
      StateOf(t, SLEEP, k);
      Resident(t, SLEEP, k);
      RemoveAt(s, k);
    }
  }

  /** Someone asleep on `c`. */
  predicate SleepsOn(t: Table, c: Chan, k: nat)
    requires |t.lists| == NLISTS
  {
    k < |t.lists[SLEEP]| && t.lists[SLEEP][k] < |t.procs| && t.procs[t.lists[SLEEP][k]].chan == c
  }

  /** After wakeup1 the remaining sleepers on the channel are those after the first. */
  lemma StillAsleep(t: Table, c: Chan, k: nat, i: nat)
    requires Partition(t) && k == First(t.lists[SLEEP], t.procs, ByChan(c)) < |t.lists[SLEEP]|
    ensures SleepsOn(Wakeup(t, c), c, i) <==> i >= k && SleepsOn(t, c, i + 1)
  {
    var s := t.lists[SLEEP];
    WakeupEffect(t, c);
    assert Wakeup(t, c).lists[SLEEP] == Without(s, k);
    if i < |s| - 1 {
      WithoutAt(s, k, i);
      Resident(t, SLEEP, i);
      Resident(t, SLEEP, i + 1);
    }
  }

  /**
   The comment on wakeup promises to wake all sleepers on the channel. The list version does that
   exactly when there is at most one.
   */
  lemma WakesAllExact(t: Table, c: Chan)
    requires Partition(t)
    ensures (forall k: nat :: !SleepsOn(Wakeup(t, c), c, k)) <==>
            (forall i: nat, j: nat :: SleepsOn(t, c, i) && SleepsOn(t, c, j) ==> i == j)
  {
    var r, s := Wakeup(t, c), t.lists[SLEEP];
    var k := First(s, t.procs, ByChan(c));
    WakeupEffect(t, c);
    forall i | 0 <= i < |s| ensures s[i] < NPROC { Resident(t, SLEEP, i); }
    assert forall i: nat :: SleepsOn(t, c, i) ==> i >= k;
    if k < |s| {
      assert SleepsOn(t, c, k);
      forall i: nat ensures SleepsOn(r, c, i) <==> i >= k && SleepsOn(t, c, i + 1) { StillAsleep(t, c, k, i); }
      if j: nat :| SleepsOn(t, c, j) && j != k {
        assert SleepsOn(r, c, j - 1);
      }
    }
  }

  // ---------------------------------------------------------------- parentage

  predicate HasParent(s: ProcState) {
    Alive(s) || s.ZOMBIE?
  }

  /** Every process has a living parent, init its own; an unused slot has none. */
  ghost predicate Parents(procs: seq<Proc>) {
    && |procs| == NPROC
    && Alive(procs[INIT].state) && procs[INIT].parent == INIT
    && (forall p :: 0 <= p < NPROC ==> Kept(procs, p))
  }

  predicate Kept(procs: seq<Proc>, p: nat)
    requires p < |procs|
  {
    && (HasParent(procs[p].state) ==> 0 <= procs[p].parent < |procs| && Alive(procs[procs[p].parent].state))
    && (procs[p].state.UNUSED? ==> procs[p].parent == NULL)
  }

  ghost predicate Filled(forking: map<nat, nat>, p: nat) {
    exists f :: f in forking && forking[f] == p
  }

  /** An embryo is the slot of exactly one process that is inside fork(). */
  ghost predicate Forks(procs: seq<Proc>, forking: map<nat, nat>) {
    && |procs| == NPROC
    && (forall f :: f in forking ==>
          && f < NPROC && (procs[f].state.RUNNING? || procs[f].state.RUNNABLE?) && forking[f] < NPROC
          && procs[forking[f]].state.EMBRYO?
          && (procs[forking[f]].parent == NULL || procs[forking[f]].parent == f))
    && (forall f, g :: f in forking && g in forking && forking[f] == forking[g] ==> f == g)
    && (forall p :: 0 <= p < NPROC && procs[p].state.EMBRYO? ==> Filled(forking, p))
  }

  ghost predicate Family(t: Table) {
    Parents(t.procs) && Forks(t.procs, t.forking)
  }

  /** One record changed: the dead have no children, so only the new record itself must be in order. */
  lemma ParentsOne(procs: seq<Proc>, p: nat, q: Proc)
    requires Parents(procs) && p < NPROC
    requires Alive(procs[p].state) ==> Alive(q.state)
    requires p == INIT ==> q.parent == INIT
    requires HasParent(q.state) ==> 0 <= q.parent < NPROC && Alive((if q.parent == p then q else procs[q.parent]).state)
    requires q.state.UNUSED? ==> q.parent == NULL
    ensures Parents(procs[p := q])
  {
    var r := procs[p := q];
    forall x | 0 <= x < NPROC ensures Kept(r, x) { assert Kept(procs, x); }
  }

  lemma ForksOne(procs: seq<Proc>, forking: map<nat, nat>, p: nat, q: Proc)
    requires Forks(procs, forking) && p < NPROC
    requires procs[p].state.EMBRYO? <==> q.state.EMBRYO?
    requires procs[p].state.EMBRYO? ==> q.parent == procs[p].parent || (q.parent in forking && forking[q.parent] == p)
    requires p in forking ==> q.state.RUNNING? || q.state.RUNNABLE?
    ensures Forks(procs[p := q], forking)
  {
  }

  lemma ForksAdd(procs: seq<Proc>, forking: map<nat, nat>, me: nat, p: nat, q: Proc)
    requires Forks(procs, forking) && p < NPROC && me < NPROC && me !in forking && procs[me].state.RUNNING?
    requires procs[p].state.UNUSED? && q.state.EMBRYO? && q.parent == NULL
    ensures Forks(procs[p := q], forking[me := p])
  {
    var fs, ps := forking[me := p], procs[p := q];
    forall x | 0 <= x < NPROC && ps[x].state.EMBRYO?
      ensures Filled(fs, x)
    {
      if x == p {
        assert me in fs && fs[me] == p;
      } else {
        assert Filled(forking, x);
        var f :| f in forking && forking[f] == x;
        assert f in fs && fs[f] == x;
      }
    }
  }

  lemma ForksDrop(procs: seq<Proc>, forking: map<nat, nat>, me: nat, q: Proc)
    requires Forks(procs, forking) && me in forking && !q.state.EMBRYO?
    ensures forking[me] < NPROC && Forks(procs[forking[me] := q], forking - {me})
  {
    var fs, p := forking - {me}, forking[me];
    var ps := procs[p := q];
    forall x | 0 <= x < NPROC && ps[x].state.EMBRYO?
      ensures Filled(fs, x)
    {
      assert Filled(forking, x);
      var f :| f in forking && forking[f] == x;
      assert f in fs && fs[f] == x;
    }
  }

  lemma AllocFamily(t: Table, me: nat)
    requires Partition(t) && Family(t) && Enabled(t, Alloc(me))
    ensures Family(Next(t, Alloc(me)))
  {
    var p := t.lists[FREE][0];
    StateOf(t, FREE, 0);
    var q := t.procs[p].(state := EMBRYO, pid := t.nextpid);
    assert Kept(t.procs, p);
    ParentsOne(t.procs, p, q);
    ForksAdd(t.procs, t.forking, me, p, q);
  }

  lemma ForkFamily(t: Table, step: Step)
    requires Partition(t) && Family(t) && Enabled(t, step)
    requires step.StackFail? || step.StackOk? || step.ForkFail? || step.SetParent? || step.Publish?
    ensures Family(Next(t, step))
  {
    var me := step.me;
    var p := t.forking[me];
    var r := Next(t, step);
    var q := r.procs[p];
    Home(t, p);
    assert r.procs == t.procs[p := q];
    ParentsOne(t.procs, p, q);
    if step.StackOk? || step.SetParent? {
      ForksOne(t.procs, t.forking, p, q);
    } else {
      ForksDrop(t.procs, t.forking, me, q);
    }
  }

  /** A living process stays alive, keeps its parent, and does not fall asleep inside fork(). */
  lemma AliveFamily(t: Table, r: Table, p: nat, q: Proc)
    requires Family(t) && p < NPROC && r.procs == t.procs[p := q] && r.forking == t.forking
    requires q.parent == t.procs[p].parent
    requires q.state == t.procs[p].state || (Alive(t.procs[p].state) && Alive(q.state) && (p in t.forking ==> !q.state.SLEEPING?))
    ensures Family(r)
  {
    assert Kept(t.procs, p);
    ParentsOne(t.procs, p, q);
    ForksOne(t.procs, t.forking, p, q);
  }

  /** kill() marks at most one process, waking it if it sleeps. */
  lemma {:induction false} KillEffect(t: Table, ls: seq<nat>, pid: nat) returns (p: nat, q: Proc)
    requires Partition(t) && forall i :: 0 <= i < |ls| ==> ls[i] < NLISTS
    ensures var r := KillIn(t, ls, pid);
      && r.forking == t.forking && r.leaked == t.leaked && r.nextpid == t.nextpid
      && p < NPROC && r.procs == t.procs[p := q] && q.parent == t.procs[p].parent && q.pid == t.procs[p].pid
      && Woken(t.procs[p], q.(killed := t.procs[p].killed)) && (q.state.SLEEPING? ==> q.killed == t.procs[p].killed)
      && (r == t || (q.killed && t.procs[p].pid == pid))
      && (forall l :: 0 <= l <= MAXPRIO ==> t.lists[l] <= r.lists[l])
    decreases |ls|
  {
    p, q := 0, t.procs[0];
    if ls != [] {
      var s := t.lists[ls[0]];
      var k := First(s, t.procs, ByPid(pid));
      if k == |s| {
        p, q := KillEffect(t, ls[1..], pid);
      } else {
        Resident(t, ls[0], k);
        p := s[k];
        Home(t, p);
        q := KillIn(t, ls, pid).procs[p];
        if ls[0] == SLEEP { StateOf(t, SLEEP, k); }
      }
    }
  }

  lemma AdoptZombieEffect(t: Table, z: nat, me: nat)
    requires Partition(t)
    ensures var r := AdoptZombie(t, z, me);
      && r.forking == t.forking && r.leaked == t.leaked && r.nextpid == t.nextpid
      && (forall p :: 0 <= p < NPROC ==>
            && r.procs[p].parent == (if p == z && t.procs[p].parent == me then INIT else t.procs[p].parent)
            && Woken(t.procs[p], r.procs[p].(parent := t.procs[p].parent)))
      && (forall l :: 0 <= l <= MAXPRIO ==> t.lists[l] <= r.lists[l])
  {
    if z < NPROC && t.procs[z].parent == me {
      var procs := t.procs[z := t.procs[z].(parent := INIT)];
      RecordsKeep(t, procs);
      WakeupEffect(t.(procs := procs), ProcChan(INIT));
    }
  }

  lemma {:induction false} AdoptZombiesEffect(t: Table, zs: seq<nat>, me: nat)
    requires Partition(t) && me != INIT && me < NPROC
    ensures var r := AdoptZombies(t, zs, me);
      && r.forking == t.forking && r.leaked == t.leaked && r.nextpid == t.nextpid
      && (forall p :: 0 <= p < NPROC ==>
            && r.procs[p].parent == (if p in zs && t.procs[p].parent == me then INIT else t.procs[p].parent)
            && Woken(t.procs[p], r.procs[p].(parent := t.procs[p].parent)))
      && (forall l :: 0 <= l <= MAXPRIO ==> t.lists[l] <= r.lists[l])
    decreases |zs|
  {
    if zs != [] {
      assert zs == [zs[0]] + zs[1..];
      AdoptZombieEffect(t, zs[0], me);
      AdoptZombiesEffect(AdoptZombie(t, zs[0], me), zs[1..], me);
    }
  }

  /** The parent `me` leaves to process `p`: init adopts it, wherever wait() could see it. */
  function Foster(t: Table, p: nat, me: nat): (parent: int)
    requires p < |t.procs|
  {
    if t.procs[p].parent == me && (!t.procs[p].state.UNUSED? || p in t.leaked) then INIT else t.procs[p].parent
  }

  lemma FosterWalked(t: Table, p: nat, me: nat)
    requires Partition(t) && p < NPROC
    ensures Foster(t, p, me) ==
      if t.procs[p].parent == me && (Walks(ListOf(t, p)) || ListOf(t, p) == ZOMBIES) then INIT else t.procs[p].parent
    ensures p in t.lists[ZOMBIES] <==> ListOf(t, p) == ZOMBIES
  {
    Home(t, p);
  }

  predicate Fostered(t: Table, u: Table, p: nat, me: nat)
    requires p < |t.procs| && p < |u.procs|
  {
    u.procs[p].parent == Foster(t, p, me) && Woken(t.procs[p], u.procs[p].(parent := t.procs[p].parent))
  }

  lemma AdoptingEffect(t: Table, me: nat)
    requires Partition(t) && me < NPROC && me != INIT
    ensures var r := Adopting(t, me);
      && r.forking == t.forking && r.leaked == t.leaked && r.nextpid == t.nextpid
      && (forall p :: 0 <= p < NPROC ==> Fostered(t, r, p, me))
      && (forall l :: 0 <= l <= MAXPRIO ==> t.lists[l] <= r.lists[l])
  {
    var t1 := Wakeup(t, ParentChan(t.procs[me].parent));
    WakeupEffect(t, ParentChan(t.procs[me].parent));
    var t2 := Adopt(t1, WalkedLists(), me);
    var r := AdoptZombies(t2, t2.lists[ZOMBIES], me);
    AdoptZombiesEffect(t2, t2.lists[ZOMBIES], me);
    forall p | 0 <= p < NPROC
      ensures Fostered(t, r, p, me)
    {
      FosterWalked(t1, p, me);
      assert Foster(t1, p, me) == Foster(t, p, me);
      assert t2.procs[p] == if Walks(ListOf(t1, p)) && t1.procs[p].parent == me then t1.procs[p].(parent := INIT) else t1.procs[p];
    }
  }

  /** Fostering all children of `me` keeps the family in order, and leaves `me` without children. */
  lemma FosterParents(t: Table, u: Table, me: nat)
    requires Parents(t.procs) && me < NPROC && me != INIT && |u.procs| == NPROC
    requires forall p :: 0 <= p < NPROC ==> Fostered(t, u, p, me)
    ensures Parents(u.procs) && forall p :: 0 <= p < NPROC ==> u.procs[p].parent != me
  {
    forall p | 0 <= p < NPROC
      ensures u.procs[p].parent != me && Kept(u.procs, p)
    {
      assert Fostered(t, u, p, me) && Kept(t.procs, p);
      if HasParent(u.procs[p].state) {
        assert Fostered(t, u, Foster(t, p, me), me);
      }
    }
    assert Fostered(t, u, INIT, me);
  }

  lemma FosterForks(t: Table, u: Table, me: nat)
    requires Forks(t.procs, t.forking) && me !in t.forking && |u.procs| == NPROC && u.forking == t.forking
    requires forall p :: 0 <= p < NPROC ==> Fostered(t, u, p, me)
    ensures Forks(u.procs, u.forking)
  {
    forall p | 0 <= p < NPROC
      ensures u.procs[p].state.EMBRYO? <==> t.procs[p].state.EMBRYO?
      ensures t.procs[p].state.RUNNING? || t.procs[p].state.RUNNABLE? ==> u.procs[p].state == t.procs[p].state
      ensures t.procs[p].state.EMBRYO? ==> u.procs[p].parent == t.procs[p].parent
    {
      assert Fostered(t, u, p, me);
      assert t.procs[p].state.EMBRYO? ==> Filled(t.forking, p);
    }
  }

  /** A process without children may die. */
  lemma DeathFamily(t: Table, me: nat, r: Table)
    requires Family(t) && me < NPROC && me != INIT && me !in t.forking && t.procs[me].state.RUNNING?
    requires forall p :: 0 <= p < NPROC ==> t.procs[p].parent != me
    requires r.procs == t.procs[me := t.procs[me].(state := ZOMBIE)] && r.forking == t.forking
    ensures Family(r)
  {
    ForksOne(t.procs, t.forking, me, t.procs[me].(state := ZOMBIE));
    forall p | 0 <= p < NPROC ensures Kept(r.procs, p) { assert Kept(t.procs, p); }
  }

  lemma ExitEffect(t: Table, me: nat)
    requires Partition(t) && Enabled(t, ExitProc(me))
    ensures var u, r := Adopting(t, me), Next(t, ExitProc(me));
      && u.procs[me].state.RUNNING? && r.procs == u.procs[me := u.procs[me].(state := ZOMBIE)]
      && r.forking == u.forking && r.leaked == u.leaked && r.nextpid == u.nextpid
      && (forall l :: 0 <= l <= MAXPRIO ==> r.lists[l] == u.lists[l])
  {
    AdoptingEffect(t, me);
    assert Fostered(t, Adopting(t, me), me, me);
    Home(Adopting(t, me), me);
  }

  lemma ExitFamily(t: Table, me: nat)
    requires Partition(t) && Family(t) && Enabled(t, ExitProc(me))
    ensures Family(Next(t, ExitProc(me)))
  {
    var u := Adopting(t, me);
    AdoptingEffect(t, me);
    ExitEffect(t, me);
    FosterParents(t, u, me);
    FosterForks(t, u, me);
    DeathFamily(u, me, Next(t, ExitProc(me)));
  }

  lemma WaitFamily(t: Table, me: nat, ticks: nat)
    requires Partition(t) && Family(t) && Enabled(t, WaitProc(me, ticks))
    ensures Family(Next(t, WaitProc(me, ticks)))
  {
    var r := Next(t, WaitProc(me, ticks));
    match WaitOutcome(t, me)
    case NoKids =>
    case Sleeps => AliveFamily(t, r, me, r.procs[me]);
    case Reaped(_) =>
      var k := First(t.lists[ZOMBIES], t.procs, ByParent(me));
      StateOf(t, ZOMBIES, k);
      var z := t.lists[ZOMBIES][k];
      ParentsOne(t.procs, z, r.procs[z]);
      ForksOne(t.procs, t.forking, z, r.procs[z]);
  }

  lemma PromoteFamily(t: Table)
    requires Partition(t) && Family(t)
    ensures Family(Promote(t))
  {
    var r := Promote(t);
    assert forall p :: 0 <= p < NPROC ==> r.procs[p].parent == t.procs[p].parent && r.procs[p].state == t.procs[p].state;
    forall p | 0 <= p < NPROC ensures Kept(r.procs, p) { assert Kept(t.procs, p); }
  }

  /** Asleep in wait(). */
  predicate Blocked(q: Proc) {
    q.state.SLEEPING? && q.chan.ProcChan?
  }

  /** A record as a step may leave it that is neither birth nor death: no one is put to sleep in wait(). */
  predicate Local(q: Proc, r: Proc) {
    && r.parent == q.parent && r.pid == q.pid
    && (r.state == q.state || (Alive(q.state) && Alive(r.state)))
    && (Blocked(r) ==> Blocked(q) && r.chan == q.chan && r.killed == q.killed)
  }

  predicate IsLocal(step: Step) {
    step.Dispatch? || step.Yield? || step.SleepOn? || step.Tidy? || step.Wake? || step.Kill? || step.SetPrio?
  }

  /** The steps that change one living process. */
  lemma LocalEffect(t: Table, step: Step) returns (p: nat, q: Proc)
    requires Partition(t) && Enabled(t, step) && IsLocal(step)
    ensures var r := Next(t, step);
      && p < NPROC && r.procs == t.procs[p := q] && Local(t.procs[p], q)
      && (p in t.forking && q.state.SLEEPING? ==> t.procs[p].state.SLEEPING?)
      && r.forking == t.forking && r.leaked == t.leaked && r.nextpid == t.nextpid
  {
    var r := Next(t, step);
    match step
    case Dispatch(level, ticks) =>
      StateOf(t, level, 0);
      p := t.lists[level][0];
      q := r.procs[p];
    case Wake(c) =>
      WakeupEffect(t, c);
      var s := t.lists[SLEEP];
      var k := First(s, t.procs, ByChan(c));
      p := if k < |s| then s[k] else 0;
      q := r.procs[p];
    case Kill(pid) =>
      p, q := KillEffect(t, KillOrder(), pid);
    case SetPrio(x, _) => p, q := x, r.procs[x];
    case Yield(me, _) => p, q := me, r.procs[me];
    case SleepOn(me, _, _) => p, q := me, r.procs[me];
    case Tidy(me) => p, q := me, r.procs[me];
  }

  lemma StepFamily(t: Table, step: Step)
    requires Partition(t) && Family(t) && Enabled(t, step)
    ensures Family(Next(t, step))
  {
    if step.Alloc? {
      AllocFamily(t, step.me);
    } else if step.ExitProc? {
      ExitFamily(t, step.me);
    } else if step.WaitProc? {
      WaitFamily(t, step.me, step.ticks);
    } else if step.PromoteAll? {
      PromoteFamily(t);
    } else if IsLocal(step) {
      var p, q := LocalEffect(t, step);
      AliveFamily(t, Next(t, step), p, q);
    } else {
      ForkFamily(t, step);
    }
  }
}
