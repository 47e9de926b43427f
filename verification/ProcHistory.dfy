/**
 What whole runs add up to: every pid is reaped at most once and zombies are neither lost nor made up,
 kill and exit change exactly whom they should, and budget and level of a process follow from when it
 was dispatched and when it stopped.
 */
module ProcHistory {
  import opened StateLists
  import opened ProcSpec
  import opened ProcRuns
  import opened ProcEffects
  import opened ProcKin

  // ---------------------------------------------------------------- exit and kill, exactly

  /** With everyone in wait() asleep on itself, a wakeup on a process wakes that process or no one. */
  lemma WakeupOwn(t: Table, x: nat)
    requires Partition(t) && OwnChans(t.procs) && x < NPROC
    ensures var r := Wakeup(t, ProcChan(x));
      && r.procs == (if Blocked(t.procs[x]) then t.procs[x := t.procs[x].(state := RUNNABLE)] else t.procs)
      && OwnChans(r.procs) && r.lists[ZOMBIES] == t.lists[ZOMBIES]
  {
    WakeupEffect(t, ProcChan(x));
    var s := t.lists[SLEEP];
    var k := First(s, t.procs, ByChan(ProcChan(x)));
    if k < |s| { assert Blocked(t.procs[s[k]]); }
    if Blocked(t.procs[x]) { Home(t, x); }
  }

  /** The zombie loop of exit: the children among `zs` go to init, and init is awake if there was one. */
  lemma {:induction false} AdoptZombiesExact(t: Table, zs: seq<nat>, me: nat, p: nat)
    requires Partition(t) && OwnChans(t.procs) && me != INIT && me < NPROC && p < NPROC && forall i :: 0 <= i < |zs| ==> zs[i] < NPROC
    ensures var r := AdoptZombies(t, zs, me); var found := exists i :: 0 <= i < |zs| && t.procs[zs[i]].parent == me;
      && r.procs[p] == t.procs[p].(parent := if p in zs && t.procs[p].parent == me then INIT else t.procs[p].parent,
                                   state := if found && p == INIT && Blocked(t.procs[p]) then RUNNABLE else t.procs[p].state)
      && r.lists[ZOMBIES] == t.lists[ZOMBIES]
    decreases |zs|
  {
    if zs != [] {
      assert zs == [zs[0]] + zs[1..];
      if t.procs[zs[0]].parent == me {
        var procs := t.procs[zs[0] := t.procs[zs[0]].(parent := INIT)];
        RecordsKeep(t, procs);
        var u := t.(procs := procs);
        WakeupOwn(u, INIT);
        AdoptZombiesExact(Wakeup(u, ProcChan(INIT)), zs[1..], me, p);
      } else {
        AdoptZombiesExact(t, zs[1..], me, p);
      }
    }
  }

  /** Who is awake after process `me` has exited: its parent, and init if it inherits a zombie. */
  ghost predicate Roused(t: Table, me: nat, p: nat)
    requires |t.procs| == NPROC && me < NPROC && p < NPROC
  {
    Blocked(t.procs[p]) && (p == t.procs[me].parent || (p == INIT && HasZombie(t.procs, me)))
  }

  lemma AdoptingExact(t: Table, me: nat, p: nat)
    requires Partition(t) && Kin(t) && Enabled(t, ExitProc(me)) && p < NPROC
    ensures var u := Adopting(t, me);
      && u.procs[p] == t.procs[p].(parent := Foster(t, p, me), state := if Roused(t, me, p) then RUNNABLE else t.procs[p].state)
      && u.lists[ZOMBIES] == t.lists[ZOMBIES]
  {
    WaitersOwn(t.procs);
    assert Kept(t.procs, me);
    var x: nat := t.procs[me].parent;
    WakeupOwn(t, x);
    var t1 := Wakeup(t, ProcChan(x));
    AdoptQuiet(t1, WalkedLists(), me);
    var t2 := Adopt(t1, WalkedLists(), me);
    var zs := t2.lists[ZOMBIES];
    forall i | 0 <= i < |zs| ensures zs[i] < NPROC { Resident(t2, ZOMBIES, i); }
    AdoptZombiesExact(t2, zs, me, p);
    AdoptedOne(t1, t2, me, p);
    ZombiesListed(t1, t2, me);
    ZombiesSame(t.procs, t1.procs, me, x);
  }

  /** A child is init's whether it is found on one of the lists walked or on the zombie list. */
  lemma AdoptedOne(t1: Table, t2: Table, me: nat, p: nat)
    requires Partition(t1) && me < NPROC && me != INIT && p < NPROC && t2 == Adopt(t1, WalkedLists(), me)
    ensures t2.procs[p] == t1.procs[p].(parent := t2.procs[p].parent)
    ensures Foster(t1, p, me) == if p in t2.lists[ZOMBIES] && t2.procs[p].parent == me then INIT else t2.procs[p].parent
  {
    FosterWalked(t1, p, me);
  }

  lemma ZombiesSame(t: seq<Proc>, r: seq<Proc>, me: nat, x: nat)
    requires |t| == |r| && x < |t| && r == t[x := r[x]] && r[x] == t[x].(state := r[x].state) && !t[x].state.ZOMBIE? && !r[x].state.ZOMBIE?
    ensures HasZombie(r, me) <==> HasZombie(t, me)
  {
    if c :| 0 <= c < |t| && t[c].parent == me && t[c].state.ZOMBIE? { assert r[c] == t[c]; }
    if c :| 0 <= c < |r| && r[c].parent == me && r[c].state.ZOMBIE? { assert t[c] == r[c]; }
  }

  /** The zombie children are what exit finds on the zombie list once the others are adopted. */
  lemma ZombiesListed(t1: Table, t2: Table, me: nat)
    requires Partition(t1) && me < NPROC && me != INIT && t2 == Adopt(t1, WalkedLists(), me)
    ensures (exists i :: 0 <= i < |t2.lists[ZOMBIES]| && t2.lists[ZOMBIES][i] < NPROC && t2.procs[t2.lists[ZOMBIES][i]].parent == me)
       <==> HasZombie(t1.procs, me)
  {
    var zs := t2.lists[ZOMBIES];
    if i :| 0 <= i < |zs| && zs[i] < NPROC && t2.procs[zs[i]].parent == me { StateOf(t1, ZOMBIES, i); }
    if z :| 0 <= z < NPROC && t1.procs[z].parent == me && t1.procs[z].state.ZOMBIE? {
      Home(t1, z);
      var i :| 0 <= i < |zs| && zs[i] == z;
      assert t2.procs[zs[i]].parent == me;
    }
  }

  /**
   exit, to the last record: the process is a zombie, last on that list; its children, dead or alive, are
   init's; of those asleep in wait() exactly the parent is awake, and init if it inherits a zombie; all
   else is as it was.
   */
  lemma ExitExact(t: Table, me: nat, p: nat)
    requires Partition(t) && Kin(t) && Enabled(t, ExitProc(me)) && p < NPROC
    ensures var r := Next(t, ExitProc(me));
      && r.procs[p] == t.procs[p].(parent := Foster(t, p, me),
           state := if p == me then ZOMBIE else if Roused(t, me, p) then RUNNABLE else t.procs[p].state)
      && r.lists[ZOMBIES] == t.lists[ZOMBIES] + [me] && r.nextpid == t.nextpid && r.forking == t.forking && r.leaked == t.leaked
  {
    AdoptingExact(t, me, p);
    AdoptingExact(t, me, me);
    AdoptingEffect(t, me);
    ExitEffect(t, me);
    var u := Adopting(t, me);
    Home(u, me);
    GoEffect(u, me, false, u.procs[me].(state := ZOMBIE));
  }

  /** kill of a pid in use: that process is marked, and made ready if it slept. */
  lemma KillExact(t: Table, p: nat)
    requires Partition(t) && Pids(t) && p < NPROC && t.procs[p].pid > 0 && Walks(ListOf(t, p))
    ensures Killed(t, Next(t, Kill(t.procs[p].pid)), p)
  {
    OrderHas(ListOf(t, p));
    PidAlone(t, p);
    KillInEffect(t, KillOrder(), p);
    assert Next(t, Kill(t.procs[p].pid)) == KillIn(t, KillOrder(), t.procs[p].pid);
  }

  lemma PidAlone(t: Table, p: nat)
    requires Pids(t) && p < NPROC && t.procs[p].pid > 0
    ensures forall x :: 0 <= x < NPROC && x != p ==> t.procs[x].pid != t.procs[p].pid
  {
    forall x | 0 <= x < NPROC && x != p ensures t.procs[x].pid != t.procs[p].pid { assert Differ(t.procs, x, p); }
  }

  /** kill of a pid that no one on the lists it walks has does nothing. */
  lemma KillMisses(t: Table, pid: nat)
    requires Partition(t) && forall p :: 0 <= p < NPROC && Walks(ListOf(t, p)) ==> t.procs[p].pid != pid
    ensures Next(t, Kill(pid)) == t
  {
    KillInNone(t, KillOrder(), pid);
  }

  // ---------------------------------------------------------------- reaping

  /** The pids that wait() returns in the run, in order. */
  ghost function Reaps(t: Table, steps: seq<Step>): (s: seq<nat>)
    requires Partition(t) && Run(t, steps)
    decreases |steps|
  {
    if steps == [] then [] else Reap(t, steps[0]) + Reaps(Next(t, steps[0]), steps[1..])
  }

  ghost function Reap(t: Table, step: Step): (s: seq<nat>)
    requires Partition(t) && Enabled(t, step)
  {
    if step.WaitProc? && WaitOutcome(t, step.me).Reaped? then [WaitOutcome(t, step.me).pid] else []
  }

  /** A pid that was given out and that no slot has any more. */
  predicate Gone(t: Table, x: nat) {
    0 < x < t.nextpid && forall p :: 0 <= p < |t.procs| ==> t.procs[p].pid != x
  }

  /** No slot gets a pid but a new one. */
  lemma PidsOnly(t: Table, step: Step, p: nat)
    requires Partition(t) && Enabled(t, step) && p < NPROC
    ensures var r := Next(t, step);
      && |r.procs| == NPROC && r.nextpid >= t.nextpid
      && (r.procs[p].pid == t.procs[p].pid || r.procs[p].pid == 0 || r.procs[p].pid == t.nextpid < r.nextpid)
  {
    match step
    case ExitProc(me) =>
      AdoptingEffect(t, me);
      ExitEffect(t, me);
      assert Fostered(t, Adopting(t, me), p, me);
    case WaitProc(me, ticks) =>
      if WaitOutcome(t, me).Reaped? { var z := ReapEffect(t, me, ticks); }
    case Alloc(me) => AllocEffect(t, me);
    case PromoteAll => PromoteEffect(t, p, 0);
    case _ =>
      if IsLocal(step) { var x, q := LocalEffect(t, step); }
  }

  lemma StepGone(t: Table, step: Step, x: nat)
    requires Partition(t) && Enabled(t, step) && Gone(t, x)
    ensures Gone(Next(t, step), x)
  {
    PidsOnly(t, step, 0);
    forall p | 0 <= p < NPROC ensures Next(t, step).procs[p].pid != x { PidsOnly(t, step, p); }
  }

  /** What is reaped has a pid of its own, and then no one has it. */
  lemma ReapGone(t: Table, step: Step)
    requires Partition(t) && Pids(t) && Enabled(t, step) && Reap(t, step) != []
    ensures Reap(t, step)[0] > 0 && Gone(Next(t, step), Reap(t, step)[0]) && !Gone(t, Reap(t, step)[0])
  {
    var z := ReapEffect(t, step.me, step.ticks);
    assert PidOk(t, z);
    forall p | 0 <= p < NPROC && p != z ensures t.procs[p].pid != t.procs[z].pid { assert Differ(t.procs, p, z); }
  }

  lemma {:induction false} NeverAgain(t: Table, steps: seq<Step>, x: nat)
    requires Partition(t) && Kin(t) && Run(t, steps) && Gone(t, x)
    ensures x !in Reaps(t, steps)
    decreases |steps|
  {
    if steps != [] {
      StepKin(t, steps[0]);
      StepGone(t, steps[0], x);
      if Reap(t, steps[0]) != [] { ReapGone(t, steps[0]); }
      NeverAgain(Next(t, steps[0]), steps[1..], x);
    }
  }

  lemma StepKin(t: Table, step: Step)
    requires Partition(t) && Kin(t) && Enabled(t, step)
    ensures Kin(Next(t, step))
  {
    StepFamily(t, step);
    StepPids(t, step);
    StepWaits(t, step);
  }

  lemma {:induction false} ReapsDistinct(t: Table, steps: seq<Step>)
    requires Partition(t) && Kin(t) && Run(t, steps)
    ensures Distinct(Reaps(t, steps))
    decreases |steps|
  {
    if steps != [] {
      var r, rest := Next(t, steps[0]), Reaps(Next(t, steps[0]), steps[1..]);
      StepKin(t, steps[0]);
      ReapsDistinct(r, steps[1..]);
      if Reap(t, steps[0]) != [] {
        ReapGone(t, steps[0]);
        NeverAgain(r, steps[1..], Reap(t, steps[0])[0]);
        assert forall i :: 0 <= i < |rest| ==> rest[i] in rest;
      }
    }
  }

  /** In every run no pid is reaped twice. */
  lemma ReapedOnce(steps: seq<Step>)
    requires Run(Boot(), steps)
    ensures Distinct(Reaps(Boot(), steps))
  {
    BootKin();
    ReapsDistinct(Boot(), steps);
  }

  // ---------------------------------------------------------------- budgets and levels

  lemma StepBudgets(t: Table, step: Step)
    requires Partition(t) && Budgets(t) && Enabled(t, step)
    ensures Budgets(Next(t, step))
  {
    var r := Next(t, step);
    forall p | 0 <= p < NPROC
      ensures r.procs[p].budget <= MAXBUDG
    {
      StepRecord(t, step, p);
    }
  }

  /** The process stops running in this step. */
  ghost predicate Stops(t: Table, step: Step, p: nat)
    requires Partition(t)
  {
    || (step.Yield? && step.me == p) || (step.SleepOn? && step.me == p)
    || (step.WaitProc? && step.me == p && p < NPROC && WaitOutcome(t, p).Sleeps?)
  }

  /** The level that this step gives the process along with a full budget, or -1. */
  ghost function Resets(t: Table, step: Step, p: nat, level: nat): (l: int)
    requires Partition(t) && Enabled(t, step) && p < NPROC
  {
    if step.PromoteAll? && Alive(t.procs[p].state) then if level == 0 then 0 else level - 1
    else if step.SetPrio? && step.p == p then step.prio
    else if (step.StackOk? || step.Publish?) && t.forking[step.me] == p then 0
    else -1
  }

  /** What an observer of the steps knows of a process: the ticks it has run since the last reset, when it was dispatched, its level. */
  datatype Clock = Clock(used: nat, since: nat, level: nat)

  /** The observer's account of one step. Ticks are counted modulo 2^32, as the code does. */
  ghost function Tick(t: Table, c: Clock, step: Step, p: nat): (r: Clock)
    requires Partition(t) && Enabled(t, step) && p < NPROC
  {
    if step.Dispatch? && t.lists[step.level][0] == p then c.(since := step.ticks)
    else if Stops(t, step, p) then
      var used := (c.used + (step.ticks - c.since)) % WORD;
      if used > MAXBUDG then Clock(0, c.since, if c.level == MAXPRIO then MAXPRIO else c.level + 1) else c.(used := used)
    else if Resets(t, step, p, c.level) >= 0 then Clock(0, c.since, Resets(t, step, p, c.level))
    else c
  }

  /** The record says what the observer knows. */
  predicate Told(t: Table, c: Clock, p: nat)
    requires p < |t.procs|
  {
    t.procs[p].budget == MAXBUDG - c.used && t.procs[p].ticksIn == c.since && t.procs[p].prio == c.level
  }

  /** Dispatching notes the time, stopping charges, a reset fills the budget; no other step touches the three fields. */
  ghost predicate Recorded(t: Table, step: Step, p: nat, s: Proc)
    requires Partition(t) && Enabled(t, step) && p < NPROC
  {
    var q := t.procs[p];
    if step.Dispatch? && t.lists[step.level][0] == p then s.budget == q.budget && s.prio == q.prio && s.ticksIn == step.ticks
    else if Stops(t, step, p) then Charged(q, s, Slice(q, step.ticks)) && s.ticksIn == q.ticksIn
    else if Resets(t, step, p, q.prio) >= 0 then s.budget == MAXBUDG && s.prio == Resets(t, step, p, q.prio) && s.ticksIn == q.ticksIn
    else s.budget == q.budget && s.prio == q.prio && s.ticksIn == q.ticksIn
  }

  lemma ExitRecord(t: Table, step: Step, p: nat)
    requires Partition(t) && Enabled(t, step) && p < NPROC && (step.ExitProc?)
    ensures Recorded(t, step, p, Next(t, step).procs[p])
  {
    AdoptingEffect(t, step.me);
    ExitEffect(t, step.me);
    assert Fostered(t, Adopting(t, step.me), p, step.me);
  }

  lemma WaitRecord(t: Table, step: Step, p: nat)
    requires Partition(t) && Budgets(t) && Enabled(t, step) && p < NPROC && (step.WaitProc?)
    ensures Recorded(t, step, p, Next(t, step).procs[p])
  {
    if WaitOutcome(t, step.me).Reaped? { var z := ReapEffect(t, step.me, step.ticks); } else { WaitElse(t, step.me, step.ticks); }
  }

  lemma WakeRecord(t: Table, step: Step, p: nat)
    requires Partition(t) && Enabled(t, step) && p < NPROC && (step.Kill? || step.Wake?)
    ensures Recorded(t, step, p, Next(t, step).procs[p])
  {
    if step.Wake? { WakeupEffect(t, step.c); } else { var x, q := KillEffect(t, KillOrder(), step.pid); }
  }

  lemma RunRecord(t: Table, step: Step, p: nat)
    requires Partition(t) && Budgets(t) && Enabled(t, step) && p < NPROC && (step.Dispatch? || step.Yield? || step.SleepOn?)
    ensures Recorded(t, step, p, Next(t, step).procs[p])
  {
    match step
    case Dispatch(level, ticks) => DispatchEffect(t, level, ticks);
    case Yield(me, ticks) => YieldEffect(t, me, ticks);
    case SleepOn(me, c, ticks) => SleepEffect(t, me, c, ticks);
  }

  lemma PrioRecord(t: Table, step: Step, p: nat)
    requires Partition(t) && Enabled(t, step) && p < NPROC && (step.Tidy? || step.SetPrio? || step.PromoteAll?)
    ensures Recorded(t, step, p, Next(t, step).procs[p])
  {
    match step
    case PromoteAll => PromoteEffect(t, p, 0);
    case SetPrio(x, prio) => PrioEffect(t, x, prio);
    case Tidy(me) => TidyEffect(t, me);
  }

  lemma ForkRecord(t: Table, step: Step, p: nat)
    requires Partition(t) && Enabled(t, step) && p < NPROC && (step.Alloc? || step.StackFail? || step.ForkFail?)
    ensures Recorded(t, step, p, Next(t, step).procs[p])
  {
    match step
    case Alloc(me) => AllocEffect(t, me);
    case StackFail(me) => StackFailEffect(t, me);
    case ForkFail(me) => ForkFailEffect(t, me);
  }

  lemma BirthRecord(t: Table, step: Step, p: nat)
    requires Partition(t) && Enabled(t, step) && p < NPROC && (step.StackOk? || step.SetParent? || step.Publish?)
    ensures Recorded(t, step, p, Next(t, step).procs[p])
  {
    match step
    case StackOk(me) => StackOkEffect(t, me);
    case SetParent(me) => SetParentEffect(t, me);
    case Publish(me) => PublishEffect(t, me);
  }

  lemma StepRecord(t: Table, step: Step, p: nat)
    requires Partition(t) && Budgets(t) && Enabled(t, step) && p < NPROC
    ensures Recorded(t, step, p, Next(t, step).procs[p])
  {
    if step.ExitProc? {
      ExitRecord(t, step, p);
    } else if step.WaitProc? {
      WaitRecord(t, step, p);
    } else if step.Kill? || step.Wake? {
      WakeRecord(t, step, p);
    } else if step.Dispatch? || step.Yield? || step.SleepOn? {
      RunRecord(t, step, p);
    } else if step.Tidy? || step.SetPrio? || step.PromoteAll? {
      PrioRecord(t, step, p);
    } else if step.Alloc? || step.StackFail? || step.ForkFail? {
      ForkRecord(t, step, p);
    } else {
      BirthRecord(t, step, p);
    }
  }

  lemma ChargedTick(q: Proc, s: Proc, c: Clock, ticks: nat)
    requires q.budget == MAXBUDG - c.used && q.ticksIn == c.since && Charged(q, s, Slice(q, ticks))
    ensures var used := (c.used + (ticks - c.since)) % WORD;
      if used > MAXBUDG then s.budget == MAXBUDG && s.prio == (if q.prio == MAXPRIO then MAXPRIO else q.prio + 1)
      else s.budget == MAXBUDG - used && s.prio == q.prio
  {
    var n := Slice(q, ticks);
    assert (c.used + (ticks - c.since)) % WORD == (c.used + n) % WORD;
    assert (c.used + n) % WORD == if c.used + n < WORD then c.used + n else c.used + n - WORD;
  }

  lemma StepTold(t: Table, c: Clock, step: Step, p: nat)
    requires Partition(t) && Budgets(t) && Enabled(t, step) && p < NPROC && Told(t, c, p)
    ensures Told(Next(t, step), Tick(t, c, step, p), p)
  {
    StepRecord(t, step, p);
    if Stops(t, step, p) { ChargedTick(t.procs[p], Next(t, step).procs[p], c, step.ticks); }
  }

  ghost function Clocked(t: Table, c: Clock, steps: seq<Step>, p: nat): (r: Clock)
    requires Partition(t) && Run(t, steps) && p < NPROC
    decreases |steps|
  {
    if steps == [] then c else Clocked(Next(t, steps[0]), Tick(t, c, steps[0], p), steps[1..], p)
  }

  /**
   Over any run, budget and level are what the times of dispatching and stopping make them: a process
   goes down a level exactly when the ticks it has run since its last reset, modulo 2^32, exceed MAXBUDG.
   */
  lemma {:induction false} BudgetExact(t: Table, c: Clock, steps: seq<Step>, p: nat)
    requires Partition(t) && Budgets(t) && Run(t, steps) && p < NPROC && Told(t, c, p)
    ensures Told(Exec(t, steps), Clocked(t, c, steps, p), p)
    decreases |steps|
  {
    if steps != [] {
      StepBudgets(t, steps[0]);
      StepTold(t, c, steps[0], p);
      BudgetExact(Next(t, steps[0]), Tick(t, c, steps[0], p), steps[1..], p);
    }
  }

  // ---------------------------------------------------------------- zombies

  function Exits(steps: seq<Step>): (n: nat) {
    if steps == [] then 0 else (if steps[0].ExitProc? then 1 else 0) + Exits(steps[1..])
  }

  lemma {:induction false} KillZombies(t: Table, ls: seq<nat>, pid: nat)
    requires Partition(t) && forall i :: 0 <= i < |ls| ==> ls[i] < NLISTS
    ensures KillIn(t, ls, pid).lists[ZOMBIES] == t.lists[ZOMBIES]
    decreases |ls|
  {
    if ls != [] {
      var k := First(t.lists[ls[0]], t.procs, ByPid(pid));
      if k < |t.lists[ls[0]]| {
        Resident(t, ls[0], k);
        if ls[0] == SLEEP { StateOf(t, SLEEP, k); }
      } else {
        KillZombies(t, ls[1..], pid);
      }
    }
  }

  lemma RunZombies(t: Table, step: Step)
    requires Partition(t) && Budgets(t) && Enabled(t, step)
    requires step.Dispatch? || step.Yield? || step.SleepOn? || step.Tidy? || step.SetPrio? || step.PromoteAll? || step.Kill? || step.Wake?
    ensures Next(t, step).lists[ZOMBIES] == t.lists[ZOMBIES]
  {
    match step
    case PromoteAll => PromoteEffect(t, 0, ZOMBIES);
    case Dispatch(level, ticks) => DispatchEffect(t, level, ticks);
    case Yield(me, ticks) =>
      YieldEffect(t, me, ticks);
      Home(t, me);
    case SleepOn(me, c, ticks) => SleepEffect(t, me, c, ticks);
    case SetPrio(x, prio) => PrioEffect(t, x, prio);
    case Tidy(me) => TidyEffect(t, me);
    case Wake(c) => WakeupEffect(t, c);
    case Kill(pid) => KillZombies(t, KillOrder(), pid);
  }

  lemma ForkZombies(t: Table, step: Step)
    requires Partition(t) && Enabled(t, step)
    requires step.Alloc? || step.StackFail? || step.StackOk? || step.ForkFail? || step.SetParent? || step.Publish?
    ensures Next(t, step).lists[ZOMBIES] == t.lists[ZOMBIES]
  {
    match step
    case Alloc(me) => AllocEffect(t, me);
    case StackFail(me) => StackFailEffect(t, me);
    case StackOk(me) => StackOkEffect(t, me);
    case ForkFail(me) => ForkFailEffect(t, me);
    case SetParent(me) => SetParentEffect(t, me);
    case Publish(me) => PublishEffect(t, me);
  }

  lemma WaitZombies(t: Table, me: nat, ticks: nat)
    requires Partition(t) && Budgets(t) && Enabled(t, WaitProc(me, ticks))
    ensures |Next(t, WaitProc(me, ticks)).lists[ZOMBIES]| == |t.lists[ZOMBIES]| - |Reap(t, WaitProc(me, ticks))|
  {
    if WaitOutcome(t, me).Reaped? {
      var z := ReapEffect(t, me, ticks);
      var s, r := t.lists[ZOMBIES], Next(t, WaitProc(me, ticks)).lists[ZOMBIES];
      var k :| 0 <= k < |s| && s[k] == z && r == s[..k] + s[k + 1..];
    } else {
      WaitElse(t, me, ticks);
    }
  }

  lemma StepZombies(t: Table, step: Step)
    requires Partition(t) && Kin(t) && Budgets(t) && Enabled(t, step)
    ensures |Next(t, step).lists[ZOMBIES]| == |t.lists[ZOMBIES]| + (if step.ExitProc? then 1 else 0) - |Reap(t, step)|
  {
    if step.ExitProc? {
      ExitExact(t, step.me, step.me);
    } else if step.WaitProc? {
      WaitZombies(t, step.me, step.ticks);
    } else if step.Alloc? || step.StackFail? || step.StackOk? || step.ForkFail? || step.SetParent? || step.Publish? {
      ForkZombies(t, step);
    } else {
      RunZombies(t, step);
    }
  }

  /** Everyone who exits is either reaped or a zombie still. */
  lemma {:induction false} ZombiesCount(t: Table, steps: seq<Step>)
    requires Partition(t) && Kin(t) && Budgets(t) && Run(t, steps)
    ensures |Reaps(t, steps)| + |Exec(t, steps).lists[ZOMBIES]| == Exits(steps) + |t.lists[ZOMBIES]|
    decreases |steps|
  {
    if steps != [] {
      StepZombies(t, steps[0]);
      StepKin(t, steps[0]);
      StepBudgets(t, steps[0]);
      ZombiesCount(Next(t, steps[0]), steps[1..]);
    }
  }

  // ---------------------------------------------------------------- boot

  /** The table as userinit leaves it. */
  lemma BootIs(p: nat)
    requires p < NPROC
    ensures var t := Boot();
      && t.nextpid == 2 && t.forking == map[] && t.leaked == {} && Budgets(t)
      && t.procs[0] == Proc(RUNNABLE, 1, 0, NoChan, false, 0, MAXBUDG, 0) && t.lists[0] == [0]
      && (p > 0 ==> t.procs[p].state.UNUSED? && t.procs[p].pid == 0 && t.procs[p].parent == NULL && t.lists[FREE][p - 1] == p)
      && |t.lists[FREE]| == NPROC - 1 && forall l :: 0 < l < NLISTS && l != FREE ==> t.lists[l] == []
  {
  }
}
