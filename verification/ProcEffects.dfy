/**
 What each step of the process table does, field by field and list by list: which record changes and
 how, which list it leaves, where on the next one it goes, and that nothing else changes.
 */
module ProcEffects {
  import opened StateLists
  import opened ProcSpec
  import opened ProcRuns

  /** `r` is `s` with `p` taken out. */
  ghost predicate Leaves(s: seq<nat>, r: seq<nat>, p: nat) {
    exists k :: 0 <= k < |s| && s[k] == p && r == s[..k] + s[k + 1..]
  }

  /** `p` leaves list `from` for the head or the tail of list `to`, and no other list changes. */
  ghost predicate Moves(t: Table, r: Table, p: nat, from: nat, to: nat, atHead: bool) {
    && |t.lists| == |r.lists| == NLISTS && from != to && from < NLISTS && to < NLISTS
    && Leaves(t.lists[from], r.lists[from], p) && r.lists[to] == (if atHead then [p] + t.lists[to] else t.lists[to] + [p])
    && forall l :: 0 <= l < NLISTS && l != from && l != to ==> r.lists[l] == t.lists[l]
  }

  /** No record but that of `p` changes, and the pid counter, the forks and the lost slots stay. */
  predicate Only(t: Table, r: Table, p: nat) {
    && |r.procs| == |t.procs| && r.nextpid == t.nextpid && r.forking == t.forking && r.leaked == t.leaked
    && forall x :: 0 <= x < |t.procs| && x != p ==> r.procs[x] == t.procs[x]
  }

  lemma GoEffect(t: Table, p: nat, atHead: bool, q: Proc)
    requires Partition(t) && p < NPROC && p !in t.leaked && q.prio <= MAXPRIO && ListFor(q) != ListFor(t.procs[p])
    ensures var r := Go(t, p, atHead, q);
      Only(t, r, p) && r.procs[p] == q && Moves(t, r, p, ListFor(t.procs[p]), ListFor(q), atHead)
  {
    Home(t, p);
    var s := t.lists[ListFor(t.procs[p])];
    var k :| 0 <= k < |s| && s[k] == p;
    Resident(t, ListFor(t.procs[p]), k);
    RemoveAt(s, k);
  }

  // ---------------------------------------------------------------- running

  /** The scheduler runs the head of the level, and notes the time. */
  lemma DispatchEffect(t: Table, level: nat, ticks: nat)
    requires Partition(t) && Enabled(t, Dispatch(level, ticks))
    ensures var r, p := Next(t, Dispatch(level, ticks)), t.lists[level][0];
      && p < NPROC && Only(t, r, p) && Moves(t, r, p, level, RUN, true) && r.lists[level] == t.lists[level][1..]
      && t.procs[p].state.RUNNABLE? && r.procs[p] == t.procs[p].(state := RUNNING, ticksIn := ticks)
  {
    var p := t.lists[level][0];
    StateOf(t, level, 0);
    GoEffect(t, p, true, t.procs[p].(state := RUNNING, ticksIn := ticks));
    var r := Next(t, Dispatch(level, ticks));
    var k :| 0 <= k < |t.lists[level]| && t.lists[level][k] == p && r.lists[level] == t.lists[level][..k] + t.lists[level][k + 1..];
    Resident(t, level, k);
  }

  /** Every budget is within bounds. */
  predicate Budgets(t: Table) {
    forall p :: 0 <= p < |t.procs| ==> t.procs[p].budget <= MAXBUDG
  }

  /** yield: to the end of the level the process is on once its time is charged. */
  lemma YieldEffect(t: Table, me: nat, ticks: nat)
    requires Partition(t) && Budgets(t) && Enabled(t, Yield(me, ticks))
    ensures var r := Next(t, Yield(me, ticks)); var q := r.procs[me];
      && Only(t, r, me) && Charged(t.procs[me], q, Slice(t.procs[me], ticks))
      && q == t.procs[me].(state := RUNNABLE, budget := q.budget, prio := q.prio) && Moves(t, r, me, RUN, q.prio, false)
  {
    Home(t, me);
    ChargeExact(t.procs[me].(state := RUNNABLE), ticks);
    GoEffect(t, me, false, Charge(t.procs[me].(state := RUNNABLE), ticks));
  }

  /** Going to sleep: on that channel, at the end of the sleep list, the time charged. */
  ghost predicate Slept(t: Table, r: Table, me: nat, c: Chan, ticks: nat)
    requires me < |t.procs| && me < |r.procs|
  {
    var q := r.procs[me];
    && Only(t, r, me) && Charged(t.procs[me], q, Slice(t.procs[me], ticks)) && Moves(t, r, me, RUN, SLEEP, false)
    && q == t.procs[me].(state := SLEEPING, chan := c, budget := q.budget, prio := q.prio)
  }

  lemma AsleepEffect(t: Table, me: nat, c: Chan, ticks: nat)
    requires Partition(t) && Budgets(t) && me < NPROC && t.procs[me].state.RUNNING?
    ensures Slept(t, Asleep(t, me, c, ticks), me, c, ticks)
  {
    Home(t, me);
    ChargeExact(t.procs[me].(chan := c, state := SLEEPING), ticks);
    GoEffect(t, me, false, Charge(t.procs[me].(chan := c, state := SLEEPING), ticks));
  }

  lemma SleepEffect(t: Table, me: nat, c: Chan, ticks: nat)
    requires Partition(t) && Budgets(t) && Enabled(t, SleepOn(me, c, ticks))
    ensures Slept(t, Next(t, SleepOn(me, c, ticks)), me, c, ticks)
  {
    AsleepEffect(t, me, c, ticks);
  }

  /** Whoever goes to sleep with no one else on the channel is what a wakeup on it wakes. */
  lemma SleepThenWake(t: Table, me: nat, c: Chan, ticks: nat)
    requires Partition(t) && Budgets(t) && me < NPROC && t.procs[me].state.RUNNING? && forall k: nat :: !SleepsOn(t, c, k)
    ensures var u := Asleep(t, me, c, ticks); var r := Wakeup(u, c);
      && Only(u, r, me) && r.procs[me] == u.procs[me].(state := RUNNABLE)
      && Moves(u, r, me, SLEEP, u.procs[me].prio, false) && r.lists[SLEEP] == t.lists[SLEEP]
  {
    var u := Asleep(t, me, c, ticks);
    var r := Wakeup(u, c);
    AsleepEffect(t, me, c, ticks);
    LastSleeper(t, u, me, c, ticks);
    WakeupEffect(u, c);
    var s, k := u.lists[SLEEP], |t.lists[SLEEP]|;
    assert Without(s, k) == s[..k] + s[k + 1..];
  }

  lemma LastSleeper(t: Table, u: Table, me: nat, c: Chan, ticks: nat)
    requires Partition(t) && |u.procs| == NPROC && me < NPROC && t.procs[me].state.RUNNING? && Slept(t, u, me, c, ticks)
    requires forall k: nat :: !SleepsOn(t, c, k)
    ensures u.lists[SLEEP] == t.lists[SLEEP] + [me] && First(u.lists[SLEEP], u.procs, ByChan(c)) == |t.lists[SLEEP]|
  {
    var s := u.lists[SLEEP];
    forall i | 0 <= i < |s| - 1
      ensures s[i] < NPROC && !Matches(u.procs[s[i]], ByChan(c))
    {
      assert s[i] == t.lists[SLEEP][i];
      StateOf(t, SLEEP, i);
      assert !SleepsOn(t, c, i);
    }
    assert s[|s| - 1] == me && Matches(u.procs[me], ByChan(c));
  }

  // ---------------------------------------------------------------- wait, kill, promotion

  /** wait with a zombie child: the first of them on the list is freed, and its pid returned. */
  lemma ReapEffect(t: Table, me: nat, ticks: nat) returns (z: nat)
    requires Partition(t) && Enabled(t, WaitProc(me, ticks)) && WaitOutcome(t, me).Reaped?
    ensures var r := Next(t, WaitProc(me, ticks));
      && z < NPROC && t.procs[z].state.ZOMBIE? && t.procs[z].parent == me && WaitOutcome(t, me) == Reaped(t.procs[z].pid)
      && Only(t, r, z) && r.procs[z] == t.procs[z].(state := UNUSED, pid := 0, parent := NULL, killed := false)
      && Moves(t, r, z, ZOMBIES, FREE, false)
      && exists k :: 0 <= k < |t.lists[ZOMBIES]| && t.lists[ZOMBIES][k] == z
           && forall i :: 0 <= i < k ==> t.lists[ZOMBIES][i] < NPROC && t.procs[t.lists[ZOMBIES][i]].parent != me
  {
    var s := t.lists[ZOMBIES];
    var k := First(s, t.procs, ByParent(me));
    StateOf(t, ZOMBIES, k);
    z := s[k];
    GoEffect(t, z, false, t.procs[z].(state := UNUSED, pid := 0, parent := NULL, killed := false));
    forall i | 0 <= i < k ensures s[i] < NPROC && t.procs[s[i]].parent != me { Resident(t, ZOMBIES, i); }
  }

  /** wait otherwise: nothing, or sleep on the caller itself. */
  lemma WaitElse(t: Table, me: nat, ticks: nat)
    requires Partition(t) && Budgets(t) && Enabled(t, WaitProc(me, ticks)) && !WaitOutcome(t, me).Reaped?
    ensures var r := Next(t, WaitProc(me, ticks));
      if WaitOutcome(t, me).NoKids? then r == t else Slept(t, r, me, ProcChan(me), ticks)
  {
    if WaitOutcome(t, me).Sleeps? { AsleepEffect(t, me, ProcChan(me), ticks); }
  }

  /** Process `p` is marked, and last on its level if it slept; nothing else has changed. */
  ghost predicate Killed(t: Table, r: Table, p: nat)
    requires p < |t.procs| && p < |r.procs|
  {
    && Only(t, r, p)
    && r.procs[p] == t.procs[p].(killed := true, state := if t.procs[p].state.SLEEPING? then RUNNABLE else t.procs[p].state)
    && if t.procs[p].state.SLEEPING? then Moves(t, r, p, SLEEP, t.procs[p].prio, false) else r.lists == t.lists
  }

  /** kill of a process that no one else shares its pid with: marked, and made ready if it slept. */
  lemma {:induction false} KillInEffect(t: Table, ls: seq<nat>, p: nat)
    requires Partition(t) && (forall i :: 0 <= i < |ls| ==> ls[i] < NLISTS) && p < NPROC && ListOf(t, p) in ls
    requires forall x :: 0 <= x < NPROC && x != p ==> t.procs[x].pid != t.procs[p].pid
    ensures Killed(t, KillIn(t, ls, t.procs[p].pid), p)
    decreases |ls|
  {
    var pid := t.procs[p].pid;
    var s := t.lists[ls[0]];
    var k := First(s, t.procs, ByPid(pid));
    Home(t, p);
    if k == |s| {
      assert Matches(t.procs[p], ByPid(pid)) && p !in s;
      KillInEffect(t, ls[1..], p);
    } else {
      Resident(t, ls[0], k);
      assert s[k] == p;
      if ls[0] == SLEEP {
        StateOf(t, SLEEP, k);
        GoEffect(t, p, false, t.procs[p].(killed := true, state := RUNNABLE));
      }
    }
  }

  lemma {:induction false} KillInNone(t: Table, ls: seq<nat>, pid: nat)
    requires Partition(t) && (forall i :: 0 <= i < |ls| ==> ls[i] < NLISTS)
    requires forall x :: 0 <= x < NPROC && ListOf(t, x) in ls ==> t.procs[x].pid != pid
    ensures KillIn(t, ls, pid) == t
    decreases |ls|
  {
    if ls != [] {
      var k := First(t.lists[ls[0]], t.procs, ByPid(pid));
      if k < |t.lists[ls[0]]| { Resident(t, ls[0], k); }
      KillInNone(t, ls[1..], pid);
    }
  }

  lemma OrderHas(l: nat)
    requires Walks(l)
    ensures l in KillOrder()
  {
    var i := if l == EMBRYOS then 0 else if l <= MAXPRIO then l + 1 else if l == RUN then MAXPRIO + 2 else MAXPRIO + 3;
    assert KillOrder()[i] == l;
  }

  /** promoteAll: the living go up one level and have a full budget, the lists shift, and nothing else changes. */
  lemma PromoteEffect(t: Table, p: nat, l: nat)
    requires Partition(t) && p < NPROC && l < NLISTS
    ensures var r := Next(t, PromoteAll); var q := t.procs[p];
      && r.nextpid == t.nextpid && r.forking == t.forking && r.leaked == t.leaked && |r.procs| == NPROC && |r.lists| == NLISTS
      && (if q.state in {RUNNABLE, RUNNING, SLEEPING}
          then r.procs[p] == q.(prio := if q.prio == 0 then 0 else q.prio - 1, budget := MAXBUDG)
          else r.procs[p] == q)
      && r.lists[l] ==
         if l == 0 then t.lists[0] + t.lists[1] else if l < MAXPRIO then t.lists[l + 1] else if l == MAXPRIO then [] else t.lists[l]
  {
    PromotedAt(t.lists, l);
  }

  lemma PrioEffect(t: Table, p: nat, prio: nat)
    requires Partition(t) && Enabled(t, SetPrio(p, prio))
    ensures var r := Next(t, SetPrio(p, prio));
      Only(t, r, p) && r.lists == t.lists && r.procs[p] == t.procs[p].(prio := prio, budget := MAXBUDG)
  {
  }

  lemma TidyEffect(t: Table, me: nat)
    requires Partition(t) && Enabled(t, Tidy(me))
    ensures var r := Next(t, Tidy(me)); Only(t, r, me) && r.lists == t.lists && r.procs[me] == t.procs[me].(chan := NoChan)
  {
  }

  // ---------------------------------------------------------------- fork

  /** allocproc takes the head of the free list and gives it the next pid. */
  lemma AllocEffect(t: Table, me: nat)
    requires Partition(t) && Enabled(t, Alloc(me))
    ensures var r, p := Next(t, Alloc(me)), t.lists[FREE][0];
      && p < NPROC && r.nextpid == t.nextpid + 1 && r.forking == t.forking[me := p] && r.leaked == t.leaked && |r.procs| == NPROC
      && (forall x :: 0 <= x < NPROC && x != p ==> r.procs[x] == t.procs[x])
      && t.procs[p].state.UNUSED? && r.procs[p] == t.procs[p].(state := EMBRYO, pid := t.nextpid)
      && Moves(t, r, p, FREE, EMBRYOS, true)
  {
    StateOf(t, FREE, 0);
    GoEffect(t, t.lists[FREE][0], true, t.procs[t.lists[FREE][0]].(state := EMBRYO, pid := t.nextpid));
  }

  /** The end of fork: the child is ready, last on the top level with a full budget, and the caller is out of fork. */
  lemma PublishEffect(t: Table, me: nat)
    requires Partition(t) && Enabled(t, Publish(me))
    ensures var r, p := Next(t, Publish(me)), t.forking[me];
      && Only(t, r.(forking := t.forking), p) && r.forking == t.forking - {me} && Moves(t, r, p, EMBRYOS, 0, false)
      && r.procs[p] == t.procs[p].(state := RUNNABLE, prio := 0, budget := MAXBUDG) && r.procs[p].parent == me
  {
    var p := t.forking[me];
    Home(t, p);
    GoEffect(t, p, false, t.procs[p].(state := RUNNABLE, prio := 0, budget := MAXBUDG));
  }

  /** fork that fails: the slot goes back to the head of the free list. */
  lemma ForkFailEffect(t: Table, me: nat)
    requires Partition(t) && Enabled(t, ForkFail(me))
    ensures var r, p := Next(t, ForkFail(me)), t.forking[me];
      && Only(t, r.(forking := t.forking), p) && r.forking == t.forking - {me} && Moves(t, r, p, EMBRYOS, FREE, true)
      && r.procs[p] == t.procs[p].(state := UNUSED)
  {
    var p := t.forking[me];
    Home(t, p);
    GoEffect(t, p, true, t.procs[p].(state := UNUSED));
  }

  /** The branch with the misspelt macro: the state changes and no list does. */
  lemma StackFailEffect(t: Table, me: nat)
    requires Partition(t) && Enabled(t, StackFail(me))
    ensures var r, p := Next(t, StackFail(me)), t.forking[me];
      && Only(t, r.(forking := t.forking, leaked := t.leaked), p) && r.lists == t.lists && r.procs[p] == t.procs[p].(state := UNUSED)
      && r.forking == t.forking - {me} && r.leaked == t.leaked + {p}
  {
  }

  lemma StackOkEffect(t: Table, me: nat)
    requires Partition(t) && Enabled(t, StackOk(me))
    ensures var r, p := Next(t, StackOk(me)), t.forking[me];
      Only(t, r, p) && r.lists == t.lists && r.procs[p] == t.procs[p].(budget := MAXBUDG, prio := 0)
  {
  }

  lemma SetParentEffect(t: Table, me: nat)
    requires Partition(t) && Enabled(t, SetParent(me))
    ensures var r, p := Next(t, SetParent(me)), t.forking[me];
      Only(t, r, p) && r.lists == t.lists && r.procs[p] == t.procs[p].(parent := me)
  {
  }
}
