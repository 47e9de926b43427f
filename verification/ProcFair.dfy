/**
 The scheduler serves every ready process within a fixed number of visits. A CPU visits the ready
 levels 0..MAXPRIO in turn for ever; at each visit it dispatches the head of that level, if any,
 and then any number of other steps happen: the process runs, other CPUs dispatch, wake, promote.
 */
module ProcFair {
  import opened StateLists
  import opened ProcSpec
  import opened ProcRuns
  import opened ProcKin

  const LEVELS: nat := MAXPRIO + 1

  function Index(s: seq<nat>, q: nat): (i: nat)
    requires q in s
    ensures i < |s| && s[i] == q && q !in s[..i]
  {
    if s[0] == q then 0 else
      assert s == [s[0]] + s[1..];
      var i := Index(s[1..], q);
      assert s[..i + 1] == [s[0]] + s[1..][..i];
      i + 1
  }

  lemma IndexPrefix(s: seq<nat>, r: seq<nat>, q: nat)
    requires q in s && s <= r
    ensures q in r && Index(r, q) == Index(s, q)
  {
    var i := Index(s, q);
    assert r[i] == q;
    assert s[..i] == r[..i];
  }

  lemma {:induction false} Short(s: seq<nat>, n: nat)
    requires Distinct(s) && forall i :: 0 <= i < |s| ==> s[i] < n
    ensures |s| <= n
  {
    if s != [] {
      assert s[0] < n;
      if n - 1 in s {
        var k := Index(s, n - 1);
        var r := Without(s, k);
        forall i | 0 <= i < |r| ensures r[i] == if i < k then s[i] else s[i + 1] { WithoutAt(s, k, i); }
        Short(r, n - 1);
      } else {
        forall i | 0 <= i < |s| ensures s[i] < n - 1 { assert s[i] in s; }
        Short(s, n - 1);
      }
    }
  }

  predicate Ready(t: Table, q: nat) {
    q < |t.procs| && t.procs[q].state.RUNNABLE?
  }

  /** A ready process is on the list of its level, and a list holds at most NPROC. */
  lemma ReadyPlace(t: Table, q: nat)
    requires Partition(t) && q < NPROC
    ensures Ready(t, q) ==> t.procs[q].prio <= MAXPRIO && q in t.lists[t.procs[q].prio] && |t.lists[t.procs[q].prio]| <= NPROC
    ensures forall l :: 0 <= l <= MAXPRIO && q in t.lists[l] ==> Ready(t, q) && t.procs[q].prio == l
  {
    Home(t, q);
    if Ready(t, q) {
      var l := t.procs[q].prio;
      forall k | 0 <= k < |t.lists[l]| ensures t.lists[l][k] < NPROC { Resident(t, l, k); }
      Resident(t, l, 0);
      Short(t.lists[l], NPROC);
    }
  }

  /** How far a ready process is from being dispatched: its level first, then its place in line. */
  ghost function Rank(t: Table, q: nat): (r: nat)
    requires Partition(t) && Ready(t, q)
    ensures r < LEVELS * NPROC
  {
    ReadyPlace(t, q);
    t.procs[q].prio * NPROC + Index(t.lists[t.procs[q].prio], q)
  }

  /** The step takes `q` off its ready list. */
  predicate Serves(t: Table, step: Step, q: nat)
  {
    step.Dispatch? && step.level < |t.lists| && t.lists[step.level] != [] && t.lists[step.level][0] == q
  }

  /** Ready lists only grow at the tail, except under Dispatch and PromoteAll. */
  lemma ReadyGrow(t: Table, step: Step, l: nat)
    requires Partition(t) && Enabled(t, step) && !step.Dispatch? && !step.PromoteAll? && l <= MAXPRIO
    ensures t.lists[l] <= Next(t, step).lists[l]
  {
    if step.ExitProc? {
      AdoptingEffect(t, step.me);
      ExitEffect(t, step.me);
    } else if step.Kill? {
      var p, q := KillEffect(t, KillOrder(), step.pid);
    } else if step.Wake? {
      WakeupEffect(t, step.c);
    } else if step.Alloc? {
      StateOf(t, FREE, 0);
    } else if step.WaitProc? {
      var k := First(t.lists[ZOMBIES], t.procs, ByParent(step.me));
      if k < |t.lists[ZOMBIES]| { StateOf(t, ZOMBIES, k); }
    } else if step.StackFail? || step.StackOk? || step.ForkFail? || step.SetParent? || step.Publish? {
      Home(t, t.forking[step.me]);
    }
  }

  lemma GrowRank(t: Table, r: Table, q: nat)
    requires Partition(t) && Partition(r) && Ready(t, q) && forall l :: 0 <= l <= MAXPRIO ==> t.lists[l] <= r.lists[l]
    ensures Ready(r, q) && Rank(r, q) == Rank(t, q)
  {
    ReadyPlace(t, q);
    var l := t.procs[q].prio;
    IndexPrefix(t.lists[l], r.lists[l], q);
    ReadyPlace(r, q);
  }

  lemma PromoteRank(t: Table, q: nat)
    requires Partition(t) && Ready(t, q)
    ensures Ready(Promote(t), q) && Rank(Promote(t), q) <= Rank(t, q)
  {
    var r := Promote(t);
    ReadyPlace(t, q);
    ReadyPlace(r, q);
    var l := t.procs[q].prio;
    PromotedAt(t.lists, if l == 0 then 0 else l - 1);
    if l == 0 { IndexPrefix(t.lists[0], r.lists[0], q); }
  }

  /** Dispatching someone else never pushes `q` back, and moves it up if it stands behind. */
  lemma DispatchRank(t: Table, level: nat, ticks: nat, q: nat)
    requires Partition(t) && Enabled(t, Dispatch(level, ticks)) && Ready(t, q) && t.lists[level][0] != q
    ensures var r := Next(t, Dispatch(level, ticks));
      Ready(r, q) && Rank(r, q) == Rank(t, q) - if level == t.procs[q].prio then 1 else 0
  {
    var r := Next(t, Dispatch(level, ticks));
    StateOf(t, level, 0);
    ReadyPlace(t, q);
    var s := t.lists[level];
    RemoveAt(s, 0) by { Resident(t, level, 0); }
    assert r.lists[level] == s[1..];
    assert forall l :: 0 <= l <= MAXPRIO && l != level ==> r.lists[l] == t.lists[l];
    assert s == [s[0]] + s[1..];
    ReadyPlace(r, q);
  }

  lemma StepRank(t: Table, step: Step, q: nat)
    requires Partition(t) && Enabled(t, step) && Ready(t, q) && !Serves(t, step, q)
    ensures Ready(Next(t, step), q) && Rank(Next(t, step), q) <= Rank(t, q)
  {
    if step.Dispatch? {
      DispatchRank(t, step.level, step.ticks, q);
    } else if step.PromoteAll? {
      PromoteRank(t, q);
    } else {
      forall l | 0 <= l <= MAXPRIO ensures t.lists[l] <= Next(t, step).lists[l] { ReadyGrow(t, step, l); }
      GrowRank(t, Next(t, step), q);
    }
  }

  // ---------------------------------------------------------------- runs of visits

  ghost predicate Served(t: Table, steps: seq<Step>, q: nat)
    requires Partition(t) && Run(t, steps)
    decreases |steps|
  {
    steps != [] && (Serves(t, steps[0], q) || Served(Next(t, steps[0]), steps[1..], q))
  }

  lemma {:induction false} RunRank(t: Table, steps: seq<Step>, q: nat)
    requires Partition(t) && Run(t, steps) && Ready(t, q) && !Served(t, steps, q)
    ensures Ready(Exec(t, steps), q) && Rank(Exec(t, steps), q) <= Rank(t, q)
    decreases |steps|
  {
    if steps != [] {
      StepRank(t, steps[0], q);
      RunRank(Next(t, steps[0]), steps[1..], q);
    }
  }

  /** One visit of the scheduler to a level, and what happens until its next visit. */
  datatype Visit = Visit(ticks: nat, others: seq<Step>)

  /** The table after the visit's own dispatch. */
  ghost function Pick(t: Table, level: nat, ticks: nat): (r: Table)
    requires Partition(t) && level < LEVELS
    ensures Partition(r)
  {
    if t.lists[level] == [] then t else Next(t, Dispatch(level, ticks))
  }

  function Following(level: nat): (l: nat)
    ensures l < LEVELS
  {
    if level < MAXPRIO then level + 1 else 0
  }

  ghost predicate Schedule(t: Table, level: nat, vs: seq<Visit>)
    requires Partition(t) && level < LEVELS
    decreases |vs|
  {
    vs == [] ||
    (var u := Pick(t, level, vs[0].ticks);
     Run(u, vs[0].others) && Schedule(Exec(u, vs[0].others), Following(level), vs[1..]))
  }

  /** Some step of the schedule dispatches `q`. */
  ghost predicate Dispatched(t: Table, level: nat, vs: seq<Visit>, q: nat)
    requires Partition(t) && level < LEVELS && Schedule(t, level, vs)
    decreases |vs|
  {
    vs != [] &&
    (|| VisitServes(t, level, vs[0], q)
     || Dispatched(Exec(Pick(t, level, vs[0].ticks), vs[0].others), Following(level), vs[1..], q))
  }

  ghost function After(t: Table, level: nat, vs: seq<Visit>): (r: Table)
    requires Partition(t) && level < LEVELS && Schedule(t, level, vs)
    ensures Partition(r)
    decreases |vs|
  {
    if vs == [] then t else After(Exec(Pick(t, level, vs[0].ticks), vs[0].others), Following(level), vs[1..])
  }

  /** The visit itself or a step before the next one dispatches `q`. */
  ghost predicate VisitServes(t: Table, level: nat, v: Visit, q: nat)
    requires Partition(t) && level < LEVELS && Run(Pick(t, level, v.ticks), v.others)
  {
    (t.lists[level] != [] && t.lists[level][0] == q) || Served(Pick(t, level, v.ticks), v.others, q)
  }

  /** One visit that does not serve `q` does not push it back, and moves it up if it is to its level. */
  lemma VisitRank(t: Table, level: nat, v: Visit, q: nat)
    requires Partition(t) && level < LEVELS && Ready(t, q) && Run(Pick(t, level, v.ticks), v.others)
    requires !VisitServes(t, level, v, q)
    ensures var r := Exec(Pick(t, level, v.ticks), v.others);
      Ready(r, q) && Rank(r, q) <= Rank(t, q) - if level == t.procs[q].prio then 1 else 0
  {
    ReadyPlace(t, q);
    if t.lists[level] != [] { DispatchRank(t, level, v.ticks, q); }
    RunRank(Pick(t, level, v.ticks), v.others, q);
  }

  /** Visits until the scheduler comes to level `l`. */
  function Ahead(level: nat, l: nat): (n: nat)
    requires level < LEVELS && l < LEVELS
    ensures n < LEVELS
  {
    if level <= l then l - level else l + LEVELS - level
  }

  /** Equal rank, equal level. */
  lemma SameRank(t: Table, u: Table, q: nat)
    requires Partition(t) && Partition(u) && Ready(t, q) && Ready(u, q) && Rank(u, q) == Rank(t, q)
    ensures u.procs[q].prio == t.procs[q].prio <= MAXPRIO
  {
    ReadyPlace(t, q);
    ReadyPlace(u, q);
  }

  /** A schedule that does not serve `q` does not push it back. */
  lemma {:induction false} ScheduleRank(t: Table, level: nat, vs: seq<Visit>, q: nat)
    requires Partition(t) && level < LEVELS && Schedule(t, level, vs) && Ready(t, q) && !Dispatched(t, level, vs, q)
    ensures Ready(After(t, level, vs), q) && Rank(After(t, level, vs), q) <= Rank(t, q)
    decreases |vs|
  {
    if vs != [] {
      VisitRank(t, level, vs[0], q);
      ScheduleRank(Exec(Pick(t, level, vs[0].ticks), vs[0].others), Following(level), vs[1..], q);
    }
  }

  /** Long enough to reach the level of `q`, it moves `q` up. */
  lemma {:induction false} RoundRank(t: Table, level: nat, vs: seq<Visit>, q: nat)
    requires Partition(t) && level < LEVELS && Schedule(t, level, vs) && Ready(t, q) && !Dispatched(t, level, vs, q)
    requires t.procs[q].prio < LEVELS && |vs| > Ahead(level, t.procs[q].prio)
    ensures Ready(After(t, level, vs), q) && Rank(After(t, level, vs), q) < Rank(t, q)
    decreases |vs|
  {
    VisitRank(t, level, vs[0], q);
    var u := Exec(Pick(t, level, vs[0].ticks), vs[0].others);
    if Rank(u, q) < Rank(t, q) {
      ScheduleRank(u, Following(level), vs[1..], q);
    } else {
      SameRank(t, u, q);
      RoundRank(u, Following(level), vs[1..], q);
    }
  }

  /** The level the scheduler comes to after `n` visits. */
  function Onward(level: nat, n: nat): (l: nat)
    requires level < LEVELS
    ensures l < LEVELS && (n == 0 ==> l == level) && (level + n == LEVELS ==> l == 0)
    decreases n
  {
    if n == 0 then level else Onward(Following(level), n - 1)
  }

  lemma FirstVisit(t: Table, level: nat, vs: seq<Visit>, q: nat)
    requires Partition(t) && level < LEVELS && Schedule(t, level, vs) && vs != []
    ensures Run(Pick(t, level, vs[0].ticks), vs[0].others)
    ensures var u := Exec(Pick(t, level, vs[0].ticks), vs[0].others);
      && Schedule(u, Following(level), vs[1..]) && After(t, level, vs) == After(u, Following(level), vs[1..])
      && (Dispatched(t, level, vs, q) <==> VisitServes(t, level, vs[0], q) || Dispatched(u, Following(level), vs[1..], q))
  {
  }

  /** Two schedules in one: the second goes on where the first ends. */
  lemma {:induction false} Chained(t: Table, level: nat, xs: seq<Visit>, ys: seq<Visit>)
    requires Partition(t) && level < LEVELS && Schedule(t, level, xs + ys)
    ensures Schedule(t, level, xs) && Schedule(After(t, level, xs), Onward(level, |xs|), ys)
    decreases |xs|
  {
    if xs == [] {
      assert xs + ys == ys;
    } else {
      assert (xs + ys)[0] == xs[0] && (xs + ys)[1..] == xs[1..] + ys;
      Chained(Exec(Pick(t, level, xs[0].ticks), xs[0].others), Following(level), xs[1..], ys);
    }
  }

  /** It serves `q` in the one or in the other. */
  lemma {:induction false} ChainedServes(t: Table, level: nat, xs: seq<Visit>, ys: seq<Visit>, q: nat)
    requires Partition(t) && level < LEVELS && Schedule(t, level, xs + ys)
    requires Schedule(t, level, xs) && Schedule(After(t, level, xs), Onward(level, |xs|), ys)
    ensures Dispatched(t, level, xs + ys, q) <==>
      Dispatched(t, level, xs, q) || Dispatched(After(t, level, xs), Onward(level, |xs|), ys, q)
    decreases |xs|
  {
    if xs == [] {
      assert xs + ys == ys;
    } else {
      assert (xs + ys)[0] == xs[0] && (xs + ys)[1..] == xs[1..] + ys;
      FirstVisit(t, level, xs + ys, q);
      FirstVisit(t, level, xs, q);
      ChainedServes(Exec(Pick(t, level, xs[0].ticks), xs[0].others), Following(level), xs[1..], ys, q);
    }
  }

  /** A schedule is its first `n` visits and then the others, and serves `q` in the ones or in the others. */
  lemma Split(t: Table, level: nat, vs: seq<Visit>, n: nat, q: nat)
    requires Partition(t) && level < LEVELS && Schedule(t, level, vs) && n <= |vs|
    ensures Schedule(t, level, vs[..n]) && Schedule(After(t, level, vs[..n]), Onward(level, n), vs[n..])
    ensures Dispatched(t, level, vs, q) <==>
      Dispatched(t, level, vs[..n], q) || Dispatched(After(t, level, vs[..n]), Onward(level, n), vs[n..], q)
  {
    assert vs == vs[..n] + vs[n..];
    Chained(t, level, vs[..n], vs[n..]);
    ChainedServes(t, level, vs[..n], vs[n..], q);
  }

  /**
   Bounded dispatch: whatever the other CPUs and processes do, a ready process is dispatched
   before one scheduler has visited the ready levels Rank + 1 times over, which is at most
   (MAXPRIO + 1) * NPROC rounds.
   */
  lemma {:induction false} BoundedDispatch(t: Table, level: nat, vs: seq<Visit>, q: nat)
    requires Partition(t) && level < LEVELS && Schedule(t, level, vs) && Ready(t, q)
    requires |vs| >= LEVELS * (Rank(t, q) + 1)
    ensures Dispatched(t, level, vs, q)
    decreases Rank(t, q)
  {
    Split(t, level, vs, LEVELS, q);
    var l := Onward(level, LEVELS);
    var first, rest := vs[..LEVELS], vs[LEVELS..];
    if !Dispatched(t, level, first, q) {
      ReadyPlace(t, q);
      RoundRank(t, level, first, q);
      BoundedDispatch(After(t, level, first), l, rest, q);
    }
  }

  // ---------------------------------------------------------------- one CPU

  /** With one CPU promotions come only between passes, and the line counts only once below level 0. */
  ghost function Place(t: Table, q: nat): (r: nat)
    requires Partition(t) && Ready(t, q)
    ensures r < 2 * NPROC
  {
    ReadyPlace(t, q);
    Index(t.lists[t.procs[q].prio], q) + if t.procs[q].prio == 0 then 0 else NPROC
  }

  lemma PlaceOfRank(t: Table, r: Table, q: nat)
    requires Partition(t) && Partition(r) && Ready(t, q) && Ready(r, q) && r.procs[q].prio == t.procs[q].prio
    ensures Place(r, q) - Place(t, q) == Rank(r, q) - Rank(t, q)
  {
    ReadyPlace(t, q);
    ReadyPlace(r, q);
  }

  /** Only promoteAll changes the level of a ready process. */
  lemma StepLevel(t: Table, step: Step, q: nat)
    requires Partition(t) && Enabled(t, step) && Ready(t, q) && !Serves(t, step, q) && !step.PromoteAll?
    ensures Ready(Next(t, step), q) && Next(t, step).procs[q].prio == t.procs[q].prio
  {
    StepRank(t, step, q);
    ReadyPlace(t, q);
    var l, r := t.procs[q].prio, Next(t, step);
    if step.Dispatch? {
      StateOf(t, step.level, 0);
    } else {
      ReadyGrow(t, step, l);
      assert q in r.lists[l];
      ReadyPlace(r, q);
    }
  }

  lemma PromotePlace(t: Table, q: nat)
    requires Partition(t) && Ready(t, q)
    ensures Ready(Promote(t), q) && Place(Promote(t), q) <= Place(t, q)
  {
    var r := Promote(t);
    ReadyPlace(t, q);
    ReadyPlace(r, q);
    var l := t.procs[q].prio;
    PromotedAt(t.lists, if l == 0 then 0 else l - 1);
    if l == 0 { IndexPrefix(t.lists[0], r.lists[0], q); }
  }

  predicate NoPromotion(steps: seq<Step>) {
    forall i :: 0 <= i < |steps| ==> !steps[i].PromoteAll?
  }

  lemma {:induction false} RunPlace(t: Table, steps: seq<Step>, q: nat)
    requires Partition(t) && Run(t, steps) && Ready(t, q) && !Served(t, steps, q)
    ensures Ready(Exec(t, steps), q) && Place(Exec(t, steps), q) <= Place(t, q)
    ensures NoPromotion(steps) ==> Exec(t, steps).procs[q].prio == t.procs[q].prio
    decreases |steps|
  {
    if steps != [] {
      var r := Next(t, steps[0]);
      if steps[0].PromoteAll? {
        PromotePlace(t, q);
      } else {
        StepLevel(t, steps[0], q);
        StepRank(t, steps[0], q);
        PlaceOfRank(t, r, q);
      }
      RunPlace(r, steps[1..], q);
      assert NoPromotion(steps) ==> !steps[0].PromoteAll? && NoPromotion(steps[1..]);
    }
  }

  lemma VisitPlace(t: Table, level: nat, v: Visit, q: nat)
    requires Partition(t) && level < LEVELS && Ready(t, q) && Run(Pick(t, level, v.ticks), v.others)
    requires !VisitServes(t, level, v, q)
    ensures var r := Exec(Pick(t, level, v.ticks), v.others);
      && Ready(r, q) && Place(r, q) <= Place(t, q) - (if level == t.procs[q].prio then 1 else 0)
      && (NoPromotion(v.others) ==> r.procs[q].prio == t.procs[q].prio)
  {
    ReadyPlace(t, q);
    var u := Pick(t, level, v.ticks);
    if t.lists[level] != [] {
      DispatchRank(t, level, v.ticks, q);
      StepLevel(t, Dispatch(level, v.ticks), q);
      PlaceOfRank(t, u, q);
    }
    RunPlace(u, v.others, q);
  }

  lemma {:induction false} SchedulePlace(t: Table, level: nat, vs: seq<Visit>, q: nat)
    requires Partition(t) && level < LEVELS && Schedule(t, level, vs) && Ready(t, q) && !Dispatched(t, level, vs, q)
    ensures Ready(After(t, level, vs), q) && Place(After(t, level, vs), q) <= Place(t, q)
    decreases |vs|
  {
    if vs != [] {
      VisitPlace(t, level, vs[0], q);
      SchedulePlace(Exec(Pick(t, level, vs[0].ticks), vs[0].others), Following(level), vs[1..], q);
    }
  }

  /** What is left of a pass from `level` on: promotions may follow its last visit only. */
  predicate Pass(level: nat, vs: seq<Visit>) {
    level + |vs| == LEVELS && forall i :: 0 <= i < |vs| - 1 ==> NoPromotion(vs[i].others)
  }

  lemma {:induction false} PassPlace(t: Table, level: nat, vs: seq<Visit>, q: nat)
    requires Partition(t) && level < LEVELS && Schedule(t, level, vs) && Ready(t, q) && !Dispatched(t, level, vs, q)
    requires Pass(level, vs) && level <= t.procs[q].prio <= MAXPRIO
    ensures Ready(After(t, level, vs), q) && Place(After(t, level, vs), q) < Place(t, q)
    decreases |vs|
  {
    VisitPlace(t, level, vs[0], q);
    var u := Exec(Pick(t, level, vs[0].ticks), vs[0].others);
    if level == t.procs[q].prio {
      SchedulePlace(u, Following(level), vs[1..], q);
    } else {
      PassPlace(u, Following(level), vs[1..], q);
    }
  }

  /** `n` whole passes of the only scheduler there is. */
  predicate Passes(vs: seq<Visit>, n: nat)
    decreases n
  {
    if n == 0 then vs == [] else |vs| >= LEVELS && Pass(0, vs[..LEVELS]) && Passes(vs[LEVELS..], n - 1)
  }

  /** With one CPU a ready process is dispatched within 2 * NPROC passes. */
  lemma {:induction false} SoloDispatch(t: Table, vs: seq<Visit>, n: nat, q: nat)
    requires Partition(t) && Schedule(t, 0, vs) && Ready(t, q) && Passes(vs, n) && n > Place(t, q)
    ensures Dispatched(t, 0, vs, q)
    decreases n
  {
    SplitPass(t, vs, LEVELS, q);
    var first, rest := vs[..LEVELS], vs[LEVELS..];
    if !Dispatched(t, 0, first, q) {
      ReadyPlace(t, q);
      PassPlace(t, 0, first, q);
      SoloDispatch(After(t, 0, first), rest, n - 1, q);
    }
  }

  /** A pass from the top ends at the top. */
  lemma SplitPass(t: Table, vs: seq<Visit>, n: nat, q: nat)
    requires Partition(t) && Schedule(t, 0, vs) && n == LEVELS <= |vs|
    ensures Schedule(t, 0, vs[..n]) && Schedule(After(t, 0, vs[..n]), 0, vs[n..])
    ensures Dispatched(t, 0, vs, q) <==> Dispatched(t, 0, vs[..n], q) || Dispatched(After(t, 0, vs[..n]), 0, vs[n..], q)
  {
    Split(t, 0, vs, n, q);
  }
}
