/**
 The pointer code of proc.c over the linked state lists. Every method is one critical section
 under ptable.lock and takes one step of the machine in ProcSpec. Where the code would panic the
 method asserts that it does not.
 */
module ProcTable {
  import opened Sealing
  import opened StateLists
  import opened ProcSpec
  import opened ProcRuns
  import opened ProcKin

  /** What the loops over a list do to each record they pass. */
  datatype Edit = Foster(me: nat) | Level(i: nat) | Lift

  function Edited(q: Proc, e: Edit): (r: Proc) {
    match e
    case Foster(me) => if q.parent == me then q.(parent := INIT) else q
    case Level(i) => q.(prio := i, budget := MAXBUDG)
    case Lift => q.(prio := if q.prio > 0 then q.prio - 1 else 0, budget := MAXBUDG)
  }

  /** The records after a loop over `s`. */
  function Swept(procs: seq<Proc>, s: seq<nat>, e: Edit): (r: seq<Proc>)
    ensures |r| == |procs|
  {
    seq(|procs|, p requires 0 <= p < |procs| => if p in s then Edited(procs[p], e) else procs[p])
  }

  lemma SweptOne(procs: seq<Proc>, s: seq<nat>, k: nat, e: Edit)
    requires Distinct(s) && k < |s| && s[k] < |procs|
    ensures Swept(procs, s[..k], e)[s[k]] == procs[s[k]]
    ensures Swept(procs, s[..k + 1], e) == Swept(procs, s[..k], e)[s[k] := Edited(procs[s[k]], e)]
  {
    assert s[..k + 1] == s[..k] + [s[k]];
  }

  /** A search that stopped at the first match found what First finds. */
  lemma {:induction false} FirstAt(s: seq<nat>, procs: seq<Proc>, w: Want, k: nat)
    requires k <= |s| && forall j :: 0 <= j < k ==> !(s[j] < |procs| && Matches(procs[s[j]], w))
    requires k < |s| ==> s[k] < |procs| && Matches(procs[s[k]], w)
    ensures First(s, procs, w) == k
  {
    if k > 0 {
      assert !(s[0] < |procs| && Matches(procs[s[0]], w));
      FirstAt(s[1..], procs, w, k - 1);
    }
  }

  lemma RemovedAbsent(t: Table, p: nat)
    requires Partition(t) && p < NPROC
    ensures ListOf(t, p) < NLISTS && Absent(t.lists[ListOf(t, p) := Remove(t.lists[ListOf(t, p)], p)], p)
  {
    Home(t, p);
    assert PartOpen(0);
    RemoveMembers(t.lists[ListOf(t, p)], p);
  }

  /** Sweeping one list with Foster is adopting the children on it. */
  lemma SweepAdopts(t: Table, l: nat, me: nat)
    requires Partition(t) && l < NLISTS
    ensures Swept(t.procs, t.lists[l], Edit.Foster(me)) == Adopted(t, {l}, me)
  {
    forall p | 0 <= p < NPROC
      ensures p in t.lists[l] <==> ListOf(t, p) == l
    {
      Home(t, p);
    }
  }

  lemma AdoptTwice(t: Table, a: set<nat>, b: set<nat>, me: nat)
    requires Partition(t)
    ensures Adopt(Adopt(t, a, me), b, me) == Adopt(t, a + b, me)
  {
    var u := Adopt(t, a, me);
    assert forall p :: 0 <= p < NPROC ==> ListOf(u, p) == ListOf(t, p);
    assert Adopted(u, b, me) == Adopted(t, a + b, me);
  }

  predicate Above(l: nat, i: nat) {
    l < i
  }

  /** The ready levels above `i`. */
  function Levels(i: nat): (r: set<nat>)
    ensures forall l :: l in r <==> 0 <= l < i
  {
    set l | 0 <= l < i && Above(l, i)
  }

  function Upto(n: nat): (s: seq<nat>) {
    seq(n, i requires 0 <= i => i)
  }

  /** All slots free, as initFreeList leaves them. */
  ghost predicate AllFree(t: Table) {
    && |t.lists| == NLISTS && t.lists[FREE] == Upto(NPROC) && (forall l :: 0 <= l < NLISTS && l != FREE ==> t.lists[l] == [])
    && |t.procs| == NPROC && (forall p :: 0 <= p < NPROC ==> t.procs[p] == Blank())
    && t.nextpid == 1 && t.forking == map[] && t.leaked == {}
  }

  function Blank(): (q: Proc) {
    Proc(UNUSED, 0, NULL, NoChan, false, 0, 0, 0)
  }

  lemma AllFreePartition(t: Table)
    requires AllFree(t)
    ensures Partition(t)
  {
    assert PartOpen(0);
    forall p | 0 <= p < NPROC ensures p in t.lists[ListOf(t, p)] { assert t.lists[FREE][p] == p; }
  }

  class Ptable {
    const lists: ListTable
    const procs: array<Proc>
    var nextpid: nat
    ghost var forking: map<nat, nat>
    ghost var leaked: set<nat>

    ghost function Abs(): (t: Table)
      reads this, lists, procs
    {
      Table(lists.lists, procs[..], nextpid, forking, leaked)
    }

    ghost predicate Valid()
      reads this, lists, lists.head, lists.tail, lists.next, procs
    {
      procs.Length == NPROC && lists.Valid() && Partition(Abs())
    }

    /** initProcessLists, initFreeList and userinit. */
    constructor ()
      ensures Valid() && Abs() == Boot()
      ensures fresh(lists) && fresh(lists.head) && fresh(lists.tail) && fresh(lists.next) && fresh(procs)
    {
      lists := new ListTable();
      procs := new Proc[NPROC](_ => Blank());
      nextpid, forking, leaked := 1, map[], {};
      new;
      InitFreeList();
      UserInit();
    }

    method InitFreeList()
      requires procs.Length == NPROC && lists.Valid() && lists.lists == seq(NLISTS, _ => [])
      requires nextpid == 1 && forking == map[] && leaked == {} && forall p :: 0 <= p < NPROC ==> procs[p] == Blank()
      modifies lists, lists.head, lists.tail, lists.next, procs
      ensures Valid() && AllFree(Abs())
    {
      for p := 0 to NPROC
        invariant lists.Valid() && lists.lists[FREE] == Upto(p)
        invariant forall l :: 0 <= l < NLISTS && l != FREE ==> lists.lists[l] == []
        invariant forall p :: 0 <= p < NPROC ==> procs[p] == Blank()
      {
        procs[p] := procs[p].(state := UNUSED);
        assert Absent(lists.lists, p);
        lists.Add(FREE, p);
        assert Upto(p) + [p] == Upto(p + 1);
      }
      AllFreePartition(Abs());
    }

    method UserInit()
      requires Valid() && AllFree(Abs())
      modifies this, lists, lists.head, lists.tail, lists.next, procs
      ensures Valid() && Abs() == Boot()
    {
      ghost var t := Abs();
      Transition(INIT, FREE, EMBRYOS, true, procs[INIT].(state := EMBRYO, pid := nextpid));
      ghost var u := Abs();
      assert Distinct(t.lists[FREE]);
      RemoveAt(t.lists[FREE], 0);
      assert u.lists[FREE] == BootLists()[FREE] && u.lists[EMBRYOS] == [INIT] && Remove([INIT], INIT) == [];
      nextpid := nextpid + 1;
      procs[INIT] := procs[INIT].(budget := MAXBUDG, prio := 0, parent := INIT);
      assert procs[..] == u.procs[INIT := procs[INIT]];
      Prioritised(u, INIT, procs[INIT]);
      PartitionSame(u.(procs := procs[..]), Abs());
      Transition(INIT, EMBRYOS, 0, false, procs[INIT].(state := RUNNABLE));
      assert lists.lists[0] == [INIT] && lists.lists[EMBRYOS] == [];
      assert Abs().lists == BootLists();
      assert procs[..] == Boot().procs;
    }

    /** Remove from one list, set the record, add to another: every transition of proc.c. */
    method Transition(p: nat, from: nat, to: nat, atHead: bool, q: Proc)
      requires Valid() && p < NPROC && p !in leaked && q.prio <= MAXPRIO
      requires from == ListFor(procs[p]) && to == ListFor(q) && from != to
      modifies lists, lists.head, lists.tail, lists.next, procs
      ensures Valid() && Abs() == Go(old(Abs()), p, atHead, q)
    {
      ghost var t := Abs();
      Home(t, p);
      var r := lists.RemoveFrom(from, p);
      // The panic after a failed removal cannot happen.
      assert r == 0;
      RemovedAbsent(t, p);
      procs[p] := q;
      if atHead {
        lists.AddAtHead(to, p);
      } else {
        lists.Add(to, p);
      }
      assert procs[..] == t.procs[p := q];
      assert Abs() == Go(t, p, atHead, q);
    }

    /** The loops that look along a list for a process. */
    method Find(l: nat, w: Want) returns (p: int, ghost k: nat)
      requires Valid() && l < NLISTS
      ensures k == First(lists.lists[l], procs[..], w)
      ensures p == if k < |lists.lists[l]| then lists.lists[l][k] else NULL
      ensures p != NULL ==> 0 <= p < NPROC
    {
      ghost var s := lists.lists[l];
      k := 0;
      lists.Walk(l, 0);
      p := lists.head[l];
      while p != NULL && !Matches(procs[p], w)
        invariant 0 <= k <= |s| && p == if k < |s| then s[k] else NULL
        invariant p != NULL ==> 0 <= p < NPROC
        invariant forall j :: 0 <= j < k ==> !(s[j] < NPROC && Matches(procs[s[j]], w))
        decreases |s| - k
      {
        lists.Walk(l, k);
        p := lists.next[p];
        k := k + 1;
        if k < |s| { lists.Walk(l, k); }
      }
      FirstAt(s, procs[..], w, k);
    }

    /** wakeup1. Having moved a process the loop goes on from its new place, the end of a ready list. */
    method Wakeup1(c: Chan)
      requires Valid()
      modifies lists, lists.head, lists.tail, lists.next, procs
      ensures Valid() && Abs() == Wakeup(old(Abs()), c)
    {
      ghost var t, s := Abs(), lists.lists[SLEEP];
      ghost var k, found := 0, false;
      lists.Walk(SLEEP, 0);
      var p := lists.head[SLEEP];
      while p != NULL
        invariant Valid() && (p != NULL ==> 0 <= p < NPROC)
        invariant !found ==> Abs() == t && 0 <= k <= |s| && p == if k < |s| then s[k] else NULL
        invariant !found ==> forall j :: 0 <= j < k ==> !(s[j] < NPROC && Matches(t.procs[s[j]], ByChan(c)))
        invariant found ==> p == NULL && Abs() == Wakeup(t, c)
        decreases if found then 0 else 1 + |s| - k
      {
        if procs[p].chan == c {
          FirstAt(s, t.procs, ByChan(c), k);
          StateOf(t, SLEEP, k);
          var l := procs[p].prio;
          Transition(p, SLEEP, l, false, procs[p].(state := RUNNABLE));
          ghost var ready := lists.lists[l];
          assert ready[|ready| - 1] == p;
          lists.Walk(l, |ready| - 1);
          found := true;
        } else {
          lists.Walk(SLEEP, k);
          if k + 1 < |s| { lists.Walk(SLEEP, k + 1); }
          k := k + 1;
        }
        p := lists.next[p];
      }
      if !found { FirstAt(s, t.procs, ByChan(c), k); }
    }

    /** A loop over a list that edits each record on it. */
    method Sweep(l: nat, e: Edit)
      requires procs.Length == NPROC && lists.Valid() && l < NLISTS
      modifies procs
      ensures procs[..] == Swept(old(procs[..]), lists.lists[l], e)
    {
      ghost var s, was, k := lists.lists[l], procs[..], 0;
      lists.NoDup(l);
      lists.Walk(l, 0);
      var p := lists.head[l];
      assert procs[..] == Swept(was, s[..0], e);
      while p != NULL
        invariant 0 <= k <= |s| && p == if k < |s| then s[k] else NULL
        invariant procs[..] == Swept(was, s[..k], e)
        decreases |s| - k
      {
        lists.Walk(l, k);
        SweptOne(was, s, k, e);
        procs[p] := Edited(procs[p], e);
        assert procs[..] == Swept(was, s[..k + 1], e);
        p := lists.next[p];
        k := k + 1;
      }
      assert s[..k] == s;
    }

    /** One of the loops in exit() that pass children to init. */
    method AdoptList(l: nat, me: nat)
      requires Valid() && l < NLISTS
      modifies procs
      ensures Valid() && Abs() == Adopt(old(Abs()), {l}, me)
    {
      ghost var t := Abs();
      Sweep(l, Edit.Foster(me));
      SweepAdopts(t, l, me);
      assert Abs() == Adopt(t, {l}, me);
    }

    method AdoptReady(me: nat)
      requires Valid()
      modifies procs
      ensures Valid() && Abs() == Adopt(old(Abs()), Levels(MAXPRIO + 1), me)
    {
      ghost var t := Abs();
      assert Adopted(t, {}, me) == t.procs;
      for i := 0 to MAXPRIO + 1
        invariant Valid() && Abs() == Adopt(t, Levels(i), me)
      {
        AdoptList(i, me);
        AdoptTwice(t, Levels(i), {i}, me);
        assert Levels(i) + {i} == Levels(i + 1);
      }
    }

    /** The four loops of exit() over the embryo, ready, running and sleep lists. */
    method AdoptLiving(me: nat)
      requires Valid()
      modifies procs
      ensures Valid() && Abs() == Adopt(old(Abs()), WalkedLists(), me)
    {
      ghost var t, ready := Abs(), Levels(MAXPRIO + 1);
      AdoptList(EMBRYOS, me);
      AdoptReady(me);
      AdoptTwice(t, {EMBRYOS}, ready, me);
      AdoptList(RUN, me);
      AdoptTwice(t, {EMBRYOS} + ready, {RUN}, me);
      AdoptList(SLEEP, me);
      AdoptTwice(t, {EMBRYOS} + ready + {RUN}, {SLEEP}, me);
      assert {EMBRYOS} + ready + {RUN} + {SLEEP} == WalkedLists();
    }

    method AdoptOneDead(z: nat, me: nat)
      requires Valid() && z < NPROC
      modifies lists, lists.head, lists.tail, lists.next, procs
      ensures Valid() && Abs() == AdoptZombie(old(Abs()), z, me) && lists.lists[ZOMBIES] == old(lists.lists[ZOMBIES])
    {
      if procs[z].parent == me {
        ghost var t := Abs();
        procs[z] := procs[z].(parent := INIT);
        assert procs[..] == t.procs[z := t.procs[z].(parent := INIT)];
        RecordsKeep(t, procs[..]);
        WakeupEffect(Abs(), ProcChan(INIT));
        Wakeup1(ProcChan(INIT));
      }
    }

    /** The loop of exit() over the zombies. */
    method AdoptDead(me: nat)
      requires Valid()
      modifies lists, lists.head, lists.tail, lists.next, procs
      ensures Valid() && Abs() == AdoptZombies(old(Abs()), old(lists.lists[ZOMBIES]), me)
    {
      ghost var t, zs, k := Abs(), lists.lists[ZOMBIES], 0;
      lists.Walk(ZOMBIES, 0);
      var p := lists.head[ZOMBIES];
      assert zs[0..] == zs;
      while p != NULL
        invariant Valid() && lists.lists[ZOMBIES] == zs && 0 <= k <= |zs| && p == if k < |zs| then zs[k] else NULL
        invariant AdoptZombies(Abs(), zs[k..], me) == AdoptZombies(t, zs, me)
        decreases |zs| - k
      {
        lists.Walk(ZOMBIES, k);
        assert zs[k..][1..] == zs[k + 1..];
        AdoptOneDead(p, me);
        lists.Walk(ZOMBIES, k);
        p := lists.next[p];
        k := k + 1;
      }
    }

    /** exit(), from the point where it takes the lock. */
    method Exit(me: nat)
      requires Valid() && Enabled(Abs(), ExitProc(me))
      modifies lists, lists.head, lists.tail, lists.next, procs
      ensures Valid() && Abs() == Next(old(Abs()), ExitProc(me))
    {
      ghost var t := Abs();
      Wakeup1(ParentChan(procs[me].parent));
      AdoptLiving(me);
      AdoptDead(me);
      ExitEffect(t, me);
      Home(Abs(), me);
      Transition(me, RUN, ZOMBIES, false, procs[me].(state := ZOMBIE));
    }

    /** The loops of wait() that look for a child that has not exited. */
    method HaveKids(me: nat) returns (b: bool)
      requires Valid() && me < NPROC
      ensures b <==> HasKids(Abs(), me)
    {
      b := false;
      var order := KillOrder();
      for i := 0 to |order|
        invariant b <==> exists j :: 0 <= j < i && On(Abs(), order[j], ByParent(me))
      {
        var p, k := Find(order[i], ByParent(me));
        if p != NULL {
          assert On(Abs(), order[i], ByParent(me));
          b := true;
        }
      }
      OrderExact(Abs(), ByParent(me));
      assert HasKids(Abs(), me) <==> Walked(Abs(), ByParent(me));
    }

    /** One turn of the loop of wait(): reap a zombie child, give up, or go to sleep. */
    method Wait(me: nat, ticks: nat) returns (w: WaitResult)
      requires Valid() && Enabled(Abs(), WaitProc(me, ticks))
      modifies lists, lists.head, lists.tail, lists.next, procs
      ensures Valid() && Abs() == Next(old(Abs()), WaitProc(me, ticks)) && w == WaitOutcome(old(Abs()), me)
    {
      var z, k := Find(ZOMBIES, ByParent(me));
      if z != NULL {
        StateOf(Abs(), ZOMBIES, k);
        var pid := procs[z].pid;
        Transition(z, ZOMBIES, FREE, false, procs[z].(state := UNUSED, pid := 0, parent := NULL, killed := false));
        return Reaped(pid);
      }
      var kids := HaveKids(me);
      if !kids || procs[me].killed {
        return NoKids;
      }
      Sleep(me, ProcChan(me), ticks);
      return Sleeps;
    }

    /** sleep(): off the running list, onto the sleep list, then the budget is charged. */
    method Sleep(me: nat, c: Chan, ticks: nat)
      requires Valid() && me < NPROC && procs[me].state.RUNNING?
      modifies lists, lists.head, lists.tail, lists.next, procs
      ensures Valid() && Abs() == Asleep(old(Abs()), me, c, ticks)
    {
      ghost var t := Abs();
      Home(t, me);
      Transition(me, RUN, SLEEP, false, procs[me].(chan := c, state := SLEEPING));
      procs[me] := Charge(procs[me], ticks);
      assert procs[..] == t.procs[me := procs[me]];
      assert Abs() == Asleep(t, me, c, ticks);
    }

    method Yield(me: nat, ticks: nat)
      requires Valid() && Enabled(Abs(), Step.Yield(me, ticks))
      modifies lists, lists.head, lists.tail, lists.next, procs
      ensures Valid() && Abs() == Next(old(Abs()), Step.Yield(me, ticks))
    {
      Home(Abs(), me);
      var q := Charge(procs[me].(state := RUNNABLE), ticks);
      Transition(me, RUN, q.prio, false, q);
    }

    /** The body of the scheduler's loop over the levels. */
    method Dispatch(level: nat, ticks: nat)
      requires Valid() && level <= MAXPRIO
      modifies lists, lists.head, lists.tail, lists.next, procs
      ensures Valid()
      ensures Abs() == if old(Abs()).lists[level] == [] then old(Abs()) else Next(old(Abs()), Step.Dispatch(level, ticks))
    {
      lists.Walk(level, 0);
      var p := lists.head[level];
      if p == NULL {
        return;
      }
      StateOf(Abs(), level, 0);
      // The list removed from is that of the process's own priority.
      Transition(p, procs[p].prio, RUN, true, procs[p].(state := RUNNING, ticksIn := ticks));
    }

    method Wake(c: Chan)
      requires Valid()
      modifies lists, lists.head, lists.tail, lists.next, procs
      ensures Valid() && Abs() == Next(old(Abs()), Step.Wake(c))
    {
      Wakeup1(c);
    }

    /** kill(): 0 if there is such a process that is neither a zombie nor free, else -1. */
    method Kill(pid: nat) returns (r: int)
      requires Valid()
      modifies lists, lists.head, lists.tail, lists.next, procs
      ensures Valid() && Abs() == Next(old(Abs()), Step.Kill(pid))
      ensures r == if Walked(old(Abs()), ByPid(pid)) then 0 else -1
    {
      OrderExact(Abs(), ByPid(pid));
      var order := KillOrder();
      r := KillAlong(order, pid);
    }

    method KillAlong(order: seq<nat>, pid: nat) returns (r: int)
      requires Valid() && forall i :: 0 <= i < |order| ==> order[i] < NLISTS
      modifies lists, lists.head, lists.tail, lists.next, procs
      ensures Valid() && Abs() == KillIn(old(Abs()), order, pid)
      ensures r == 0 || r == -1
      ensures r == 0 <==> exists i :: 0 <= i < |order| && On(old(Abs()), order[i], ByPid(pid))
    {
      ghost var t := Abs();
      assert order[0..] == order;
      for i := 0 to |order|
        invariant Valid() && Abs() == t && KillIn(t, order[i..], pid) == KillIn(t, order, pid)
        invariant forall j :: 0 <= j < i ==> !On(t, order[j], ByPid(pid))
      {
        assert order[i..][1..] == order[i + 1..];
        var p, k := Find(order[i], ByPid(pid));
        if p != NULL {
          assert On(t, order[i], ByPid(pid));
          MarkKilled(p, order[i], k);
          return 0;
        }
      }
      return -1;
    }

    method MarkKilled(p: nat, l: nat, ghost k: nat)
      requires Valid() && l < NLISTS && k < |lists.lists[l]| && p == lists.lists[l][k] && p < NPROC
      modifies lists, lists.head, lists.tail, lists.next, procs
      ensures Valid() && Abs() == KillAt(old(Abs()), l, k)
    {
      ghost var t := Abs();
      if l == SLEEP {
        StateOf(t, SLEEP, k);
        Transition(p, SLEEP, procs[p].prio, false, procs[p].(killed := true, state := RUNNABLE));
      } else {
        procs[p] := procs[p].(killed := true);
        assert procs[..] == t.procs[p := procs[p]];
        RecordsKeep(t, procs[..]);
      }
    }

    /** allocproc up to its first release of the lock: the head of the free list, or 0. */
    method TakeSlot(me: nat) returns (p: int)
      requires Valid() && Running(Abs(), me) && me !in forking
      modifies this, lists, lists.head, lists.tail, lists.next, procs
      ensures Valid() && (p == NULL <==> old(Abs()).lists[FREE] == [])
      ensures p == NULL ==> Abs() == old(Abs())
      ensures p != NULL ==> p == old(Abs()).lists[FREE][0] && Abs() == Next(old(Abs()), Alloc(me))
    {
      lists.Walk(FREE, 0);
      p := lists.head[FREE];
      if p == NULL {
        return;
      }
      StateOf(Abs(), FREE, 0);
      Transition(p, FREE, EMBRYOS, true, procs[p].(state := EMBRYO, pid := nextpid));
      ghost var u := Abs();
      nextpid := nextpid + 1;
      forking := forking[me := p];
      PartitionSame(u, Abs());
    }

    /** allocproc without a page for the kernel stack: the slot stays on the embryo list. */
    method StackFailed(me: nat, p: nat)
      requires Valid() && Enabled(Abs(), StackFail(me)) && p == forking[me]
      modifies this, procs
      ensures Valid() && Abs() == Next(old(Abs()), StackFail(me))
    {
      ghost var t := Abs();
      procs[p] := procs[p].(state := UNUSED);
      assert procs[..] == t.procs[p := procs[p]];
      leaked, forking := leaked + {p}, forking - {me};
      assert Abs() == Next(t, StackFail(me));
    }

    method StackReady(me: nat, p: nat)
      requires Valid() && Enabled(Abs(), StackOk(me)) && p == forking[me]
      modifies procs
      ensures Valid() && Abs() == Next(old(Abs()), StackOk(me))
    {
      ghost var t := Abs();
      procs[p] := procs[p].(budget := MAXBUDG, prio := 0);
      assert procs[..] == t.procs[p := procs[p]];
      assert Abs() == Next(t, StackOk(me));
    }

    /** fork() when the address space cannot be copied. */
    method ForkFailed(me: nat, p: nat)
      requires Valid() && Enabled(Abs(), ForkFail(me)) && p == forking[me]
      modifies this, lists, lists.head, lists.tail, lists.next, procs
      ensures Valid() && Abs() == Next(old(Abs()), ForkFail(me))
    {
      ghost var t := Abs();
      Home(t, p);
      Transition(p, EMBRYOS, FREE, true, procs[p].(state := UNUSED));
      forking := forking - {me};
      assert Abs() == Next(t, ForkFail(me));
    }

    method NameParent(me: nat, p: nat)
      requires Valid() && Enabled(Abs(), SetParent(me)) && p == forking[me]
      modifies procs
      ensures Valid() && Abs() == Next(old(Abs()), SetParent(me))
    {
      ghost var t := Abs();
      procs[p] := procs[p].(parent := me);
      assert procs[..] == t.procs[p := procs[p]];
      assert Abs() == Next(t, SetParent(me));
    }

    /** The end of fork(): the child becomes ready at the top level. */
    method ForkDone(me: nat, p: nat) returns (pid: nat)
      requires Valid() && Enabled(Abs(), Publish(me)) && p == forking[me]
      modifies this, lists, lists.head, lists.tail, lists.next, procs
      ensures Valid() && Abs() == Next(old(Abs()), Publish(me)) && pid == Abs().procs[p].pid
    {
      ghost var t := Abs();
      Home(t, p);
      pid := procs[p].pid;
      Transition(p, EMBRYOS, 0, false, procs[p].(state := RUNNABLE, prio := 0, budget := MAXBUDG));
      forking := forking - {me};
      assert Abs() == Next(t, Publish(me));
    }

    /** The pointer part of promoteAll. */
    method Reorder()
      requires lists.Valid()
      modifies lists, lists.head, lists.tail, lists.next
      ensures lists.Valid() && lists.lists == PromotedLists(old(lists.lists))
    {
      lists.JoinTop();
      lists.MoveUp();
    }

    /** The loop of promoteAll over the ready levels. */
    method Relevel(ghost t: Table)
      requires Partition(t) && procs.Length == NPROC && lists.Valid() && lists.lists == Promote(t).lists && procs[..] == t.procs
      modifies procs
      ensures procs[..] == Lifted(t, MAXPRIO)
    {
      LiftedNone(t);
      for i := 0 to MAXPRIO
        invariant procs[..] == Lifted(t, i)
      {
        LiftedStep(t, i);
        Sweep(i, Level(i));
      }
    }

    /** The record part of promoteAll. */
    method Relabel(ghost t: Table)
      requires Partition(t) && procs.Length == NPROC && lists.Valid() && lists.lists == Promote(t).lists && procs[..] == t.procs
      modifies procs
      ensures procs[..] == Promote(t).procs
    {
      Relevel(t);
      Sweep(SLEEP, Lift);
      Sweep(RUN, Lift);
      LiftedDone(t);
    }

    /** promoteAll, when its time has come. */
    method Promotes()
      requires Valid()
      modifies lists, lists.head, lists.tail, lists.next, procs
      ensures Valid() && Abs() == Next(old(Abs()), PromoteAll)
    {
      ghost var t := Abs();
      Reorder();
      Relabel(t);
    }

    method Reprioritise(l: nat, pid: nat, prio: int) returns (r: int)
      requires Valid() && (l == RUN || l == SLEEP) && On(Abs(), l, ByPid(pid))
      modifies procs
      ensures Valid() && Reprioritised(old(Abs()), Abs(), l, pid, prio, r)
    {
      ghost var t := Abs();
      var p, k := Find(l, ByPid(pid));
      StateOf(t, l, k);
      if prio < 0 || prio > MAXPRIO {
        return -1;
      }
      procs[p] := procs[p].(prio := prio, budget := MAXBUDG);
      assert procs[..] == t.procs[p := procs[p]];
      assert Abs() == Next(t, SetPrio(p, prio));
      return prio;
    }

    /**
     setPriority: a ready process always keeps its priority, for the test that is to skip needless
     moves succeeds on every one; a running or sleeping one takes the new priority. `holding` and
     `held` say whether ptable.lock is held before and after: two of the ways out do not release it.
     */
    method SetPriority(pid: nat, prio: int, holding: bool) returns (r: int, held: bool)
      requires Valid()
      modifies procs
      ensures Valid() && (OnReady(old(Abs()), pid) ==> Abs() == old(Abs()) && 0 <= r <= MAXPRIO && On(Abs(), r, ByPid(pid)))
      ensures !OnReady(old(Abs()), pid) && On(old(Abs()), RUN, ByPid(pid)) ==> Reprioritised(old(Abs()), Abs(), RUN, pid, prio, r)
      ensures !OnReady(old(Abs()), pid) && !On(old(Abs()), RUN, ByPid(pid)) && On(old(Abs()), SLEEP, ByPid(pid)) ==>
        Reprioritised(old(Abs()), Abs(), SLEEP, pid, prio, r)
      ensures !OnReady(old(Abs()), pid) && !On(old(Abs()), RUN, ByPid(pid)) && !On(old(Abs()), SLEEP, ByPid(pid)) ==>
        Abs() == old(Abs()) && r == -1
      ensures held == (|| holding || OnReady(old(Abs()), pid)
                       || (!(0 <= prio <= MAXPRIO) && (On(old(Abs()), RUN, ByPid(pid)) || On(old(Abs()), SLEEP, ByPid(pid)))))
    {
      ghost var t := Abs();
      for i := 0 to MAXPRIO + 1
        invariant Abs() == t && forall j :: 0 <= j < i ==> !On(t, j, ByPid(pid))
      {
        var p, k := Find(i, ByPid(pid));
        if p != NULL {
          StateOf(t, i, k);
          assert procs[p].prio == i && On(t, i, ByPid(pid));
          return i, true;
        }
      }
      assert !OnReady(t, pid);
      var p, k := Find(RUN, ByPid(pid));
      if p != NULL {
        r := Reprioritise(RUN, pid, prio);
        held := holding || r == -1;
        return;
      }
      p, k := Find(SLEEP, ByPid(pid));
      if p != NULL {
        r := Reprioritise(SLEEP, pid, prio);
        held := holding || r == -1;
        return;
      }
      return -1, holding;
    }

    /** assertPriority: whether every ready process is on the list of its priority; otherwise the kernel panics. */
    method AssertPriority() returns (ok: bool)
      requires Valid()
      ensures ok
    {
      for i := 0 to MAXPRIO + 1
      {
        ghost var s, k := lists.lists[i], 0;
        lists.Walk(i, 0);
        var p := lists.head[i];
        while p != NULL
          invariant 0 <= k <= |s| && p == if k < |s| then s[k] else NULL
          decreases |s| - k
        {
          lists.Walk(i, k);
          StateOf(Abs(), i, k);
          if procs[p].prio != i {
            return false;
          }
          p := lists.next[p];
          k := k + 1;
        }
      }
      return true;
    }
  }

  /** Where promoteAll leaves a process: on the list of its new priority, the sleeping and running where they were. */
  lemma PromotedPlace(t: Table, p: nat)
    requires Partition(t) && p < NPROC
    ensures var r := Promote(t);
      && (forall i :: 0 <= i <= MAXPRIO ==> (p in r.lists[i] <==> t.procs[p].state.RUNNABLE? && r.procs[p].prio == i))
      && (p in r.lists[SLEEP] <==> t.procs[p].state.SLEEPING?) && (p in r.lists[RUN] <==> t.procs[p].state.RUNNING?)
      && r.procs[p].prio <= MAXPRIO && (t.procs[p].state.RUNNABLE? ==> r.procs[p].prio < MAXPRIO)
  {
    Home(t, p);
    Home(Promote(t), p);
  }

  /** The records after the ready levels above `i` have been relabelled. */
  ghost function Lifted(t: Table, i: nat): (r: seq<Proc>)
    requires Partition(t)
    ensures |r| == NPROC
  {
    seq(NPROC, p requires 0 <= p < NPROC =>
      if t.procs[p].state.RUNNABLE? && PromotedProc(t.procs[p]).prio < i then PromotedProc(t.procs[p]) else t.procs[p])
  }

  lemma LiftedNone(t: Table)
    requires Partition(t)
    ensures Lifted(t, 0) == t.procs
  {
  }

  lemma LiftedStep(t: Table, i: nat)
    requires Partition(t) && i < MAXPRIO
    ensures Swept(Lifted(t, i), Promote(t).lists[i], Level(i)) == Lifted(t, i + 1)
  {
    var s := Swept(Lifted(t, i), Promote(t).lists[i], Level(i));
    forall p | 0 <= p < NPROC ensures s[p] == Lifted(t, i + 1)[p] { PromotedPlace(t, p); }
  }

  lemma LiftedDone(t: Table)
    requires Partition(t)
    ensures Swept(Swept(Lifted(t, MAXPRIO), Promote(t).lists[SLEEP], Lift), Promote(t).lists[RUN], Lift) == Promote(t).procs
  {
    var s := Swept(Swept(Lifted(t, MAXPRIO), Promote(t).lists[SLEEP], Lift), Promote(t).lists[RUN], Lift);
    forall p | 0 <= p < NPROC ensures s[p] == Promote(t).procs[p] { PromotedPlace(t, p); }
  }

  /** Someone on list `l` matches. */
  ghost predicate On(t: Table, l: nat, w: Want) {
    l < |t.lists| && First(t.lists[l], t.procs, w) < |t.lists[l]|
  }

  ghost predicate OnReady(t: Table, pid: nat) {
    exists i :: 0 <= i <= MAXPRIO && On(t, i, ByPid(pid))
  }

  /** The first process with that pid on list `l` has the new priority, if that is one. */
  ghost predicate Reprioritised(t: Table, u: Table, l: nat, pid: nat, prio: int, r: int)
    requires Partition(t) && l < NLISTS && On(t, l, ByPid(pid))
  {
    var p := t.lists[l][First(t.lists[l], t.procs, ByPid(pid))];
    if 0 <= prio <= MAXPRIO then r == prio && Enabled(t, SetPrio(p, prio)) && u == Next(t, SetPrio(p, prio))
    else r == -1 && u == t
  }

  predicate Sits(t: Table, p: nat, l: nat) {
    p < |t.procs| && ListOf(t, p) == l
  }

  /** Someone matches who is on a list that exit(), wait() and kill() walk. */
  ghost predicate Walked(t: Table, w: Want)
    requires |t.procs| == NPROC
  {
    exists p :: 0 <= p < NPROC && Walks(ListOf(t, p)) && Matches(t.procs[p], w)
  }

  lemma OnExact(t: Table, l: nat, w: Want)
    requires Partition(t) && l < NLISTS
    ensures On(t, l, w) <==> exists p :: 0 <= p < NPROC && Sits(t, p, l) && Matches(t.procs[p], w)
  {
    var s := t.lists[l];
    var k := First(s, t.procs, w);
    if k < |s| {
      Resident(t, l, k);
      assert Sits(t, s[k], l);
    } else {
      forall p | 0 <= p < NPROC && Sits(t, p, l)
        ensures !Matches(t.procs[p], w)
      {
        Home(t, p);
        var j :| 0 <= j < |s| && s[j] == p;
      }
    }
  }

  /** The order of kill() covers the walked lists. */
  lemma OrderExact(t: Table, w: Want)
    requires Partition(t)
    ensures Walked(t, w) <==> exists i :: 0 <= i < |KillOrder()| && On(t, KillOrder()[i], w)
  {
    var o := KillOrder();
    if p :| 0 <= p < NPROC && Walks(ListOf(t, p)) && Matches(t.procs[p], w) {
      var l := ListOf(t, p);
      OnExact(t, l, w);
      assert Sits(t, p, l);
      var i := if l == EMBRYOS then 0 else if l <= MAXPRIO then l + 1 else if l == RUN then MAXPRIO + 2 else MAXPRIO + 3;
      assert o[i] == l;
    }
    if i :| 0 <= i < |o| && On(t, o[i], w) { OnExact(t, o[i], w); }
  }
}
