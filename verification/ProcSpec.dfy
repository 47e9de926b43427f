/**
 The process table as a machine: the state lists as sequences, one step per critical section
 under ptable.lock. ProcTable shows that the pointer code of proc.c takes exactly these steps.
 */
module ProcSpec {
  import opened StateLists
  import opened Sealing

  const MAXBUDG: nat := 200
  const WORD: nat := 0x1_0000_0000
  const INIT: nat := 0

  datatype ProcState = UNUSED | EMBRYO | SLEEPING | RUNNABLE | RUNNING | ZOMBIE

  /** What a process sleeps on: the address of a process (wait), or anything else. */
  datatype Chan = NoChan | ProcChan(p: nat) | Other(id: nat)

  datatype Proc = Proc(
    state: ProcState, pid: nat, parent: int, chan: Chan, killed: bool, prio: nat, budget: nat, ticksIn: nat)

  /**
   `forking` maps a process inside fork() to the slot it is filling. `leaked` are the slots that the
   kernel-stack failure branch of allocproc has set to UNUSED without taking them off the embryo list.
   */
  datatype Table = Table(
    lists: seq<seq<nat>>, procs: seq<Proc>, nextpid: nat, forking: map<nat, nat>, leaked: set<nat>)

  predicate Alive(s: ProcState) {
    s.RUNNABLE? || s.RUNNING? || s.SLEEPING?
  }

  /** The list a process belongs on. */
  function ListFor(q: Proc): (l: nat) {
    match q.state
    case UNUSED => FREE
    case EMBRYO => EMBRYOS
    case SLEEPING => SLEEP
    case RUNNABLE => q.prio
    case RUNNING => RUN
    case ZOMBIE => ZOMBIES
  }

  function ListOf(t: Table, p: nat): (l: nat)
    requires p < |t.procs|
  {
    if p in t.leaked then EMBRYOS else ListFor(t.procs[p])
  }

  /** Every slot is on exactly one list, once, and on the one its state calls for. */
  ghost predicate OnItsList(t: Table)
    requires |t.lists| == NLISTS && |t.procs| == NPROC
  {
    && (forall l :: 0 <= l < NLISTS ==> Distinct(t.lists[l]))
    && (forall p :: 0 <= p < NPROC ==> t.procs[p].prio <= MAXPRIO)
    && (forall p :: 0 <= p < NPROC ==> p in t.lists[ListOf(t, p)])
    && (forall l: nat, p: nat {:trigger p in t.lists[l]} :: l < NLISTS && p in t.lists[l] ==> p < NPROC && ListOf(t, p) == l)
    && (forall p :: p in t.leaked ==> p < NPROC && t.procs[p].state.UNUSED?)
  }

  ghost predicate Partition(t: Table) {
    && |t.lists| == NLISTS && |t.procs| == NPROC
    && forall k: nat {:trigger PartOpen(k)} :: PartOpen(k) ==> OnItsList(t)
  }

  /** Where a slot is, and that it is nowhere else. */
  lemma Home(t: Table, p: nat)
    requires Partition(t) && p < NPROC
    ensures t.procs[p].prio <= MAXPRIO && ListFor(t.procs[p]) < NLISTS && ListOf(t, p) < NLISTS
    ensures p in t.lists[ListOf(t, p)] && forall l :: 0 <= l < NLISTS && l != ListOf(t, p) ==> p !in t.lists[l]
    ensures p in t.leaked ==> t.procs[p].state.UNUSED?
  {
    assert PartOpen(0);
  }

  /** What is on a list. */
  lemma Resident(t: Table, l: nat, k: nat)
    requires Partition(t) && l < NLISTS && k < |t.lists[l]|
    ensures t.lists[l][k] < NPROC && ListOf(t, t.lists[l][k]) == l && Distinct(t.lists[l])
  {
    assert PartOpen(0);
    assert t.lists[l][k] in t.lists[l];
  }

  /** A resident of a list other than the embryo list is in the state of that list. */
  lemma StateOf(t: Table, l: nat, k: nat)
    requires Partition(t) && l < NLISTS && l != EMBRYOS && k < |t.lists[l]|
    ensures var p := t.lists[l][k]; p < NPROC && p !in t.leaked && ListFor(t.procs[p]) == l && t.procs[p].prio <= MAXPRIO
  {
    Resident(t, l, k);
    Home(t, t.lists[l][k]);
  }

  /** Records changed without changing anyone's list. */
  lemma RecordsKeep(t: Table, procs: seq<Proc>)
    requires Partition(t) && |procs| == NPROC
    requires forall p :: 0 <= p < NPROC ==> procs[p].state == t.procs[p].state && procs[p].prio == t.procs[p].prio
    ensures Partition(t.(procs := procs))
  {
    assert PartOpen(0);
    var r := t.(procs := procs);
    forall p | 0 <= p < NPROC
      ensures p in r.lists[ListOf(r, p)]
    {
      assert p in t.lists[ListOf(t, p)];
    }
  }

  /** The lists after `p` goes from one to another, to its head or its tail. */
  function MovedLists(lists: seq<seq<nat>>, p: nat, from: nat, to: nat, atHead: bool): (r: seq<seq<nat>>)
    requires from < |lists| && to < |lists|
  {
    var ls := lists[from := Remove(lists[from], p)];
    ls[to := if atHead then [p] + ls[to] else ls[to] + [p]]
  }

  lemma MovedMembers(lists: seq<seq<nat>>, p: nat, from: nat, to: nat, atHead: bool, l: nat, x: nat)
    requires from < |lists| && to < |lists| && l < |lists| && from != to && Distinct(lists[from])
    ensures var r := MovedLists(lists, p, from, to, atHead);
      x in r[l] <==> (l == to && x == p) || (x in lists[l] && !(l == from && x == p))
  {
    RemoveMembers(lists[from], p);
  }

  lemma MovedDistinct(lists: seq<seq<nat>>, p: nat, from: nat, to: nat, atHead: bool, l: nat)
    requires from < |lists| && to < |lists| && l < |lists| && from != to
    requires Distinct(lists[from]) && Distinct(lists[l]) && p !in lists[to]
    ensures Distinct(MovedLists(lists, p, from, to, atHead)[l])
  {
    RemoveMembers(lists[from], p);
    assert forall i :: 0 <= i < |lists[to]| ==> lists[to][i] in lists[to];
  }

  /** Process `p` taken off its list and put on list `to`, its record replaced by `q`. */
  function Moved(t: Table, p: nat, to: nat, atHead: bool, q: Proc): (r: Table)
    requires p < |t.procs| && ListOf(t, p) < |t.lists| && to < |t.lists|
  {
    t.(lists := MovedLists(t.lists, p, ListOf(t, p), to, atHead), procs := t.procs[p := q])
  }

  lemma MovedKeeps(t: Table, p: nat, to: nat, atHead: bool, q: Proc)
    requires Partition(t) && p < NPROC && p !in t.leaked && ListFor(q) == to < NLISTS && q.prio <= MAXPRIO
    requires ListOf(t, p) < NLISTS && ListOf(t, p) != to
    ensures Partition(Moved(t, p, to, atHead, q))
  {
    assert PartOpen(0);
    var from, r := ListOf(t, p), Moved(t, p, to, atHead, q);
    forall l: nat, x: nat {:trigger x in r.lists[l]} | l < NLISTS && x in r.lists[l]
      ensures x < NPROC && ListOf(r, x) == l
    {
      MovedMembers(t.lists, p, from, to, atHead, l, x);
    }
    forall x | 0 <= x < NPROC
      ensures x in r.lists[ListOf(r, x)]
    {
      MovedMembers(t.lists, p, from, to, atHead, ListOf(r, x), x);
      assert x in t.lists[ListOf(t, x)];
    }
    forall l | 0 <= l < NLISTS
      ensures Distinct(r.lists[l])
    {
      MovedDistinct(t.lists, p, from, to, atHead, l);
    }
    assert OnItsList(r);
  }

  // ---------------------------------------------------------------- searching lists

  datatype Want = ByChan(c: Chan) | ByParent(me: nat) | ByPid(pid: nat)

  predicate Matches(q: Proc, w: Want) {
    match w
    case ByChan(c) => q.chan == c
    case ByParent(me) => q.parent == me
    case ByPid(pid) => q.pid == pid
  }

  /** The place of the first match on a list, or the list's length. */
  function First(s: seq<nat>, procs: seq<Proc>, w: Want): (k: nat)
    ensures k <= |s| && (k < |s| ==> s[k] < |procs| && Matches(procs[s[k]], w))
    ensures forall j :: 0 <= j < k && s[j] < |procs| ==> !Matches(procs[s[j]], w)
  {
    if s == [] || (s[0] < |procs| && Matches(procs[s[0]], w)) then 0 else 1 + First(s[1..], procs, w)
  }

  // ---------------------------------------------------------------- the steps

  /** The record after `ticks` of the clock: budget charged in 32-bit arithmetic, demoted on underflow. */
  function Charge(q: Proc, ticks: nat): (r: Proc) {
    var b := (q.budget - (ticks - q.ticksIn) % WORD) % WORD;
    if b <= MAXBUDG then q.(budget := b)
    else q.(prio := if q.prio < MAXPRIO then q.prio + 1 else q.prio, budget := MAXBUDG)
  }

  /** The time a process has run since it was dispatched, in 32-bit arithmetic. */
  function Slice(q: Proc, ticks: nat): (n: nat)
    ensures n < WORD
  {
    (ticks - q.ticksIn) % WORD
  }

  /** What is left of the budget, and the level, after `used` ticks. */
  predicate Charged(q: Proc, r: Proc, used: nat) {
    if used <= q.budget then r.budget == q.budget - used && r.prio == q.prio
    else if used < WORD - MAXBUDG + q.budget then r.budget == MAXBUDG && r.prio == (if q.prio == MAXPRIO then MAXPRIO else q.prio + 1)
    else r.budget == q.budget + WORD - used && r.prio == q.prio
  }

  /**
   The budget pays for the ticks used; a process that used more than it had goes down a level, if there is
   one, with a full budget. Only when the 32-bit difference wraps does it gain.
   */
  lemma ChargeExact(q: Proc, ticks: nat)
    requires q.budget <= MAXBUDG && q.prio <= MAXPRIO
    ensures var r := Charge(q, ticks); Charged(q, r, Slice(q, ticks)) && r == q.(budget := r.budget, prio := r.prio)
    ensures Charge(q, ticks).budget <= MAXBUDG
  {
    var used := Slice(q, ticks);
    assert (q.budget - used) % WORD == if used <= q.budget then q.budget - used else q.budget - used + WORD;
  }

  ghost function Wakeup(t: Table, c: Chan): (r: Table)
    requires Partition(t)
    ensures Partition(r)
  {
    var s := t.lists[SLEEP];
    var k := First(s, t.procs, ByChan(c));
    if k == |s| then t
    else
      StateOf(t, SLEEP, k);
      MovedKeeps(t, s[k], t.procs[s[k]].prio, false, t.procs[s[k]].(state := RUNNABLE));
      Moved(t, s[k], t.procs[s[k]].prio, false, t.procs[s[k]].(state := RUNNABLE))
  }

  /** The lists exit(), wait() and kill() walk besides the zombies: all but the free list. */
  predicate Walks(l: nat) {
    l < NLISTS && l != FREE && l != ZOMBIES
  }

  /** Children of `me` on the lists in `ls` given to init. */
  function Adopted(t: Table, ls: set<nat>, me: nat): (r: seq<Proc>)
    ensures |r| == |t.procs|
  {
    seq(|t.procs|, p requires 0 <= p < |t.procs| =>
      if ListOf(t, p) in ls && t.procs[p].parent == me then t.procs[p].(parent := INIT) else t.procs[p])
  }

  function WalkedLists(): (ls: set<nat>)
    ensures forall l :: l in ls <==> Walks(l)
  {
    set l | 0 <= l < NLISTS && Walks(l)
  }

  ghost function Adopt(t: Table, ls: set<nat>, me: nat): (r: Table)
    requires Partition(t)
    ensures Partition(r) && r.lists == t.lists
  {
    RecordsKeep(t, Adopted(t, ls, me));
    t.(procs := Adopted(t, ls, me))
  }

  /** exit() at one zombie: if it is a child, adopt it and wake init. */
  ghost function AdoptZombie(t: Table, z: nat, me: nat): (r: Table)
    requires Partition(t)
    ensures Partition(r)
  {
    if z < NPROC && t.procs[z].parent == me then
      var procs := t.procs[z := t.procs[z].(parent := INIT)];
      RecordsKeep(t, procs);
      Wakeup(t.(procs := procs), ProcChan(INIT))
    else t
  }

  /** The loop of exit() over the zombies `zs`. */
  ghost function AdoptZombies(t: Table, zs: seq<nat>, me: nat): (r: Table)
    requires Partition(t)
    ensures Partition(r)
    decreases |zs|
  {
    if zs == [] then t else AdoptZombies(AdoptZombie(t, zs[0], me), zs[1..], me)
  }

  /** One record under promoteAll: up one level, full budget. */
  function PromotedProc(q: Proc): (r: Proc) {
    if Alive(q.state) then q.(prio := if q.prio > 0 then q.prio - 1 else 0, budget := MAXBUDG) else q
  }

  function PromotedProcs(procs: seq<Proc>): (r: seq<Proc>)
    ensures |r| == |procs|
  {
    seq(|procs|, p requires 0 <= p < |procs| => PromotedProc(procs[p]))
  }

  function PromotedLists(lists: seq<seq<nat>>): (r: seq<seq<nat>>)
    requires |lists| == NLISTS
  {
    ShiftUp(MergeTop(lists))
  }

  /**
   promoteAll shifts the ready levels in order: level 0 takes in level 1 behind its own, every
   lower level moves up one, the bottom one empties, the other lists stay.
   */
  lemma PromotedAt(lists: seq<seq<nat>>, l: nat)
    requires |lists| == NLISTS && l < NLISTS
    ensures |PromotedLists(lists)| == NLISTS
    ensures PromotedLists(lists)[l] ==
      if l == 0 then lists[0] + lists[1] else if l < MAXPRIO then lists[l + 1] else if l == MAXPRIO then [] else lists[l]
  {
  }

  lemma PromotedMember(t: Table, l: nat, x: nat)
    requires |t.lists| == NLISTS && |t.procs| == NPROC && OnItsList(t) && l < NLISTS && x in PromotedLists(t.lists)[l]
    ensures x < NPROC && ListOf(t.(lists := PromotedLists(t.lists), procs := PromotedProcs(t.procs)), x) == l
  {
    PromotedAt(t.lists, l);
    var m := if l == 0 then (if x in t.lists[0] then 0 else 1) else if l < MAXPRIO then l + 1 else l;
    assert x in t.lists[m];
  }

  lemma PromotedHome(t: Table, x: nat)
    requires |t.lists| == NLISTS && |t.procs| == NPROC && OnItsList(t) && x < NPROC
    ensures var r := t.(lists := PromotedLists(t.lists), procs := PromotedProcs(t.procs));
      ListOf(r, x) < NLISTS && x in r.lists[ListOf(r, x)]
  {
    var r := t.(lists := PromotedLists(t.lists), procs := PromotedProcs(t.procs));
    assert x in t.lists[ListOf(t, x)];
    PromotedAt(t.lists, ListOf(r, x));
  }

  lemma PromotedKeeps(t: Table)
    requires Partition(t)
    ensures Partition(t.(lists := PromotedLists(t.lists), procs := PromotedProcs(t.procs)))
  {
    assert PartOpen(0);
    var r := t.(lists := PromotedLists(t.lists), procs := PromotedProcs(t.procs));
    forall l: nat, x: nat {:trigger x in r.lists[l]} | l < NLISTS && x in r.lists[l]
      ensures x < NPROC && ListOf(r, x) == l
    {
      PromotedMember(t, l, x);
    }
    forall x | 0 <= x < NPROC
      ensures x in r.lists[ListOf(r, x)]
    {
      PromotedHome(t, x);
    }
    forall l | 0 <= l < NLISTS
      ensures Distinct(r.lists[l])
    {
      PromotedAt(t.lists, l);
      if l == 0 {
        var a, b := t.lists[0], t.lists[1];
        assert forall i :: 0 <= i < |a| ==> a[i] in a;
        assert forall i :: 0 <= i < |b| ==> b[i] in b;
      }
    }
    assert OnItsList(r);
  }

  ghost function Promote(t: Table): (r: Table)
    requires Partition(t)
    ensures Partition(r)
  {
    PromotedKeeps(t);
    t.(lists := PromotedLists(t.lists), procs := PromotedProcs(t.procs))
  }

  /** A process leaves its list for another as its record changes. */
  ghost function Go(t: Table, p: nat, atHead: bool, q: Proc): (r: Table)
    requires Partition(t) && p < NPROC && p !in t.leaked && q.prio <= MAXPRIO && ListFor(q) != ListFor(t.procs[p])
    ensures Partition(r)
  {
    Home(t, p);
    MovedKeeps(t, p, ListFor(q), atHead, q);
    Moved(t, p, ListFor(q), atHead, q)
  }

  ghost function SetRecord(t: Table, p: nat, q: Proc): (r: Table)
    requires Partition(t) && p < NPROC && q.state == t.procs[p].state && q.prio == t.procs[p].prio
    ensures Partition(r)
  {
    RecordsKeep(t, t.procs[p := q]);
    t.(procs := t.procs[p := q])
  }

  /** Does anyone on the lists wait() looks at, apart from zombies, have `me` as parent? */
  ghost predicate HasKids(t: Table, me: nat)
    requires |t.procs| == NPROC
  {
    exists p :: 0 <= p < NPROC && Walks(ListOf(t, p)) && t.procs[p].parent == me
  }

  lemma PartitionSame(t: Table, r: Table)
    requires Partition(t) && r.lists == t.lists && r.procs == t.procs && r.leaked == t.leaked
    ensures Partition(r)
  {
    assert PartOpen(0);
    assert forall p :: 0 <= p < NPROC ==> ListOf(r, p) == ListOf(t, p);
  }

  /** The kernel-stack failure branch of allocproc: the state goes to UNUSED, the list does not change. */
  lemma LeakKeeps(t: Table, p: nat)
    requires Partition(t) && p < NPROC && t.procs[p].state.EMBRYO?
    ensures Partition(t.(procs := t.procs[p := t.procs[p].(state := UNUSED)], leaked := t.leaked + {p}))
  {
    assert PartOpen(0);
    var r := t.(procs := t.procs[p := t.procs[p].(state := UNUSED)], leaked := t.leaked + {p});
    assert forall x :: 0 <= x < NPROC ==> ListOf(r, x) == ListOf(t, x);
    forall x | 0 <= x < NPROC
      ensures x in r.lists[ListOf(r, x)]
    {
      assert x in t.lists[ListOf(t, x)];
    }
  }

  function ParentChan(parent: int): (c: Chan) {
    if parent < 0 then NoChan else ProcChan(parent)
  }

  /** The table just before exit() gives up the CPU: children adopted, the exiting process still RUNNING. */
  ghost function Adopting(t: Table, me: nat): (r: Table)
    requires Partition(t) && me < NPROC
    ensures Partition(r)
  {
    var t2 := Adopt(Wakeup(t, ParentChan(t.procs[me].parent)), WalkedLists(), me);
    AdoptZombies(t2, t2.lists[ZOMBIES], me)
  }

  ghost function Exit(t: Table, me: nat): (r: Table)
    requires Partition(t) && me < NPROC
    ensures Partition(r)
  {
    var u := Adopting(t, me);
    Home(u, me);
    if u.procs[me].state.RUNNING? then Go(u, me, false, u.procs[me].(state := ZOMBIE)) else u
  }

  ghost function Asleep(t: Table, me: nat, c: Chan, ticks: nat): (r: Table)
    requires Partition(t) && me < NPROC && t.procs[me].state.RUNNING?
    ensures Partition(r)
  {
    Home(t, me);
    Go(t, me, false, Charge(t.procs[me].(chan := c, state := SLEEPING), ticks))
  }

  /** What wait() finds when it gets the lock. */
  datatype WaitResult = Reaped(pid: nat) | NoKids | Sleeps

  ghost function WaitOutcome(t: Table, me: nat): (w: WaitResult)
    requires Partition(t) && me < NPROC
  {
    var s := t.lists[ZOMBIES];
    var k := First(s, t.procs, ByParent(me));
    if k < |s| then Reaped(t.procs[s[k]].pid)
    else if !HasKids(t, me) || t.procs[me].killed then NoKids
    else Sleeps
  }

  ghost function Wait(t: Table, me: nat, ticks: nat): (r: Table)
    requires Partition(t) && me < NPROC && t.procs[me].state.RUNNING?
    ensures Partition(r)
  {
    match WaitOutcome(t, me)
    case Reaped(_) =>
      var k := First(t.lists[ZOMBIES], t.procs, ByParent(me));
      var z := t.lists[ZOMBIES][k];
      StateOf(t, ZOMBIES, k);
      Go(t, z, false, t.procs[z].(state := UNUSED, pid := 0, parent := NULL, killed := false))
    case NoKids => t
    case Sleeps => Asleep(t, me, ProcChan(me), ticks)
  }

  /** The order in which kill() looks through the lists. */
  function KillOrder(): (ls: seq<nat>)
    ensures forall i :: 0 <= i < |ls| ==> Walks(ls[i])
  {
    seq(MAXPRIO + 4, i requires 0 <= i < MAXPRIO + 4 =>
      if i == 0 then EMBRYOS else if i <= MAXPRIO + 1 then i - 1 else if i == MAXPRIO + 2 then RUN else SLEEP)
  }

  /** kill() at the process it was looking for. */
  ghost function KillAt(t: Table, l: nat, k: nat): (r: Table)
    requires Partition(t) && l < NLISTS && k < |t.lists[l]|
    ensures Partition(r)
  {
    var p := t.lists[l][k];
    Resident(t, l, k);
    if l == SLEEP then
      StateOf(t, SLEEP, k);
      Go(t, p, false, t.procs[p].(killed := true, state := RUNNABLE))
    else
      SetRecord(t, p, t.procs[p].(killed := true))
  }

  ghost function KillIn(t: Table, ls: seq<nat>, pid: nat): (r: Table)
    requires Partition(t) && forall i :: 0 <= i < |ls| ==> ls[i] < NLISTS
    ensures Partition(r)
    decreases |ls|
  {
    if ls == [] then t
    else
      var k := First(t.lists[ls[0]], t.procs, ByPid(pid));
      if k == |t.lists[ls[0]]| then KillIn(t, ls[1..], pid) else KillAt(t, ls[0], k)
  }

  datatype Step =
    | Alloc(me: nat)
    | StackFail(me: nat)
    | StackOk(me: nat)
    | ForkFail(me: nat)
    | SetParent(me: nat)
    | Publish(me: nat)
    | ExitProc(me: nat)
    | WaitProc(me: nat, ticks: nat)
    | Dispatch(level: nat, ticks: nat)
    | Yield(me: nat, ticks: nat)
    | SleepOn(me: nat, c: Chan, ticks: nat)
    | Tidy(me: nat)
    | Wake(c: Chan)
    | Kill(pid: nat)
    | PromoteAll
    | SetPrio(p: nat, prio: nat)

  predicate Running(t: Table, me: nat) {
    me < |t.procs| && t.procs[me].state.RUNNING?
  }

  /** `me` is inside fork() with slot forking[me], whose parent field is `parent`. */
  predicate Forking(t: Table, me: nat, parent: int) {
    && Running(t, me) && me in t.forking && t.forking[me] < |t.procs|
    && t.procs[t.forking[me]].state.EMBRYO? && t.procs[t.forking[me]].parent == parent
  }

  ghost predicate Enabled(t: Table, step: Step)
    requires Partition(t)
  {
    match step
    case Alloc(me) => Running(t, me) && me !in t.forking && t.lists[FREE] != []
    case StackFail(me) => Forking(t, me, NULL)
    case StackOk(me) => Forking(t, me, NULL)
    case ForkFail(me) => Forking(t, me, NULL)
    case SetParent(me) => Forking(t, me, NULL)
    case Publish(me) => Forking(t, me, me)
    case ExitProc(me) => Running(t, me) && me !in t.forking && me != INIT
    case WaitProc(me, _) => Running(t, me) && me !in t.forking
    case Dispatch(level, _) => level <= MAXPRIO && t.lists[level] != []
    case Yield(me, _) => Running(t, me)
    case SleepOn(me, c, _) => Running(t, me) && me !in t.forking && c.Other?
    case Tidy(me) => Running(t, me)
    case Wake(_) => true
    case Kill(_) => true
    case PromoteAll => true
    case SetPrio(p, prio) => p < NPROC && (t.procs[p].state.RUNNING? || t.procs[p].state.SLEEPING?) && prio <= MAXPRIO
  }

  ghost function NextAlloc(t: Table, me: nat): (r: Table)
    requires Partition(t) && Enabled(t, Alloc(me))
    ensures Partition(r)
  {
    var p := t.lists[FREE][0];
    StateOf(t, FREE, 0);
    var u := Go(t, p, true, t.procs[p].(state := EMBRYO, pid := t.nextpid));
    PartitionSame(u, u.(nextpid := t.nextpid + 1, forking := t.forking[me := p]));
    u.(nextpid := t.nextpid + 1, forking := t.forking[me := p])
  }

  ghost function NextFork(t: Table, step: Step): (r: Table)
    requires Partition(t) && Enabled(t, step)
    requires step.StackFail? || step.StackOk? || step.ForkFail? || step.SetParent? || step.Publish?
    ensures Partition(r)
  {
    var p := t.forking[step.me];
    var q := t.procs[p];
    var rest := t.forking - {step.me};
    Home(t, p);
    match step
    case StackFail(me) =>
      LeakKeeps(t, p);
      var u := t.(procs := t.procs[p := q.(state := UNUSED)], leaked := t.leaked + {p});
      PartitionSame(u, u.(forking := rest));
      u.(forking := rest)
    case StackOk(me) =>
      Prioritised(t, p, q.(budget := MAXBUDG, prio := 0));
      t.(procs := t.procs[p := q.(budget := MAXBUDG, prio := 0)])
    case ForkFail(me) =>
      var u := Go(t, p, true, q.(state := UNUSED));
      PartitionSame(u, u.(forking := rest));
      u.(forking := rest)
    case SetParent(me) =>
      SetRecord(t, p, q.(parent := me))
    case Publish(me) =>
      var u := Go(t, p, false, q.(state := RUNNABLE, prio := 0, budget := MAXBUDG));
      PartitionSame(u, u.(forking := rest));
      u.(forking := rest)
  }

  /** The priority of a process that is not RUNNABLE does not matter to its list. */
  lemma Prioritised(t: Table, p: nat, q: Proc)
    requires Partition(t) && p < NPROC && !q.state.RUNNABLE? && q.state == t.procs[p].state && q.prio <= MAXPRIO
    ensures Partition(t.(procs := t.procs[p := q]))
  {
    assert PartOpen(0);
    var r := t.(procs := t.procs[p := q]);
    assert forall x :: 0 <= x < NPROC ==> ListOf(r, x) == ListOf(t, x);
    forall x | 0 <= x < NPROC
      ensures x in r.lists[ListOf(r, x)]
    {
      assert x in t.lists[ListOf(t, x)];
    }
  }

  ghost function Next(t: Table, step: Step): (r: Table)
    requires Partition(t) && Enabled(t, step)
    ensures Partition(r)
  {
    match step
    case Alloc(me) => NextAlloc(t, me)
    case ExitProc(me) => Exit(t, me)
    case WaitProc(me, ticks) => Wait(t, me, ticks)
    case Dispatch(level, ticks) =>
      var p := t.lists[level][0];
      StateOf(t, level, 0);
      Go(t, p, true, t.procs[p].(state := RUNNING, ticksIn := ticks))
    case Yield(me, ticks) =>
      Home(t, me);
      Go(t, me, false, Charge(t.procs[me].(state := RUNNABLE), ticks))
    case SleepOn(me, c, ticks) => Asleep(t, me, c, ticks)
    case Tidy(me) => SetRecord(t, me, t.procs[me].(chan := NoChan))
    case Wake(c) => Wakeup(t, c)
    case Kill(pid) => KillIn(t, KillOrder(), pid)
    case PromoteAll => Promote(t)
    case SetPrio(p, prio) =>
      Prioritised(t, p, t.procs[p].(prio := prio, budget := MAXBUDG));
      t.(procs := t.procs[p := t.procs[p].(prio := prio, budget := MAXBUDG)])
    case _ => NextFork(t, step)
  }
}
