/**
 The size tests of the log against each other and against what operations log. begin_op reserves
 MAXOPBLOCKS blocks per operation against LOGSIZE, log_write tests against LOGSIZE and against
 log.size - 1. With log.size == LOGSIZE, which is what mkfs writes, three operations within their
 reservations reach the panic in log_write; and one operation that overruns its own makes another
 panic however large the log is.
 */
module LogGuard {
  import opened LogFormat
  import opened LogMachine

  // ---------------------------------------------------------------- what an operation spends

  /** The blocks operation `op` has called log_write on since it began. */
  function LoggedBy(steps: seq<Step>, op: nat): (bs: set<nat>)
    decreases |steps|
  {
    if steps == [] || Last(steps).Crash? || Last(steps) == Begin(op) then {}
    else if Last(steps).LogWrite? && Last(steps).op == op then LoggedBy(Init(steps), op) + {Last(steps).b}
    else LoggedBy(Init(steps), op)
  }

  /** Those among them that were not in the log yet. */
  function AddedBy(L: Layout, s: State, steps: seq<Step>, op: nat): (bs: set<nat>)
    requires L.Ok() && |s.disk| == L.nblocks && Run(L, s, steps)
    decreases |steps|
  {
    if steps == [] || Last(steps).Crash? || Last(steps) == Begin(op) then {}
    else if Last(steps).LogWrite? && Last(steps).op == op && Last(steps).b !in Exec(L, s, Init(steps)).lh
      then AddedBy(L, s, Init(steps), op) + {Last(steps).b}
    else AddedBy(L, s, Init(steps), op)
  }

  /** While an operation is open the log changes only by log_write, which adds the block if it is new. */
  lemma LogGrows(L: Layout, s: State, a: Spec, step: Step, op: nat)
    requires Inv(L, s, a) && Enabled(L, s, step) && op in Next(L, s, step).ops && step != Begin(op)
    ensures op in s.ops && !step.Crash?
    ensures Next(L, s, step).lh == if step.LogWrite? && step.b !in s.lh then s.lh + [step.b] else s.lh
    ensures Next(L, s, step).ops[op] == s.ops[op] - if step.LogWrite? && step.op == op && step.b !in s.lh then 1 else 0
  {
  }

  lemma LastStep(L: Layout, d: Disk, steps: seq<Step>, op: nat)
    requires L.Ok() && |d| == L.nblocks && HeaderOk(L, d) && Run(L, Boot(d), steps) && op in Exec(L, Boot(d), steps).ops
    ensures steps != []
    ensures Last(steps) == Begin(op) ==>
      Exec(L, Boot(d), steps).ops[op] == MAXOPBLOCKS && Exec(L, Boot(d), steps).lh == Exec(L, Boot(d), Init(steps)).lh
    ensures Last(steps) != Begin(op) ==>
      var s, t, step := Exec(L, Boot(d), Init(steps)), Exec(L, Boot(d), steps), Last(steps);
      && op in s.ops && !step.Crash?
      && t.lh == (if step.LogWrite? && step.b !in s.lh then s.lh + [step.b] else s.lh)
      && t.ops[op] == s.ops[op] - if step.LogWrite? && step.op == op && step.b !in s.lh then 1 else 0
  {
    var pre := Init(steps);
    BootInv(L, d);
    RunRefines(L, Boot(d), BootSpec(L, d), pre);
    if Last(steps) != Begin(op) { LogGrows(L, Exec(L, Boot(d), pre), SpecExec(BootSpec(L, d), pre), Last(steps), op); }
  }

  /** An operation has spent one reserved block for each block it added, and every one is in the log. */
  lemma {:induction false} SpentIsAdded(L: Layout, d: Disk, steps: seq<Step>, op: nat)
    requires L.Ok() && |d| == L.nblocks && HeaderOk(L, d) && Run(L, Boot(d), steps) && op in Exec(L, Boot(d), steps).ops
    ensures var s, added := Exec(L, Boot(d), steps), AddedBy(L, Boot(d), steps, op);
      && s.ops[op] == MAXOPBLOCKS - |added| && added <= LoggedBy(steps, op) && forall b :: b in added ==> b in s.lh
    decreases |steps|
  {
    LastStep(L, d, steps, op);
    if Last(steps) != Begin(op) { SpentIsAdded(L, d, Init(steps), op); }
  }

  lemma SubsetCard(a: set<nat>, b: set<nat>)
    requires a <= b
    ensures |a| <= |b|
  {
    assert b == a + (b - a);
  }

  /** An operation whose log_write calls name at most MAXOPBLOCKS different blocks stays within its reservation. */
  lemma FewBlocksSuffice(L: Layout, d: Disk, steps: seq<Step>, op: nat)
    requires L.Ok() && |d| == L.nblocks && HeaderOk(L, d) && Run(L, Boot(d), steps) && op in Exec(L, Boot(d), steps).ops
    ensures Exec(L, Boot(d), steps).ops[op] >= MAXOPBLOCKS - |LoggedBy(steps, op)|
    ensures |LoggedBy(steps, op)| <= MAXOPBLOCKS ==> Exec(L, Boot(d), steps).ops[op] >= 0
  {
    SpentIsAdded(L, d, steps, op);
    SubsetCard(AddedBy(L, Boot(d), steps, op), LoggedBy(steps, op));
  }

  /** Since `op` began, on an empty log, no other operation has called log_write. */
  predicate Alone(L: Layout, s: State, steps: seq<Step>, op: nat)
    requires L.Ok() && |s.disk| == L.nblocks && Run(L, s, steps)
    decreases |steps|
  {
    steps != [] &&
    if Last(steps) == Begin(op) then Exec(L, s, Init(steps)).lh == []
    else Alone(L, s, Init(steps), op) && (Last(steps).LogWrite? ==> Last(steps).op == op)
  }

  lemma {:induction false} AloneAdds(L: Layout, d: Disk, steps: seq<Step>, op: nat)
    requires L.Ok() && |d| == L.nblocks && HeaderOk(L, d) && Run(L, Boot(d), steps) && op in Exec(L, Boot(d), steps).ops
    requires Alone(L, Boot(d), steps, op)
    ensures var s := Exec(L, Boot(d), steps);
      AddedBy(L, Boot(d), steps, op) == LoggedBy(steps, op) && forall b :: b in s.lh <==> b in LoggedBy(steps, op)
    decreases |steps|
  {
    LastStep(L, d, steps, op);
    if Last(steps) != Begin(op) { AloneAdds(L, d, Init(steps), op); }
  }

  /** An operation alone in the log overruns its reservation exactly when it logs more than MAXOPBLOCKS different blocks. */
  lemma OverrunExact(L: Layout, d: Disk, steps: seq<Step>, op: nat)
    requires L.Ok() && |d| == L.nblocks && HeaderOk(L, d) && Run(L, Boot(d), steps) && op in Exec(L, Boot(d), steps).ops
    requires Alone(L, Boot(d), steps, op)
    ensures Exec(L, Boot(d), steps).ops[op] < 0 <==> |LoggedBy(steps, op)| > MAXOPBLOCKS
  {
    SpentIsAdded(L, d, steps, op);
    AloneAdds(L, d, steps, op);
  }

  // ---------------------------------------------------------------- the panic

  /** Operation `op`, with some of its reservation left, is about to call log_write and will panic. */
  predicate Panics(L: Layout, s: State, op: nat, b: nat) {
    op in s.ops && s.ops[op] > 0 && HeldBy(s, b, Op(op)) && LogWritePanics(L, s)
  }

  /** No run in which all operations keep to their reservations brings one of them to the panic. */
  ghost predicate NeverPanics(L: Layout)
    requires L.Ok()
  {
    forall d: Disk, steps: seq<Step>, op: nat, b: nat ::
      |d| == L.nblocks && HeaderOk(L, d) && Run(L, Boot(d), steps) && Frugal(L, Boot(d), steps)
      ==> !Panics(L, Exec(L, Boot(d), steps), op, b)
  }

  /** The k-th block outside the log region. */
  function HomeBlock(L: Layout, k: nat): (b: nat) {
    if k < L.start then k else k + L.size
  }

  /** How many there are. */
  function Homes(L: Layout): (n: int) {
    L.nblocks - L.size
  }

  /**
   What is left to operation `op` (0, 1 or 2) after `k` blocks in all: ten added by each in turn, or
   all of them by operation 0.
   */
  function Left(solo: bool, op: nat, k: nat): (n: int) {
    if solo then if op == 0 then MAXOPBLOCKS - k else MAXOPBLOCKS
    else if k <= op * MAXOPBLOCKS then MAXOPBLOCKS
    else if k <= (op + 1) * MAXOPBLOCKS then (op + 1) * MAXOPBLOCKS - k
    else 0
  }

  function Zeros(L: Layout): (d: Disk)
    requires L.Ok()
    ensures |d| == L.nblocks && HeaderOk(L, d)
  {
    var z: Block := seq(BWORDS, _ => 0);
    assert ReadHead(z) == [];
    seq(L.nblocks, _ => z)
  }

  /** Three operations are open, have added the first `k` home blocks between them and hold no buffer. */
  predicate Filled(L: Layout, s: State, k: nat, solo: bool) {
    && |s.disk| == L.nblocks && s.outstanding == 3 && |s.lh| == k
    && (forall i :: 0 <= i < k ==> s.lh[i] == HomeBlock(L, i))
    && (forall b :: b in s.cache ==> b == L.start || (b in s.lh && s.cache[b].holder == Free))
    && s.ops.Keys == {0, 1, 2} && (forall j :: j in s.ops ==> s.ops[j] == Left(solo, j, k))
  }

  /** A run from power-on with an empty disk; `solo` runs may overrun reservations, the others do not. */
  ghost predicate Reaches(L: Layout, steps: seq<Step>, s: State, solo: bool)
    requires L.Ok()
  {
    && Run(L, Boot(Zeros(L)), steps) && s == Exec(L, Boot(Zeros(L)), steps)
    && (!solo ==> Frugal(L, Boot(Zeros(L)), steps))
  }

  lemma Go(L: Layout, steps: seq<Step>, s: State, solo: bool, step: Step)
    requires L.Ok() && Reaches(L, steps, s, solo) && Enabled(L, s, step) && (solo || Within(Next(L, s, step).ops))
    ensures Reaches(L, steps + [step], Next(L, s, step), solo)
  {
    Extend(L, Boot(Zeros(L)), steps, step);
    assert Init(steps + [step]) == steps;
  }

  lemma RecoverEmpty(L: Layout, solo: bool) returns (steps: seq<Step>, s: State)
    requires L.Ok()
    ensures Reaches(L, steps, s, solo)
    ensures s.lh == [] && s.cache.Keys == {L.start} && s.outstanding == 0 && s.phase.Quiet? && !s.committing
    ensures s.ops == map[] && |s.disk| == L.nblocks
  {
    steps, s := [], Boot(Zeros(L));
    Go(L, steps, s, solo, Get(Log, L.start));
    steps, s := steps + [Get(Log, L.start)], Next(L, s, Get(Log, L.start));
    Go(L, steps, s, solo, LoadHeader);
    steps, s := steps + [LoadHeader], Next(L, s, LoadHeader);
    Go(L, steps, s, solo, ClearHeader);
    steps, s := steps + [ClearHeader], Next(L, s, ClearHeader);
  }

  lemma ThreeOpen(L: Layout, solo: bool) returns (steps: seq<Step>, s: State)
    requires L.Ok()
    ensures Reaches(L, steps, s, solo) && Filled(L, s, 0, solo)
  {
    steps, s := RecoverEmpty(L, solo);
    Go(L, steps, s, solo, Begin(0));
    steps, s := steps + [Begin(0)], Next(L, s, Begin(0));
    Go(L, steps, s, solo, Begin(1));
    steps, s := steps + [Begin(1)], Next(L, s, Begin(1));
    Go(L, steps, s, solo, Begin(2));
    steps, s := steps + [Begin(2)], Next(L, s, Begin(2));
  }

  /** Whose turn it is to add block `k`. */
  function Turn(solo: bool, k: nat): (op: nat) {
    if solo then 0 else k / MAXOPBLOCKS
  }

  lemma LeftStep(solo: bool, k: nat)
    requires k < LOGSIZE
    ensures var op := Turn(solo, k);
      && op < 3 && (solo || Left(solo, op, k) > 0) && Left(solo, op, k + 1) == Left(solo, op, k) - 1
      && (forall j: nat :: j != op ==> Left(solo, j, k + 1) == Left(solo, j, k))
      && (!solo ==> forall j: nat :: Left(solo, j, k) >= 0)
  {
  }

  lemma TakeEffect(L: Layout, s: State, op: nat, b: nat)
    requires L.Ok() && |s.disk| == L.nblocks && op in s.ops && L.Home(b) && (b in s.cache ==> s.cache[b].holder == Free)
    ensures Enabled(L, s, Get(Op(op), b)) && HeldBy(Next(L, s, Get(Op(op), b)), b, Op(op))
    ensures Next(L, s, Get(Op(op), b)) == s.(cache := Next(L, s, Get(Op(op), b)).cache)
    ensures forall c :: c in Next(L, s, Get(Op(op), b)).cache && c != b ==>
      c in s.cache && s.cache[c] == Next(L, s, Get(Op(op), b)).cache[c]
  {
  }

  lemma AddEffect(L: Layout, s: State, op: nat, b: nat)
    requires L.Ok() && |s.disk| == L.nblocks && op in s.ops && HeldBy(s, b, Op(op)) && b < L.nblocks && b !in s.lh && !LogWritePanics(L, s)
    ensures Enabled(L, s, LogWrite(op, b))
    ensures Next(L, s, LogWrite(op, b)) ==
      s.(lh := s.lh + [b], ops := s.ops[op := s.ops[op] - 1], cache := s.cache[b := s.cache[b].(dirty := true, touched := false)])
  {
  }

  lemma DropEffect(L: Layout, s: State, op: nat, b: nat)
    requires L.Ok() && |s.disk| == L.nblocks && HeldBy(s, b, Op(op)) && !s.cache[b].touched
    ensures Enabled(L, s, Release(Op(op), b))
    ensures Next(L, s, Release(Op(op), b)) == s.(cache := s.cache[b := s.cache[b].(holder := Free)])
  {
  }

  lemma NextHome(L: Layout, s: State, k: nat, solo: bool)
    requires L.Ok() && k < LOGSIZE && k < Homes(L) && Filled(L, s, k, solo)
    ensures var b := HomeBlock(L, k); b !in s.lh && L.Home(b) && b !in s.cache && Turn(solo, k) in s.ops
  {
    LeftStep(solo, k);
  }

  /** One more block: the operation whose turn it is reads the next home block, logs it and lets it go. */
  lemma FillStep(L: Layout, s: State, k: nat, solo: bool, op: nat, b: nat) returns (t: State, u: State, v: State)
    requires L.Ok() && k < L.size - 1 && k < LOGSIZE && k < Homes(L) && Filled(L, s, k, solo)
    requires op == Turn(solo, k) && b == HomeBlock(L, k)
    ensures Enabled(L, s, Get(Op(op), b)) && t == Next(L, s, Get(Op(op), b)) && t.ops == s.ops
    ensures Enabled(L, t, LogWrite(op, b)) && u == Next(L, t, LogWrite(op, b)) && u.ops == s.ops[op := s.ops[op] - 1]
    ensures Enabled(L, u, Release(Op(op), b)) && v == Next(L, u, Release(Op(op), b)) && v.ops == u.ops
    ensures Filled(L, v, k + 1, solo)
  {
    NextHome(L, s, k, solo);
    TakeEffect(L, s, op, b);
    t := Next(L, s, Get(Op(op), b));
    AddEffect(L, t, op, b);
    u := Next(L, t, LogWrite(op, b));
    DropEffect(L, u, op, b);
    v := Next(L, u, Release(Op(op), b));
    FilledNext(L, s, t, v, k, solo, op, b);
  }

  lemma FilledNext(L: Layout, s: State, t: State, v: State, k: nat, solo: bool, op: nat, b: nat)
    requires Filled(L, s, k, solo) && k < LOGSIZE && op == Turn(solo, k) && b == HomeBlock(L, k) && op in s.ops && b in t.cache
    requires forall c :: c in t.cache && c != b ==> c in s.cache && s.cache[c] == t.cache[c]
    requires v.disk == s.disk && v.outstanding == s.outstanding && v.lh == s.lh + [b] && v.ops == s.ops[op := s.ops[op] - 1]
    requires v.cache.Keys == t.cache.Keys && v.cache[b].holder == Free && forall c :: c in t.cache && c != b ==> v.cache[c] == t.cache[c]
    ensures Filled(L, v, k + 1, solo)
  {
    LeftStep(solo, k);
    assert forall c :: c in s.lh ==> c in v.lh;
    assert v.ops.Keys == s.ops.Keys;
  }

  lemma FilledWithin(L: Layout, s: State, k: nat, solo: bool)
    requires Filled(L, s, k, solo) && k <= LOGSIZE
    ensures solo || Within(s.ops)
  {
  }

  lemma ThreeSteps(L: Layout, steps: seq<Step>, s: State, t: State, u: State, solo: bool, op: nat, b: nat)
    requires L.Ok() && Reaches(L, steps, s, solo) && (solo || (Within(s.ops) && Within(u.ops)))
    requires Enabled(L, s, Get(Op(op), b)) && t == Next(L, s, Get(Op(op), b)) && t.ops == s.ops
    requires Enabled(L, t, LogWrite(op, b)) && u == Next(L, t, LogWrite(op, b))
    requires Enabled(L, u, Release(Op(op), b)) && Next(L, u, Release(Op(op), b)).ops == u.ops
    ensures Reaches(L, steps + [Get(Op(op), b)] + [LogWrite(op, b)] + [Release(Op(op), b)], Next(L, u, Release(Op(op), b)), solo)
  {
    Go(L, steps, s, solo, Get(Op(op), b));
    Go(L, steps + [Get(Op(op), b)], t, solo, LogWrite(op, b));
    Go(L, steps + [Get(Op(op), b)] + [LogWrite(op, b)], u, solo, Release(Op(op), b));
  }

  /** Any number of distinct blocks that the log and the disk have room for can be logged. */
  lemma {:induction false} Fill(L: Layout, k: nat, solo: bool) returns (steps: seq<Step>, s: State)
    requires L.Ok() && k <= L.size - 1 && k <= LOGSIZE && k <= Homes(L)
    ensures Reaches(L, steps, s, solo) && Filled(L, s, k, solo)
  {
    if k == 0 {
      steps, s := ThreeOpen(L, solo);
    } else {
      steps, s := Fill(L, k - 1, solo);
      var op, b := Turn(solo, k - 1), HomeBlock(L, k - 1);
      var t, u, v := FillStep(L, s, k - 1, solo, op, b);
      assert solo || (Within(s.ops) && Within(v.ops)) by { FilledWithin(L, s, k - 1, solo); FilledWithin(L, v, k, solo); }
      ThreeSteps(L, steps, s, t, u, solo, op, b);
      steps, s := steps + [Get(Op(op), b)] + [LogWrite(op, b)] + [Release(Op(op), b)], v;
    }
  }

  /** With the log filled as far as log_write allows, `op` takes any home block and is at the panic. */
  lemma AtPanic(L: Layout, k: nat, solo: bool, op: nat) returns (steps: seq<Step>, b: nat)
    requires L.Ok() && k <= L.size - 1 && k <= LOGSIZE && k <= Homes(L) && Homes(L) > 0
    requires (k == L.size - 1 || k == LOGSIZE) && op < 3 && Left(solo, op, k) > 0
    ensures exists s :: Reaches(L, steps, s, solo) && Panics(L, s, op, b)
  {
    var s;
    steps, s := Fill(L, k, solo);
    b := HomeBlock(L, 0);
    assert L.Home(b);
    TakeEffect(L, s, op, b);
    assert solo || Within(s.ops) by { if !solo { forall j | j in s.ops ensures s.ops[j] >= 0 { } } }
    Go(L, steps, s, solo, Get(Op(op), b));
    steps := steps + [Get(Op(op), b)];
    assert Reaches(L, steps, Next(L, s, Get(Op(op), b)), solo) && Panics(L, Next(L, s, Get(Op(op), b)), op, b);
  }

  /** A log of LOGSIZE blocks or fewer, and blocks to fill it: a run within all reservations that ends at the panic. */
  lemma PanicReachable(L: Layout) returns (steps: seq<Step>, op: nat, b: nat)
    requires L.Ok() && L.size <= LOGSIZE && Homes(L) >= L.size - 1 && Homes(L) > 0
    ensures Run(L, Boot(Zeros(L)), steps) && Frugal(L, Boot(Zeros(L)), steps)
    ensures Panics(L, Exec(L, Boot(Zeros(L)), steps), op, b)
  {
    op := (L.size - 1) / MAXOPBLOCKS;
    LeftStep(false, L.size - 1);
    steps, b := AtPanic(L, L.size - 1, false, op);
  }

  /**
   An operation that overruns its reservation: operation 1, which has logged nothing, panics in its
   first log_write however large the log is.
   */
  lemma OverrunPanics(L: Layout) returns (steps: seq<Step>, b: nat)
    requires L.Ok() && Homes(L) > 0 && (Homes(L) >= LOGSIZE || Homes(L) >= L.size - 1)
    ensures Run(L, Boot(Zeros(L)), steps) && Panics(L, Exec(L, Boot(Zeros(L)), steps), 1, b)
    ensures Exec(L, Boot(Zeros(L)), steps).ops[1] == MAXOPBLOCKS
  {
    var k := if L.size - 1 <= LOGSIZE then if L.size - 1 <= Homes(L) then L.size - 1 else LOGSIZE else LOGSIZE;
    var s;
    steps, s := Fill(L, k, true);
    b := HomeBlock(L, 0);
    assert L.Home(b);
    TakeEffect(L, s, 1, b);
    Go(L, steps, s, true, Get(Op(1), b));
    steps := steps + [Get(Op(1), b)];
  }

  /** The place of a home block among the home blocks: HomeBlock backwards. */
  function Place(L: Layout, b: int): (k: int) {
    if b < L.start then b else b - L.size
  }

  ghost function Below(n: nat): (s: set<int>)
    ensures |s| == n && forall x :: x in s <==> 0 <= x < n
  {
    if n == 0 then {} else Below(n - 1) + {n - 1}
  }

  ghost function Places(L: Layout, lh: seq<Word>): (s: set<int>)
    ensures forall x :: x in s ==> exists i :: 0 <= i < |lh| && x == Place(L, lh[i])
  {
    if lh == [] then {}
    else
      var s := Places(L, lh[1..]) + {Place(L, lh[0])};
      assert forall x :: x in Places(L, lh[1..]) ==> exists i :: 1 <= i < |lh| && x == Place(L, lh[i]) by {
        forall x | x in Places(L, lh[1..]) ensures exists i :: 1 <= i < |lh| && x == Place(L, lh[i]) {
          var i :| 0 <= i < |lh[1..]| && x == Place(L, lh[1..][i]);
          assert x == Place(L, lh[i + 1]);
        }
      }
      s
  }

  lemma {:induction false} PlacesCard(L: Layout, lh: seq<Word>)
    requires GoodEntries(L, lh)
    ensures |Places(L, lh)| == |lh|
  {
    if lh != [] {
      PlacesCard(L, lh[1..]);
      forall i | 0 <= i < |lh[1..]|
        ensures Place(L, lh[1..][i]) != Place(L, lh[0])
      {
        assert L.Home(lh[0]) && L.Home(lh[i + 1]) && lh[0] != lh[i + 1];
      }
    }
  }

  /** Different home blocks are no more than there are. */
  lemma HomesBound(L: Layout, lh: seq<Word>)
    requires L.Ok() && GoodEntries(L, lh)
    ensures |lh| <= Homes(L)
  {
    PlacesCard(L, lh);
    forall x | x in Places(L, lh)
      ensures x in Below(Homes(L))
    {
      var i :| 0 <= i < |lh| && x == Place(L, lh[i]);
      assert L.Home(lh[i]);
    }
    assert Below(Homes(L)) == Places(L, lh) + (Below(Homes(L)) - Places(L, lh));
  }

  lemma RoomSuffices(L: Layout, d: Disk, steps: seq<Step>, op: nat, b: nat)
    requires L.Ok() && (L.size > LOGSIZE || Homes(L) < L.size - 1 || Homes(L) == 0)
    requires |d| == L.nblocks && HeaderOk(L, d) && Run(L, Boot(d), steps) && Frugal(L, Boot(d), steps)
    ensures !Panics(L, Exec(L, Boot(d), steps), op, b)
  {
    var s := Exec(L, Boot(d), steps);
    BootInv(L, d);
    RunRefines(L, Boot(d), BootSpec(L, d), steps);
    HomesBound(L, s.lh);
    ReservationsHold(L, d, steps);
    if op in s.ops && s.ops[op] > 0 {
      UnspentRemove(s.ops, op);
      UnspentPositive(s.ops - {op});
    }
    assert HeldBy(s, b, Op(op)) ==> L.Home(b);
  }

  /**
   The panic is unreachable exactly when the log has room for a header and LOGSIZE blocks, or the
   disk has too few blocks to fill it. The image built by mkfs (log.size == LOGSIZE == 30) fails this
   by one block.
   */
  lemma GuardExact(L: Layout)
    requires L.Ok()
    ensures NeverPanics(L) <==> L.size > LOGSIZE || Homes(L) < L.size - 1 || Homes(L) == 0
  {
    if L.size > LOGSIZE || Homes(L) < L.size - 1 || Homes(L) == 0 {
      forall d: Disk, steps: seq<Step>, op: nat, b: nat |
        |d| == L.nblocks && HeaderOk(L, d) && Run(L, Boot(d), steps) && Frugal(L, Boot(d), steps)
        ensures !Panics(L, Exec(L, Boot(d), steps), op, b)
      {
        RoomSuffices(L, d, steps, op, b);
      }
    } else {
      var steps, op, b := PanicReachable(L);
    }
  }
}
