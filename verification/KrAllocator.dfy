/**
 The user-level memory allocator: the circular, address-ordered, coalescing free list of
 Kernighan and Ritchie, The C Programming Language, 2nd ed., section 8.7. Memory is counted in
 units of sizeof(Header); `mem` holds the headers, `base` is the address of the static header.
 */
module KrAllocator {
  import opened Sealing

  const UNIT: nat := 8
  const CORE: nat := 4096
  const WORD: nat := 0x1_0000_0000
  const KERNBASE: nat := 0x8000_0000
  const PGSIZE: nat := 4096

  datatype Header = Header(ptr: int, size: nat)

  datatype Blk = Blk(addr: int, size: nat) {
    function End(): (e: int) {
      addr + size
    }
    predicate Has(u: int) {
      addr <= u < addr + size
    }
  }

  // ---------------------------------------------------------------- free lists as sequences

  /** A list of blocks in address order from base on, none overlapping another. */
  ghost predicate Ordered(base: int, fs: seq<Blk>) {
    && |fs| >= 1 && fs[0] == Blk(base, 0)
    && (forall i :: 1 <= i < |fs| ==> fs[i].size >= 1 && fs[i].addr > base)
    && (forall i, j :: 0 <= i < j < |fs| ==> fs[i].End() <= fs[j].addr)
  }

  predicate Touch(fs: seq<Blk>, i: int) {
    0 <= i < |fs| - 1 && fs[i].End() == fs[i + 1].addr
  }

  /** The free list proper: in order, and no two blocks touch. */
  ghost predicate Sorted(base: int, fs: seq<Blk>) {
    Ordered(base, fs) && forall i :: !Touch(fs, i)
  }

  ghost predicate FreeAt(fs: seq<Blk>, u: int) {
    exists i :: 0 <= i < |fs| && fs[i].Has(u)
  }

  ghost predicate LiveAt(live: map<int, nat>, u: int) {
    exists a :: a in live && Blk(a, live[a]).Has(u)
  }

  function Next(fs: seq<Blk>, i: nat): (a: int)
    requires i < |fs|
  {
    if i + 1 < |fs| then fs[i + 1].addr else fs[0].addr
  }

  predicate LinkedAt(mem: map<int, Header>, fs: seq<Blk>, i: int)
    requires 0 <= i < |fs|
  {
    fs[i].addr in mem && mem[fs[i].addr] == Header(Next(fs, i), fs[i].size)
  }

  /** The headers in memory form the circular list `fs`. */
  predicate Linked(mem: map<int, Header>, fs: seq<Blk>) {
    forall i :: 0 <= i < |fs| ==> LinkedAt(mem, fs, i)
  }

  /** Blocks `i` and `i + 1` made one. */
  function Join(fs: seq<Blk>, i: nat): (gs: seq<Blk>)
    requires i + 1 < |fs|
  {
    fs[..i] + [Blk(fs[i].addr, fs[i].size + fs[i + 1].size)] + fs[i + 2..]
  }

  function Place(fs: seq<Blk>, j: nat, b: Blk): (gs: seq<Blk>)
    requires j < |fs|
  {
    fs[..j + 1] + [b] + fs[j + 1..]
  }

  /** The list after block `b` is put back behind the j-th free block, joined up, then down. */
  function Insert(fs: seq<Blk>, j: nat, b: Blk): (gs: seq<Blk>)
    requires j < |fs|
  {
    var p := Place(fs, j, b);
    var q := if Touch(p, j + 1) then Join(p, j + 1) else p;
    if Touch(q, j) then Join(q, j) else q
  }

  /** Block `b` lies between the j-th free block and the next, overlapping neither. */
  predicate Fits(fs: seq<Blk>, j: nat, b: Blk) {
    && j < |fs| && b.size >= 1 && fs[j].End() <= b.addr && fs[0].addr < b.addr
    && (j + 1 < |fs| ==> b.End() <= fs[j + 1].addr)
  }

  lemma PlaceAt(fs: seq<Blk>, j: nat, b: Blk, i: nat)
    requires j < |fs| && i <= |fs|
    ensures Place(fs, j, b)[i] == if i <= j then fs[i] else if i == j + 1 then b else fs[i - 1]
  {
  }

  lemma JoinAt(fs: seq<Blk>, i: nat, k: nat)
    requires i + 1 < |fs| && k < |fs| - 1
    ensures Join(fs, i)[k] ==
      if k < i then fs[k] else if k == i then Blk(fs[i].addr, fs[i].size + fs[i + 1].size) else fs[k + 1]
  {
  }

  lemma PlaceOrdered(base: int, fs: seq<Blk>, j: nat, b: Blk)
    requires Ordered(base, fs) && Fits(fs, j, b)
    ensures Ordered(base, Place(fs, j, b))
  {
    var gs := Place(fs, j, b);
    forall x, y | 0 <= x < y < |gs|
      ensures gs[x].End() <= gs[y].addr
    {
      PlaceAt(fs, j, b, x);
      PlaceAt(fs, j, b, y);
    }
    forall x | 1 <= x < |gs|
      ensures gs[x].size >= 1 && gs[x].addr > base
    {
      PlaceAt(fs, j, b, x);
    }
  }

  lemma PlaceTouch(fs: seq<Blk>, j: nat, b: Blk, i: int)
    requires j < |fs| && Touch(Place(fs, j, b), i)
    ensures i == j || i == j + 1 || Touch(fs, if i < j then i else i - 1)
  {
    PlaceAt(fs, j, b, i);
    PlaceAt(fs, j, b, i + 1);
  }

  lemma JoinOrdered(base: int, fs: seq<Blk>, i: nat)
    requires Ordered(base, fs) && 1 <= i && Touch(fs, i)
    ensures Ordered(base, Join(fs, i))
  {
    var gs := Join(fs, i);
    forall x, y | 0 <= x < y < |gs|
      ensures gs[x].End() <= gs[y].addr
    {
      JoinAt(fs, i, x);
      JoinAt(fs, i, y);
    }
    forall x | 1 <= x < |gs|
      ensures gs[x].size >= 1 && gs[x].addr > base
    {
      JoinAt(fs, i, x);
    }
  }

  lemma JoinTouch(fs: seq<Blk>, i: nat, k: int)
    requires Touch(fs, i) && Touch(Join(fs, i), k)
    ensures Touch(fs, if k < i then k else k + 1)
  {
    JoinAt(fs, i, k);
    JoinAt(fs, i, k + 1);
  }

  lemma InsertSorted(base: int, fs: seq<Blk>, j: nat, b: Blk)
    requires Sorted(base, fs) && Fits(fs, j, b)
    ensures Sorted(base, Insert(fs, j, b))
  {
    var p := Place(fs, j, b);
    PlaceOrdered(base, fs, j, b);
    forall i | Touch(p, i)
      ensures i == j || i == j + 1
    {
      PlaceTouch(fs, j, b, i);
    }
    var q := if Touch(p, j + 1) then Join(p, j + 1) else p;
    if Touch(p, j + 1) {
      JoinOrdered(base, p, j + 1);
      forall i | Touch(q, i) ensures i == j { JoinTouch(p, j + 1, i); }
    }
    if Touch(q, j) {
      JoinOrdered(base, q, j);
      forall i | Touch(Join(q, j), i) ensures false { JoinTouch(q, j, i); }
    }
  }

  lemma PlaceUnits(fs: seq<Blk>, j: nat, b: Blk, u: int)
    requires j < |fs|
    ensures FreeAt(Place(fs, j, b), u) <==> FreeAt(fs, u) || b.Has(u)
  {
    var gs := Place(fs, j, b);
    assert gs[j + 1] == b;
    if FreeAt(gs, u) && !b.Has(u) {
      var i :| 0 <= i < |gs| && gs[i].Has(u);
      assert fs[if i <= j then i else i - 1].Has(u);
    }
    if FreeAt(fs, u) {
      var i :| 0 <= i < |fs| && fs[i].Has(u);
      assert gs[if i <= j then i else i + 1].Has(u);
    }
  }

  lemma JoinUnits(fs: seq<Blk>, i: nat, u: int)
    requires Touch(fs, i)
    ensures FreeAt(Join(fs, i), u) <==> FreeAt(fs, u)
  {
    var gs := Join(fs, i);
    if FreeAt(gs, u) {
      var k :| 0 <= k < |gs| && gs[k].Has(u);
      assert fs[if k < i then k else if k > i then k + 1 else if fs[i].Has(u) then i else i + 1].Has(u);
    }
    if FreeAt(fs, u) {
      var k :| 0 <= k < |fs| && fs[k].Has(u);
      assert gs[if k <= i then k else k - 1].Has(u);
    }
  }

  /** Putting a block back adds exactly its units to the free ones. */
  lemma InsertUnits(fs: seq<Blk>, j: nat, b: Blk, u: int)
    requires j < |fs|
    ensures FreeAt(Insert(fs, j, b), u) <==> FreeAt(fs, u) || b.Has(u)
  {
    PlaceUnits(fs, j, b, u);
    var p := Place(fs, j, b);
    if Touch(p, j + 1) { JoinUnits(p, j + 1, u); }
    var q := if Touch(p, j + 1) then Join(p, j + 1) else p;
    if Touch(q, j) { JoinUnits(q, j, u); }
  }

  /**
   Which units are free determines the list: an ordered list without touching blocks is the
   only one with its units. So the list never depends on the order of the calls that led to it.
   */
  lemma {:induction false} Canonical(base: int, fs: seq<Blk>, gs: seq<Blk>)
    requires Sorted(base, fs) && Sorted(base, gs)
    requires forall u :: FreeAt(fs, u) <==> FreeAt(gs, u)
    ensures fs == gs
  {
    SameUpTo(base, fs, gs, |fs|);
    SameUpTo(base, gs, fs, |gs|);
  }

  lemma {:induction false} SameUpTo(base: int, fs: seq<Blk>, gs: seq<Blk>, k: nat)
    requires Sorted(base, fs) && Sorted(base, gs) && k <= |fs|
    requires forall u :: FreeAt(fs, u) <==> FreeAt(gs, u)
    ensures k <= |gs| && forall i :: 0 <= i < k ==> fs[i] == gs[i]
  {
    if k > 1 {
      SameUpTo(base, fs, gs, k - 1);
      SameNext(base, fs, gs, k - 1);
    }
  }

  lemma SameNext(base: int, fs: seq<Blk>, gs: seq<Blk>, k: nat)
    requires Sorted(base, fs) && Sorted(base, gs) && 1 <= k < |fs| && k <= |gs|
    requires forall i :: 0 <= i < k ==> fs[i] == gs[i]
    requires forall u :: FreeAt(fs, u) <==> FreeAt(gs, u)
    ensures k < |gs| && fs[k] == gs[k]
  {
    StartsSame(base, fs, gs, k);
    StartsSame(base, gs, fs, k);
    EndsSame(base, fs, gs, k);
    EndsSame(base, gs, fs, k);
  }

  /** The first block past a common beginning starts no later in the other list. */
  lemma StartsSame(base: int, fs: seq<Blk>, gs: seq<Blk>, k: nat)
    requires Sorted(base, fs) && Sorted(base, gs) && 1 <= k < |fs| && k <= |gs|
    requires forall i :: 0 <= i < k ==> fs[i] == gs[i]
    requires forall u :: FreeAt(fs, u) <==> FreeAt(gs, u)
    ensures k < |gs| && gs[k].addr <= fs[k].addr
  {
    var u := fs[k].addr;
    assert fs[k].Has(u);
    assert FreeAt(fs, u) && FreeAt(gs, u);
    var i :| 0 <= i < |gs| && gs[i].Has(u);
    assert i >= k;
  }

  /** The unit just past a block is not free. */
  lemma EndNotFree(base: int, fs: seq<Blk>, k: nat)
    requires Sorted(base, fs) && k < |fs|
    ensures !FreeAt(fs, fs[k].End()) || k == 0
  {
    assert !Touch(fs, k);
    assert forall i :: k < i < |fs| ==> fs[k].End() < fs[i].addr;
  }

  /** Two blocks with one start in two such lists have one end. */
  lemma EndsSame(base: int, fs: seq<Blk>, gs: seq<Blk>, k: nat)
    requires Sorted(base, fs) && Sorted(base, gs) && 1 <= k < |fs| && k < |gs| && fs[k].addr == gs[k].addr
    requires forall u :: FreeAt(fs, u) <==> FreeAt(gs, u)
    ensures gs[k].End() <= fs[k].End()
  {
    EndNotFree(base, fs, k);
    assert !FreeAt(gs, fs[k].End());
    assert !gs[k].Has(fs[k].End());
  }

  // ---------------------------------------------------------------- the list in memory

  /** The first assignment pair of free(): the header of the block put back, joined upwards if it touches. */
  function LinkUp(mem: map<int, Header>, p: int, b: Blk): (m: map<int, Header>)
    requires p in mem && mem[p].ptr in mem
  {
    var nxt := mem[p].ptr;
    mem[b.addr := if b.End() == nxt then Header(mem[nxt].ptr, b.size + mem[nxt].size) else Header(nxt, b.size)]
  }

  /** The second pair: the header before it, joined upwards if it touches. */
  function LinkDown(mem: map<int, Header>, p: int, bp: int): (m: map<int, Header>)
    requires p in mem && bp in mem
  {
    mem[p := if p + mem[p].size == bp then Header(mem[bp].ptr, mem[p].size + mem[bp].size) else Header(bp, mem[p].size)]
  }

  function Upped(fs: seq<Blk>, j: nat, b: Blk): (q: seq<Blk>)
    requires j < |fs|
  {
    var p := Place(fs, j, b);
    if Touch(p, j + 1) then Join(p, j + 1) else p
  }

  lemma UppedAt(fs: seq<Blk>, j: nat, b: Blk, i: nat)
    requires j < |fs| && i < |Upped(fs, j, b)|
    ensures Touch(Place(fs, j, b), j + 1) <==> j + 1 < |fs| && b.End() == fs[j + 1].addr
    ensures |Upped(fs, j, b)| == if Touch(Place(fs, j, b), j + 1) then |fs| else |fs| + 1
    ensures Upped(fs, j, b)[i] ==
      if i <= j then fs[i]
      else if Touch(Place(fs, j, b), j + 1) then (if i == j + 1 then Blk(b.addr, b.size + fs[j + 1].size) else fs[i])
      else if i == j + 1 then b else fs[i - 1]
  {
    var p := Place(fs, j, b);
    PlaceAt(fs, j, b, j + 1);
    if j + 1 < |fs| { PlaceAt(fs, j, b, j + 2); }
    PlaceAt(fs, j, b, i);
    if Touch(p, j + 1) {
      JoinAt(p, j + 1, i);
      PlaceAt(fs, j, b, i + 1);
    }
  }

  lemma AddrOrder(base: int, fs: seq<Blk>, x: nat, y: nat)
    requires Ordered(base, fs) && x < y < |fs|
    ensures fs[x].addr < fs[y].addr
  {
  }

  lemma NextUpped(fs: seq<Blk>, j: nat, b: Blk, i: nat)
    requires j < |fs| && i < |Upped(fs, j, b)| && i != j
    ensures Next(Upped(fs, j, b), i) ==
      if i < j then Next(fs, i)
      else if i == j + 1 then
        (if Touch(Place(fs, j, b), j + 1) then Next(fs, j + 1) else Next(fs, j))
      else Next(fs, if Touch(Place(fs, j, b), j + 1) then i else i - 1)
  {
    var q := Upped(fs, j, b);
    UppedAt(fs, j, b, 0);
    if i + 1 < |q| { UppedAt(fs, j, b, i + 1); }
  }

  lemma LinkFirstAt(base: int, mem: map<int, Header>, fs: seq<Blk>, j: nat, b: Blk, i: nat)
    requires Sorted(base, fs) && Linked(mem, fs) && Fits(fs, j, b)
    requires fs[j].addr in mem && mem[fs[j].addr].ptr in mem
    requires i < |Upped(fs, j, b)| && i != j && forall k :: 0 <= k < |fs| ==> fs[k].addr != b.addr
    ensures LinkedAt(LinkUp(mem, fs[j].addr, b), Upped(fs, j, b), i)
  {
    UppedAt(fs, j, b, i);
    NextUpped(fs, j, b, i);
    assert LinkedAt(mem, fs, j);
    if i == j + 1 {
      if j + 1 < |fs| { assert LinkedAt(mem, fs, j + 1); }
    } else {
      assert LinkedAt(mem, fs, if i < j || Touch(Place(fs, j, b), j + 1) then i else i - 1);
    }
  }

  lemma FitsApart(base: int, fs: seq<Blk>, j: nat, b: Blk, k: nat)
    requires Sorted(base, fs) && Fits(fs, j, b) && k < |fs|
    ensures fs[k].addr != b.addr
  {
    if k == j + 1 { assert b.addr < b.End(); }
    if k > j + 1 { AddrOrder(base, fs, j + 1, k); }
  }

  lemma LinkFirst(base: int, mem: map<int, Header>, fs: seq<Blk>, j: nat, b: Blk)
    requires Sorted(base, fs) && Linked(mem, fs) && Fits(fs, j, b)
    ensures fs[j].addr in mem && mem[fs[j].addr].ptr in mem
    ensures var q := Upped(fs, j, b); var m := LinkUp(mem, fs[j].addr, b);
      && |q| > j + 1 && q[j] == fs[j] && q[j + 1].addr == b.addr && m[fs[j].addr] == mem[fs[j].addr]
      && forall i :: 0 <= i < |q| && i != j ==> LinkedAt(m, q, i)
  {
    assert LinkedAt(mem, fs, j) && LinkedAt(mem, fs, if j + 1 < |fs| then j + 1 else 0);
    UppedAt(fs, j, b, j);
    UppedAt(fs, j, b, j + 1);
    forall k | 0 <= k < |fs| ensures fs[k].addr != b.addr { FitsApart(base, fs, j, b, k); }
    forall i | 0 <= i < |Upped(fs, j, b)| && i != j
      ensures LinkedAt(LinkUp(mem, fs[j].addr, b), Upped(fs, j, b), i)
    {
      LinkFirstAt(base, mem, fs, j, b, i);
    }
  }

  lemma NextJoin(q: seq<Blk>, j: nat, i: nat)
    requires j + 1 < |q| && i < |q| - 1
    ensures |Join(q, j)| == |q| - 1
    ensures Next(Join(q, j), i) == Next(q, if i < j then i else i + 1)
  {
    JoinAt(q, j, 0);
    if i + 1 < |q| - 1 { JoinAt(q, j, i + 1); }
  }

  lemma LinkSecond(base: int, mem: map<int, Header>, q: seq<Blk>, j: nat)
    requires Ordered(base, q) && j + 1 < |q|
    requires forall i :: 0 <= i < |q| && i != j ==> LinkedAt(mem, q, i)
    requires q[j + 1].addr in mem && q[j].addr in mem && mem[q[j].addr].size == q[j].size
    ensures Linked(LinkDown(mem, q[j].addr, q[j + 1].addr), if Touch(q, j) then Join(q, j) else q)
  {
    var m := LinkDown(mem, q[j].addr, q[j + 1].addr);
    assert LinkedAt(mem, q, j + 1);
    if Touch(q, j) {
      assert |Join(q, j)| == |q| - 1;
      forall i | 0 <= i < |q| - 1
        ensures LinkedAt(m, Join(q, j), i)
      {
        JoinAt(q, j, i);
        NextJoin(q, j, i);
        if i < j { AddrOrder(base, q, i, j); assert LinkedAt(mem, q, i); }
        if i > j { AddrOrder(base, q, j, i + 1); assert LinkedAt(mem, q, i + 1); }
      }
      assert forall i :: 0 <= i < |Join(q, j)| ==> LinkedAt(m, Join(q, j), i);
    } else {
      forall i | 0 <= i < |q|
        ensures LinkedAt(m, q, i)
      {
        if i < j { AddrOrder(base, q, i, j); assert LinkedAt(mem, q, i); }
        if i > j { AddrOrder(base, q, j, i); assert LinkedAt(mem, q, i); }
      }
    }
  }

  /** The four cases of free() in one: memory ends up holding the list with the block inserted. */
  lemma LinkInsert(base: int, mem: map<int, Header>, fs: seq<Blk>, j: nat, b: Blk)
    requires Sorted(base, fs) && Linked(mem, fs) && Fits(fs, j, b)
    ensures fs[j].addr in mem && mem[fs[j].addr].ptr in mem
    ensures Linked(LinkDown(LinkUp(mem, fs[j].addr, b), fs[j].addr, b.addr), Insert(fs, j, b))
  {
    assert LinkedAt(mem, fs, j);
    LinkFirst(base, mem, fs, j, b);
    PlaceOrdered(base, fs, j, b);
    var p := Place(fs, j, b);
    if Touch(p, j + 1) { JoinOrdered(base, p, j + 1); }
    LinkSecond(base, LinkUp(mem, fs[j].addr, b), Upped(fs, j, b), j);
  }

  // ---------------------------------------------------------------- taking a block

  function Removed(fs: seq<Blk>, k: nat): (gs: seq<Blk>)
    requires k < |fs|
  {
    fs[..k] + fs[k + 1..]
  }

  /** The list after `n` units are cut off the end of the k-th block, or the whole block is taken. */
  function Taken(fs: seq<Blk>, k: nat, n: nat): (gs: seq<Blk>)
    requires k < |fs| && n <= fs[k].size
  {
    if fs[k].size == n then Removed(fs, k) else fs[k := Blk(fs[k].addr, fs[k].size - n)]
  }

  /** The block handed out: the last `n` units of the k-th free block. */
  function Cut(fs: seq<Blk>, k: nat, n: nat): (b: Blk)
    requires k < |fs| && n <= fs[k].size
  {
    Blk(fs[k].End() - n, n)
  }

  lemma RemovedAt(fs: seq<Blk>, k: nat, i: nat)
    requires k < |fs| && i < |fs| - 1
    ensures Removed(fs, k)[i] == if i < k then fs[i] else fs[i + 1]
  {
  }

  lemma RemovedOrdered(base: int, fs: seq<Blk>, k: nat)
    requires Ordered(base, fs) && 1 <= k < |fs|
    ensures Ordered(base, Removed(fs, k))
  {
    var gs := Removed(fs, k);
    forall x, y | 0 <= x < y < |gs|
      ensures gs[x].End() <= gs[y].addr
    {
      RemovedAt(fs, k, x);
      RemovedAt(fs, k, y);
    }
    forall x | 1 <= x < |gs|
      ensures gs[x].size >= 1 && gs[x].addr > base
    {
      RemovedAt(fs, k, x);
    }
  }

  lemma RemovedApart(base: int, fs: seq<Blk>, k: nat, i: int)
    requires Sorted(base, fs) && 1 <= k < |fs|
    ensures !Touch(Removed(fs, k), i)
  {
    if 0 <= i < |fs| - 2 {
      RemovedAt(fs, k, i);
      RemovedAt(fs, k, i + 1);
      assert !Touch(fs, if i < k then i else i + 1);
      if i == k - 1 { assert fs[i].End() <= fs[k].addr < fs[k].End() <= fs[k + 1].addr; }
    }
  }

  lemma TakenSorted(base: int, fs: seq<Blk>, k: nat, n: nat)
    requires Sorted(base, fs) && 1 <= k < |fs| && 1 <= n <= fs[k].size
    ensures Sorted(base, Taken(fs, k, n))
  {
    var gs := Taken(fs, k, n);
    if fs[k].size == n {
      RemovedOrdered(base, fs, k);
      forall i ensures !Touch(gs, i) { RemovedApart(base, fs, k, i); }
    } else {
      forall i | 0 <= i < |gs| - 1
        ensures !Touch(gs, i)
      {
        assert !Touch(fs, i);
      }
    }
  }

  lemma OneOwner(base: int, fs: seq<Blk>, i: nat, k: nat, u: int)
    requires Ordered(base, fs) && i < |fs| && k < |fs| && fs[i].Has(u) && fs[k].Has(u)
    ensures i == k
  {
  }

  lemma RemovedUnits(base: int, fs: seq<Blk>, k: nat, u: int)
    requires Ordered(base, fs) && k < |fs|
    ensures FreeAt(Removed(fs, k), u) <==> FreeAt(fs, u) && !fs[k].Has(u)
  {
    if FreeAt(Removed(fs, k), u) { StillFree(base, fs, k, u); }
    if FreeAt(fs, u) && !fs[k].Has(u) {
      var i :| 0 <= i < |fs| && fs[i].Has(u);
      var x := if i < k then i else i - 1;
      RemovedAt(fs, k, x);
      assert Removed(fs, k)[x].Has(u);
    }
  }

  lemma StillFree(base: int, fs: seq<Blk>, k: nat, u: int)
    requires Ordered(base, fs) && k < |fs| && FreeAt(Removed(fs, k), u)
    ensures FreeAt(fs, u) && !fs[k].Has(u)
  {
    var gs := Removed(fs, k);
    var i :| 0 <= i < |gs| && gs[i].Has(u);
    RemovedAt(fs, k, i);
    var x := if i < k then i else i + 1;
    assert fs[x].Has(u);
    if fs[k].Has(u) { OneOwner(base, fs, x, k, u); }
  }

  lemma ShortenedUnits(base: int, fs: seq<Blk>, k: nat, n: nat, u: int)
    requires Ordered(base, fs) && k < |fs| && n < fs[k].size
    ensures FreeAt(fs[k := Blk(fs[k].addr, fs[k].size - n)], u) <==> FreeAt(fs, u) && !Cut(fs, k, n).Has(u)
  {
    var gs := fs[k := Blk(fs[k].addr, fs[k].size - n)];
    if FreeAt(gs, u) {
      var i :| 0 <= i < |gs| && gs[i].Has(u);
      assert fs[i].Has(u);
      if fs[k].Has(u) { OneOwner(base, fs, i, k, u); }
    }
    if FreeAt(fs, u) && !Cut(fs, k, n).Has(u) {
      var i :| 0 <= i < |fs| && fs[i].Has(u);
      assert gs[i].Has(u);
    }
  }

  /** Handing a block out takes exactly its units from the free ones. */
  lemma TakenUnits(base: int, fs: seq<Blk>, k: nat, n: nat, u: int)
    requires Sorted(base, fs) && 1 <= k < |fs| && 1 <= n <= fs[k].size
    ensures FreeAt(Taken(fs, k, n), u) <==> FreeAt(fs, u) && !Cut(fs, k, n).Has(u)
  {
    if fs[k].size == n { RemovedUnits(base, fs, k, u); } else { ShortenedUnits(base, fs, k, n, u); }
  }

  /** The assignments of malloc() to the headers: unlink an exact fit, else shorten and write a new header. */
  function Unlink(mem: map<int, Header>, prevp: int, p: int, n: nat): (m: map<int, Header>)
    requires prevp in mem && p in mem && n <= mem[p].size
  {
    if mem[p].size == n then mem[prevp := Header(mem[p].ptr, mem[prevp].size)]
    else
      var m := mem[p := Header(mem[p].ptr, mem[p].size - n)];
      var q := p + m[p].size;
      m[q := Header(if q in m then m[q].ptr else 0, n)]
  }

  lemma NextRemoved(fs: seq<Blk>, k: nat, i: nat)
    requires 1 <= k < |fs| && i < |fs| - 1
    ensures Next(Removed(fs, k), i) == if i < k - 1 then Next(fs, i) else if i == k - 1 then Next(fs, k) else Next(fs, i + 1)
  {
    RemovedAt(fs, k, 0);
    if i + 1 < |fs| - 1 { RemovedAt(fs, k, i + 1); }
  }

  lemma UnlinkExact(base: int, mem: map<int, Header>, fs: seq<Blk>, k: nat, n: nat)
    requires Sorted(base, fs) && Linked(mem, fs) && 1 <= k < |fs| && n == fs[k].size
    requires fs[k - 1].addr in mem && fs[k].addr in mem && mem[fs[k].addr].size == n
    ensures Linked(Unlink(mem, fs[k - 1].addr, fs[k].addr, n), Taken(fs, k, n))
  {
    var m, gs := Unlink(mem, fs[k - 1].addr, fs[k].addr, n), Removed(fs, k);
    assert LinkedAt(mem, fs, k) && LinkedAt(mem, fs, k - 1);
    forall i | 0 <= i < |gs|
      ensures LinkedAt(m, gs, i)
    {
      RemovedAt(fs, k, i);
      NextRemoved(fs, k, i);
      assert LinkedAt(mem, fs, if i < k then i else i + 1);
      if i < k - 1 { AddrOrder(base, fs, i, k - 1); }
      if i >= k { AddrOrder(base, fs, k - 1, i + 1); }
    }
  }

  lemma UnlinkSplit(base: int, mem: map<int, Header>, fs: seq<Blk>, k: nat, n: nat)
    requires Sorted(base, fs) && Linked(mem, fs) && 1 <= k < |fs| && 1 <= n < fs[k].size
    requires fs[k - 1].addr in mem && fs[k].addr in mem && mem[fs[k].addr].size == fs[k].size
    ensures Linked(Unlink(mem, fs[k - 1].addr, fs[k].addr, n), Taken(fs, k, n))
  {
    var m, gs := Unlink(mem, fs[k - 1].addr, fs[k].addr, n), Taken(fs, k, n);
    forall i | 0 <= i < |gs|
      ensures LinkedAt(m, gs, i)
    {
      assert LinkedAt(mem, fs, i);
      if i < k { AddrOrder(base, fs, i, k); }
      if i > k { AddrOrder(base, fs, k, i); }
    }
  }

  /** Freeing a block right after it was cut off gives back the very same list. */
  lemma TakeThenFree(base: int, fs: seq<Blk>, k: nat, n: nat, j: nat)
    requires Sorted(base, fs) && 1 <= k < |fs| && 1 <= n <= fs[k].size
    requires Fits(Taken(fs, k, n), j, Cut(fs, k, n))
    ensures Insert(Taken(fs, k, n), j, Cut(fs, k, n)) == fs
  {
    var gs, b := Taken(fs, k, n), Cut(fs, k, n);
    TakenSorted(base, fs, k, n);
    InsertSorted(base, gs, j, b);
    forall u
      ensures FreeAt(Insert(gs, j, b), u) <==> FreeAt(fs, u)
    {
      InsertUnits(gs, j, b, u);
      TakenUnits(base, fs, k, n, u);
      assert b.Has(u) ==> fs[k].Has(u);
    }
    Canonical(base, Insert(gs, j, b), fs);
  }

  /** Two blocks freed in either order leave the same list. */
  lemma FreesCommute(base: int, fs: seq<Blk>, a: Blk, b: Blk, i: nat, j: nat, i': nat, j': nat)
    requires Sorted(base, fs) && Fits(fs, i, a) && Fits(Insert(fs, i, a), j, b)
    requires Fits(fs, i', b) && Fits(Insert(fs, i', b), j', a)
    ensures Insert(Insert(fs, i, a), j, b) == Insert(Insert(fs, i', b), j', a)
  {
    InsertSorted(base, fs, i, a);
    InsertSorted(base, fs, i', b);
    InsertSorted(base, Insert(fs, i, a), j, b);
    InsertSorted(base, Insert(fs, i', b), j', a);
    forall u
      ensures FreeAt(Insert(Insert(fs, i, a), j, b), u) <==> FreeAt(Insert(Insert(fs, i', b), j', a), u)
    {
      InsertUnits(fs, i, a, u);
      InsertUnits(fs, i', b, u);
      InsertUnits(Insert(fs, i, a), j, b, u);
      InsertUnits(Insert(fs, i', b), j', a, u);
    }
    Canonical(base, Insert(Insert(fs, i, a), j, b), Insert(Insert(fs, i', b), j', a));
  }

  // ---------------------------------------------------------------- the whole heap

  /** Every block handed out still has its header. */
  ghost predicate Headers(base: int, mem: map<int, Header>, live: map<int, nat>) {
    forall a :: a in live ==> a > base && live[a] >= 1 && a in mem && mem[a].size == live[a]
  }

  /** No unit belongs to two blocks. */
  ghost predicate Apart(fs: seq<Blk>, live: map<int, nat>) {
    && (forall u :: FreeAt(fs, u) ==> !LiveAt(live, u))
    && (forall a, b, u :: a in live && b in live && Blk(a, live[a]).Has(u) && Blk(b, live[b]).Has(u) ==> a == b)
  }

  /** Free and live blocks together are exactly the memory obtained from sbrk. */
  ghost predicate Tiles(fs: seq<Blk>, live: map<int, nat>, arena: set<int>) {
    forall u :: u in arena <==> FreeAt(fs, u) || LiveAt(live, u)
  }

  ghost predicate Sound(base: int, mem: map<int, Header>, fs: seq<Blk>, live: map<int, nat>, arena: set<int>) {
    Sorted(base, fs) && Linked(mem, fs) && Headers(base, mem, live) && Apart(fs, live) && Tiles(fs, live, arena)
  }

  lemma LiveWithout(live: map<int, nat>, a: int, u: int)
    requires a in live
    ensures LiveAt(live, u) <==> LiveAt(live - {a}, u) || Blk(a, live[a]).Has(u)
  {
    if LiveAt(live, u) && !Blk(a, live[a]).Has(u) {
      var x :| x in live && Blk(x, live[x]).Has(u);
      assert x in live - {a};
    }
    if LiveAt(live - {a}, u) {
      var x :| x in live - {a} && Blk(x, (live - {a})[x]).Has(u);
      assert x in live;
    }
  }

  lemma LiveWith(live: map<int, nat>, a: int, n: nat, u: int)
    requires a !in live
    ensures LiveAt(live[a := n], u) <==> LiveAt(live, u) || Blk(a, n).Has(u)
  {
    LiveWithout(live[a := n], a, u);
    assert live[a := n] - {a} == live;
  }

  /** A live block overlaps no free block and starts at none. */
  lemma LiveClear(base: int, mem: map<int, Header>, fs: seq<Blk>, live: map<int, nat>, a: int, i: nat)
    requires Sorted(base, fs) && Headers(base, mem, live) && Apart(fs, live) && a in live && i < |fs|
    ensures fs[i].addr != a
    ensures fs[i].addr < a ==> fs[i].End() <= a
    ensures a < fs[i].addr ==> a + live[a] <= fs[i].addr
  {
    var b := Blk(a, live[a]);
    assert b.Has(a) && LiveAt(live, a) && !FreeAt(fs, a);
    assert i > 0 ==> fs[i].Has(fs[i].addr) && FreeAt(fs, fs[i].addr) && !LiveAt(live, fs[i].addr);
  }

  lemma OnlyLive(fs: seq<Blk>, live: map<int, nat>, a: int, u: int)
    requires Apart(fs, live) && a in live && Blk(a, live[a]).Has(u)
    ensures !LiveAt(live - {a}, u)
  {
    assert forall x :: x in live - {a} ==> x in live && !Blk(x, live[x]).Has(u);
  }

  /** No live block starts at a unit that is not live. */
  lemma StartIsLive(base: int, mem: map<int, Header>, live: map<int, nat>, u: int)
    requires Headers(base, mem, live) && !LiveAt(live, u)
    ensures u !in live
  {
    assert u in live ==> Blk(u, live[u]).Has(u);
  }

  lemma FreeApart(base: int, fs: seq<Blk>, live: map<int, nat>, a: int, j: nat)
    requires Sorted(base, fs) && Apart(fs, live) && a in live && j < |fs|
    ensures Apart(Insert(fs, j, Blk(a, live[a])), live - {a})
  {
    var b := Blk(a, live[a]);
    forall u | FreeAt(Insert(fs, j, b), u)
      ensures !LiveAt(live - {a}, u)
    {
      InsertUnits(fs, j, b, u);
      LiveWithout(live, a, u);
      if b.Has(u) { OnlyLive(fs, live, a, u); }
    }
  }

  lemma FreeTiles(fs: seq<Blk>, live: map<int, nat>, arena: set<int>, a: int, j: nat)
    requires Tiles(fs, live, arena) && a in live && j < |fs|
    ensures Tiles(Insert(fs, j, Blk(a, live[a])), live - {a}, arena)
  {
    var b := Blk(a, live[a]);
    forall u
      ensures u in arena <==> FreeAt(Insert(fs, j, b), u) || LiveAt(live - {a}, u)
    {
      InsertUnits(fs, j, b, u);
      LiveWithout(live, a, u);
    }
  }

  /** free() keeps the heap sound and changes no byte of any other live block's header. */
  lemma FreeSound(base: int, mem: map<int, Header>, fs: seq<Blk>, live: map<int, nat>, arena: set<int>, a: int, j: nat)
    requires Sound(base, mem, fs, live, arena) && a in live && Fits(fs, j, Blk(a, live[a]))
    ensures fs[j].addr in mem && mem[fs[j].addr].ptr in mem
    ensures var b := Blk(a, live[a]);
      Sound(base, LinkDown(LinkUp(mem, fs[j].addr, b), fs[j].addr, a), Insert(fs, j, b), live - {a}, arena)
  {
    var b := Blk(a, live[a]);
    LinkInsert(base, mem, fs, j, b);
    InsertSorted(base, fs, j, b);
    FreeApart(base, fs, live, a, j);
    FreeTiles(fs, live, arena, a, j);
    forall x | x in live - {a}
      ensures x != fs[j].addr
    {
      LiveClear(base, mem, fs, live, x, j);
    }
  }

  lemma TakeHeaders(base: int, mem: map<int, Header>, fs: seq<Blk>, live: map<int, nat>, k: nat, n: nat)
    requires Sorted(base, fs) && Linked(mem, fs) && Headers(base, mem, live) && Apart(fs, live)
    requires 1 <= k < |fs| && 1 <= n <= fs[k].size
    requires fs[k - 1].addr in mem && fs[k].addr in mem && mem[fs[k].addr].size == fs[k].size
    ensures Headers(base, Unlink(mem, fs[k - 1].addr, fs[k].addr, n), live[Cut(fs, k, n).addr := n])
  {
    forall x | x in live
      ensures x != fs[k - 1].addr && x != fs[k].addr
    {
      LiveClear(base, mem, fs, live, x, k - 1);
      LiveClear(base, mem, fs, live, x, k);
    }
  }

  lemma TakeSound(base: int, mem: map<int, Header>, fs: seq<Blk>, live: map<int, nat>, arena: set<int>, k: nat, n: nat)
    requires Sound(base, mem, fs, live, arena) && 1 <= k < |fs| && 1 <= n <= fs[k].size
    ensures fs[k - 1].addr in mem && fs[k].addr in mem && mem[fs[k].addr].size == fs[k].size
    ensures Cut(fs, k, n).addr !in live
    ensures Sound(base, Unlink(mem, fs[k - 1].addr, fs[k].addr, n), Taken(fs, k, n), live[Cut(fs, k, n).addr := n], arena)
  {
    var b := Cut(fs, k, n);
    assert LinkedAt(mem, fs, k) && LinkedAt(mem, fs, k - 1);
    if fs[k].size == n { UnlinkExact(base, mem, fs, k, n); } else { UnlinkSplit(base, mem, fs, k, n); }
    TakenSorted(base, fs, k, n);
    assert fs[k].Has(b.addr) && FreeAt(fs, b.addr);
    StartIsLive(base, mem, live, b.addr);
    TakeHeaders(base, mem, fs, live, k, n);
    TakeApart(base, fs, live, k, n);
    TakeTiles(base, fs, live, arena, k, n);
  }

  lemma TakeApart(base: int, fs: seq<Blk>, live: map<int, nat>, k: nat, n: nat)
    requires Sorted(base, fs) && Apart(fs, live) && 1 <= k < |fs| && 1 <= n <= fs[k].size
    requires Cut(fs, k, n).addr !in live
    ensures Apart(Taken(fs, k, n), live[Cut(fs, k, n).addr := n])
  {
    var b := Cut(fs, k, n);
    var more := live[b.addr := n];
    forall u | FreeAt(Taken(fs, k, n), u)
      ensures !LiveAt(more, u)
    {
      TakenUnits(base, fs, k, n, u);
      LiveWith(live, b.addr, n, u);
    }
    forall x, y, u | x in more && y in more && Blk(x, more[x]).Has(u) && Blk(y, more[y]).Has(u)
      ensures x == y
    {
      assert b.Has(u) ==> fs[k].Has(u) && FreeAt(fs, u) && !LiveAt(live, u);
    }
  }

  lemma TakeTiles(base: int, fs: seq<Blk>, live: map<int, nat>, arena: set<int>, k: nat, n: nat)
    requires Sorted(base, fs) && Tiles(fs, live, arena) && 1 <= k < |fs| && 1 <= n <= fs[k].size
    requires Cut(fs, k, n).addr !in live
    ensures Tiles(Taken(fs, k, n), live[Cut(fs, k, n).addr := n], arena)
  {
    var b := Cut(fs, k, n);
    forall u
      ensures u in arena <==> FreeAt(Taken(fs, k, n), u) || LiveAt(live[b.addr := n], u)
    {
      TakenUnits(base, fs, k, n, u);
      LiveWith(live, b.addr, n, u);
      if b.Has(u) { assert fs[k].Has(u); }
    }
  }

  ghost function Region(a: int, n: nat): (r: set<int>) {
    set u | a <= u < a + n && Blk(a, n).Has(u)
  }

  /** Memory fresh from sbrk enters as one live block, which morecore then frees. */
  lemma GrowSound(base: int, mem: map<int, Header>, fs: seq<Blk>, live: map<int, nat>, arena: set<int>, a: int, n: nat)
    requires Sound(base, mem, fs, live, arena) && a > base && n >= 1 && forall u :: u in arena ==> u < a
    ensures a !in live
    ensures Sound(base, mem[a := Header(if a in mem then mem[a].ptr else 0, n)], fs, live[a := n], arena + Region(a, n))
  {
    assert !LiveAt(live, a) && a !in arena;
    StartIsLive(base, mem, live, a);
    var m, more := mem[a := Header(if a in mem then mem[a].ptr else 0, n)], live[a := n];
    forall i | 0 <= i < |fs|
      ensures LinkedAt(m, fs, i)
    {
      assert LinkedAt(mem, fs, i);
      assert i > 0 ==> fs[i].Has(fs[i].addr) && FreeAt(fs, fs[i].addr);
    }
    forall u
      ensures LiveAt(more, u) <==> LiveAt(live, u) || Blk(a, n).Has(u)
    {
      LiveWith(live, a, n, u);
    }
    forall x, y, u | x in more && y in more && Blk(x, more[x]).Has(u) && Blk(y, more[y]).Has(u)
      ensures x == y
    {
      assert Blk(a, n).Has(u) ==> u !in arena && !LiveAt(live, u);
    }
  }

  // ---------------------------------------------------------------- the code

  /** Units for a request of `nbytes`: the payload rounded up, plus the header, in 32-bit arithmetic. */
  function Units(nbytes: nat): (n: nat)
    ensures n >= 1
  {
    (nbytes + UNIT - 1) % WORD / UNIT + 1
  }

  /** Units morecore asks sbrk for. */
  function CoreUnits(n: nat): (m: nat) {
    if n < CORE then CORE else n
  }

  /** The bytes of `nu` units in 32 bits, read as the int that sbrk takes. */
  function SbrkArg(nu: nat): (n: int) {
    var w := nu * UNIT % WORD;
    if w < WORD / 2 then w else w - WORD
  }

  /** The memory of a process: its size in bytes, and the pages below that which are not mapped. */
  datatype Space = Space(brk: nat, gaps: set<nat>)

  /** What allocuvm comes to: all pages, all but the last one, or failure. */
  datatype Pages = AllPages | LastMissing | NoPages

  /** What sbrk does: it fails; or it returns the old size, and the memory is `now`; or it fails with all memory taken away. */
  datatype Brk = Failed | Moved(now: Space) | Emptied

  function PagesFor(size: nat): (n: nat) {
    (size + PGSIZE - 1) / PGSIZE
  }

  /** sys_sbrk and growproc over allocuvm and deallocuvm; `pages` is what allocuvm comes to if it needs any. */
  function Sbrk(p: Space, n: int, pages: Pages): (r: Brk) {
    if n > 0 then
      var hi := PagesFor(p.brk + n);
      if p.brk + n >= KERNBASE then Failed
      else if hi == PagesFor(p.brk) then Moved(p.(brk := p.brk + n))
      else match pages
        case NoPages => Failed
        case AllPages => Moved(p.(brk := p.brk + n))
        case LastMissing => Moved(Space(p.brk + n, p.gaps + {hi - 1}))
    else if n < 0 then
      var size := (p.brk + n) % WORD;
      if size >= p.brk then if p.brk == 0 then Failed else Moved(p)
      else if size == 0 then Emptied
      else Moved(Space(size, set g | g in p.gaps && g < PagesFor(size)))
    else Moved(p)
  }

  /** The page unit `u` lies in. */
  function PageOf(u: int): (g: int) {
    u * UNIT / PGSIZE
  }

  /** The header at unit `u` can be read and written. */
  predicate There(p: Space, u: int) {
    0 <= u < PagesFor(p.brk) * PGSIZE / UNIT && PageOf(u) !in p.gaps
  }

  /** The largest request for which morecore asks sbrk for what it means to ask for. */
  const MOST: nat := 0x7FFF_FFF0

  /**
   Up to MOST bytes the units asked for have room for the request, and sbrk is asked for those units.
   Beyond, sbrk is asked for nothing or for less than nothing, or the rounding wraps.
   */
  lemma RequestExact(nbytes: nat)
    requires nbytes < WORD
    ensures nbytes <= MOST ==>
      (Units(nbytes) - 1) * UNIT >= nbytes && SbrkArg(CoreUnits(Units(nbytes))) == CoreUnits(Units(nbytes)) * UNIT < KERNBASE
    ensures nbytes > MOST ==>
      (Units(nbytes) - 1) * UNIT < nbytes || (Units(nbytes) * UNIT >= KERNBASE && SbrkArg(CoreUnits(Units(nbytes))) <= 0)
  {
    var w := nbytes + UNIT - 1;
    if w < WORD {
      assert w / UNIT * UNIT >= nbytes;
      assert nbytes > MOST ==> w / UNIT >= 0xFFF_FFFF;
    } else {
      assert w % WORD == w - WORD;
    }
  }

  /**
   Requests that fail: sbrk reports success and grants nothing for 0x80000000 and for 0xFFFFFFF8 bytes,
   and 0xFFFFFFFF bytes are given one unit, which has no payload.
   */
  lemma HugeRequests(p: Space, pages: Pages)
    requires 0 < p.brk < KERNBASE - UNIT
    ensures Sbrk(p, SbrkArg(CoreUnits(Units(0x8000_0000))), pages) == Moved(p)
    ensures Sbrk(p, SbrkArg(CoreUnits(Units(0xFFFF_FFF8))), pages) == Moved(p)
    ensures Units(0xFFFF_FFFF) == 1
  {
    assert Units(0x8000_0000) == 0x1000_0001 && Units(0xFFFF_FFF8) == 0x2000_0000;
  }

  /** The memory that sbrk has granted ends at `brk`, and everything on the heap lies below that. */
  ghost predicate Granted(arena: set<int>, brk: nat) {
    brk % UNIT == 0 && forall u :: u in arena ==> (u + 1) * UNIT <= brk
  }

  /** No header, on the list or of a block handed out, lies in a page that is missing; `base` is in the data of the program. */
  ghost predicate Headed(fs: seq<Blk>, live: map<int, nat>, gaps: set<nat>) {
    && (forall i :: 1 <= i < |fs| ==> PageOf(fs[i].addr) !in gaps)
    && (forall a :: a in live ==> PageOf(a) !in gaps)
  }

  /** The block touches no page that is missing. */
  ghost predicate Clear(b: Blk, gaps: set<nat>) {
    forall u :: b.Has(u) ==> PageOf(u) !in gaps
  }

  /** A block of memory that is there, with room for the request. */
  ghost predicate Serves(b: Blk, nbytes: nat, p: Space) {
    b.End() * UNIT <= p.brk && (b.size - 1) * UNIT >= nbytes && Clear(b, p.gaps)
  }

  /** The block after the j-th, going round. */
  function After(fs: seq<Blk>, j: nat): (i: nat)
    requires j < |fs|
    ensures i < |fs|
  {
    if j + 1 < |fs| then j + 1 else 0
  }

  /** The first block of at least `n` units among `left` blocks from the j-th on, going round; -1 if there is none. */
  ghost function Fit(fs: seq<Blk>, j: nat, n: nat, left: nat): (k: int)
    requires j < |fs|
    ensures -1 <= k < |fs| && (k >= 0 ==> fs[k].size >= n)
    decreases left
  {
    if left == 0 then -1 else if fs[j].size >= n then j else Fit(fs, After(fs, j), n, left - 1)
  }

  /** The block malloc finds, starting behind the `at`-th. */
  ghost function Found(fs: seq<Blk>, at: nat, n: nat): (k: int)
    ensures -1 <= k < |fs| && (k >= 0 ==> fs[k].size >= n)
  {
    if at < |fs| then Fit(fs, After(fs, at), n, |fs|) else -1
  }

  lemma FitStep(fs: seq<Blk>, j: nat, n: nat, left: nat)
    requires j < |fs| && left > 0
    ensures Fit(fs, j, n, left) == if fs[j].size >= n then j else Fit(fs, After(fs, j), n, left - 1)
    ensures left == 1 && fs[j].size < n ==> Fit(fs, j, n, left) == -1
  {
  }

  lemma {:induction false} FitPasses(fs: seq<Blk>, j: nat, k: nat, n: nat, left: nat)
    requires j <= k < |fs| && k - j <= left && forall i :: j <= i < k ==> fs[i].size < n
    ensures Fit(fs, j, n, left) == Fit(fs, k, n, left - (k - j))
    decreases k - j
  {
    if j < k { FitPasses(fs, j + 1, k, n, left - 1); }
  }

  lemma {:induction false} FitWraps(fs: seq<Blk>, j: nat, n: nat, left: nat)
    requires j < |fs| && |fs| - j <= left && forall i :: j <= i < |fs| ==> fs[i].size < n
    ensures Fit(fs, j, n, left) == Fit(fs, 0, n, left - (|fs| - j))
  {
    FitPasses(fs, j, |fs| - 1, n, left);
  }

  lemma FoundIs(fs: seq<Blk>, at: nat, n: nat, k: nat)
    requires at < |fs| && k < |fs| && fs[k].size >= n
    requires if k > at then forall i :: at < i < k ==> fs[i].size < n else forall i :: at < i < |fs| || 0 <= i < k ==> fs[i].size < n
    ensures Found(fs, at, n) == k
  {
    if k > at {
      FitPasses(fs, at + 1, k, n, |fs|);
    } else {
      if at + 1 < |fs| { FitWraps(fs, at + 1, n, |fs|); }
      FitPasses(fs, 0, k, n, if at + 1 < |fs| then at + 1 else |fs|);
    }
  }

  lemma {:induction false} FitNone(fs: seq<Blk>, j: nat, n: nat, left: nat, d: nat)
    requires j < |fs| && d < left <= |fs| && Fit(fs, j, n, left) == -1
    ensures fs[if j + d < |fs| then j + d else j + d - |fs|].size < n
    decreases left
  {
    if d > 0 { FitNone(fs, After(fs, j), n, left - 1, d - 1); }
  }

  lemma FoundNone(fs: seq<Blk>, at: nat, n: nat)
    requires at < |fs| && Found(fs, at, n) == -1
    ensures forall i :: 0 <= i < |fs| ==> fs[i].size < n
  {
    var j := After(fs, at);
    forall i | 0 <= i < |fs|
      ensures fs[i].size < n
    {
      FitNone(fs, j, n, |fs|, if i >= j then i - j else i + |fs| - j);
    }
  }

  /** Where malloc puts a block of `n` units: at the end of the block it finds, or at the end of the memory it asks for. */
  ghost function Spot(fs: seq<Blk>, at: nat, n: nat, brk: nat): (a: int) {
    var k := Found(fs, at, n);
    if k >= 0 then fs[k].End() - n else brk / UNIT + CoreUnits(n) - n
  }

  /** A block in memory below KERNBASE is too small for a request of half the address space. */
  lemma TooSmall(base: int, fs: seq<Blk>, live: map<int, nat>, arena: set<int>, brk: nat, i: nat)
    requires Sorted(base, fs) && Tiles(fs, live, arena) && Granted(arena, brk) && base > 0 && brk < KERNBASE && i < |fs|
    ensures fs[i].size * UNIT < KERNBASE
  {
    if i > 0 {
      assert fs[i].Has(fs[i].End() - 1) && FreeAt(fs, fs[i].End() - 1);
      assert fs[i].End() - 1 in arena;
    }
  }

  /** The free block after which address `a` belongs. */
  lemma SlotOf(base: int, fs: seq<Blk>, a: int) returns (t: nat)
    requires Ordered(base, fs) && a > base && forall i :: 0 <= i < |fs| ==> fs[i].addr != a
    ensures t < |fs| && fs[t].addr < a && (t + 1 < |fs| ==> a < fs[t + 1].addr)
  {
    t := 0;
    while t + 1 < |fs| && fs[t + 1].addr < a
      invariant t < |fs| && fs[t].addr < a
    {
      t := t + 1;
    }
  }

  /** The list malloc searches: a new one if there is none. */
  ghost function Listed(base: int, fs: seq<Blk>): (gs: seq<Blk>) {
    if fs == [] then [Blk(base, 0)] else fs
  }

  /** The list malloc takes from, with the memory asked for at its end if nothing was big enough. */
  ghost function Stock(fs: seq<Blk>, n: nat, brk: nat, grew: bool): (gs: seq<Blk>)
    requires fs != []
  {
    if grew then Insert(fs, |fs| - 1, Blk(brk / UNIT, CoreUnits(n))) else fs
  }

  /** What malloc takes was free, or is memory it asked for. */
  lemma StockUnits(fs: seq<Blk>, n: nat, brk: nat, grew: bool, k: nat)
    requires fs != [] && var gs := Stock(fs, n, brk, grew); k < |gs| && n <= gs[k].size
    ensures forall u :: Cut(Stock(fs, n, brk, grew), k, n).Has(u) ==> FreeAt(fs, u) || (grew && Blk(brk / UNIT, CoreUnits(n)).Has(u))
  {
    var gs, b := Stock(fs, n, brk, grew), Blk(brk / UNIT, CoreUnits(n));
    forall u | Cut(gs, k, n).Has(u)
      ensures FreeAt(fs, u) || (grew && b.Has(u))
    {
      assert gs[k].Has(u) && FreeAt(gs, u);
      if grew { InsertUnits(fs, |fs| - 1, b, u); }
    }
  }

  /** `n` units at `a` were cut off the block behind the `at`-th of `was`. */
  ghost predicate Drawn(was: seq<Blk>, fs: seq<Blk>, at: nat, n: nat, a: int) {
    && at + 1 < |was| && 1 <= n <= was[at + 1].size
    && fs == Taken(was, at + 1, n) && a == Cut(was, at + 1, n).addr
  }

  lemma ListedUnits(base: int, fs: seq<Blk>)
    ensures forall u :: FreeAt(Listed(base, fs), u) <==> FreeAt(fs, u)
  {
    if fs == [] {
      forall u ensures !FreeAt([Blk(base, 0)], u) && !FreeAt(fs, u) { assert !Blk(base, 0).Has(u); }
    }
  }

  lemma DrawnUnits(base: int, was: seq<Blk>, fs: seq<Blk>, at: nat, n: nat, brk: nat, grew: bool, a: int)
    requires Drawn(Stock(Listed(base, was), n, brk, grew), fs, at, n, a)
    ensures forall u :: Blk(a, n).Has(u) ==> FreeAt(was, u) || (grew && Blk(brk / UNIT, CoreUnits(n)).Has(u))
  {
    ListedUnits(base, was);
    StockUnits(Listed(base, was), n, brk, grew, at + 1);
  }

  class Allocator {
    const base: int
    var mem: map<int, Header>
    var freep: int
    ghost var fs: seq<Blk>
    ghost var live: map<int, nat>
    ghost var arena: set<int>
    ghost var at: nat

    /** Before the first malloc there is no list. */
    ghost predicate Valid()
      reads this
    {
      && base > 0
      && if freep == 0 then fs == [] && live == map[] && arena == {} else Ready()
    }

    ghost predicate Ready()
      reads this
    {
      && base > 0 && at < |fs| && fs[at].addr == freep
      && forall k: nat {:trigger HeapOpen(k)} :: HeapOpen(k) ==> Sound(base, mem, fs, live, arena)
    }

    constructor (b: int)
      requires b > 0
      ensures Valid() && base == b && live == map[] && arena == {}
    {
      base, mem, freep := b, map[], 0;
      fs, live, arena, at := [], map[], {}, 0;
    }

    /** The search of free(): it ends within one cycle, at the block after which `bp` belongs. */
    method FindSlot(bp: int) returns (p: int, ghost j: nat, ghost hops: nat)
      requires Ready() && bp in live
      ensures j < |fs| && p == fs[j].addr && Fits(fs, j, Blk(bp, live[bp]))
      ensures hops < |fs|
    {
      assert HeapOpen(0);
      forall i | 0 <= i < |fs| ensures fs[i].addr != bp { LiveClear(base, mem, fs, live, bp, i); }
      ghost var t := SlotOf(base, fs, bp);
      p := freep;
      j, hops := at, 0;
      while true
        invariant 0 <= j < |fs| && p == fs[j].addr
        invariant hops + (if j <= t then t - j else t - j + |fs|) < |fs|
        decreases if j <= t then t - j else t - j + |fs|
      {
        assert LinkedAt(mem, fs, j);
        if bp > p && bp < mem[p].ptr {
          break;
        }
        if p >= mem[p].ptr && (bp > p || bp < mem[p].ptr) {
          break;
        }
        StepOn(base, fs, bp, t, j);
        p := mem[p].ptr;
        j, hops := if j + 1 < |fs| then j + 1 else 0, hops + 1;
      }
      StopsAt(base, fs, bp, t, j);
      LiveClear(base, mem, fs, live, bp, j);
      if j + 1 < |fs| { LiveClear(base, mem, fs, live, bp, j + 1); }
    }

    /** What free() relies on at the place it found, and what its assignments amount to. */
    lemma FreeEffect(bp: int, j: nat)
      requires Ready() && bp in live && Fits(fs, j, Blk(bp, live[bp]))
      ensures bp in mem && mem[bp].size == live[bp] && fs[j].addr in mem && mem[fs[j].addr].ptr in mem
      ensures var b := Blk(bp, live[bp]);
        Sound(base, LinkDown(LinkUp(mem, fs[j].addr, b), fs[j].addr, bp), Insert(fs, j, b), live - {bp}, arena)
    {
      assert HeapOpen(0);
      FreeSound(base, mem, fs, live, arena, bp, j);
    }

    /** free(ap). */
    method Free(ap: int) returns (ghost j: nat)
      requires Ready() && ap - 1 in live
      modifies this
      ensures Ready() && live == old(live) - {ap - 1} && arena == old(arena)
      ensures Fits(old(fs), j, Blk(ap - 1, old(live)[ap - 1])) && fs == Insert(old(fs), j, Blk(ap - 1, old(live)[ap - 1]))
      ensures at == j
    {
      var bp := ap - 1;
      var p;
      ghost var hops;
      p, j, hops := FindSlot(bp);
      ghost var b := Blk(bp, live[bp]);
      FreeEffect(bp, j);
      InsertKeeps(fs, j, b);
      var nxt := mem[p].ptr;
      if bp + mem[bp].size == nxt {
        mem := mem[bp := Header(mem[nxt].ptr, mem[bp].size + mem[nxt].size)];
      } else {
        mem := mem[bp := Header(nxt, mem[bp].size)];
      }
      if p + mem[p].size == bp {
        mem := mem[p := Header(mem[bp].ptr, mem[p].size + mem[bp].size)];
      } else {
        mem := mem[p := Header(bp, mem[p].size)];
      }
      assert mem == LinkDown(LinkUp(old(mem), p, b), p, bp);
      freep := p;
      fs, live, at := Insert(fs, j, b), live - {bp}, j;
    }

    /** One hop along the list. */
    lemma Hop(j: nat)
      requires Ready() && j < |fs|
      ensures fs[j].addr in mem && mem[fs[j].addr] == Header(fs[After(fs, j)].addr, fs[j].size) && fs[0].size == 0
      ensures fs[j].addr == freep ==> j == at
    {
      assert HeapOpen(0);
      assert LinkedAt(mem, fs, j);
      if fs[j].addr == freep { SameAddr(base, fs, j, at); }
    }

    /** One cycle of the loop in malloc: the next block of at least `n` units and the one before it, if there is one. */
    method FindFit(n: nat) returns (found: bool, prevp: int, p: int, ghost k: nat)
      requires Ready() && n >= 1
      ensures found ==> 1 <= k < |fs| && fs[k].size >= n && p == fs[k].addr && prevp == fs[k - 1].addr && k == Found(fs, at, n)
      ensures !found ==> Found(fs, at, n) == -1 && forall i :: 0 <= i < |fs| ==> fs[i].size < n
    {
      prevp := freep;
      ghost var j, i, left := at, After(fs, at), |fs|;
      Hop(j);
      p := mem[prevp].ptr;
      k := 0;
      while true
        invariant 0 <= j < |fs| && i == After(fs, j) && prevp == fs[j].addr && p == fs[i].addr
        invariant left == (if i <= at then at - i + 1 else |fs| - i + at + 1) && Found(fs, at, n) == Fit(fs, i, n, left)
        decreases left
      {
        Hop(i);
        FitStep(fs, i, n, left);
        if mem[p].size >= n {
          return true, prevp, p, i;
        }
        if p == freep {
          FoundNone(fs, at, n);
          return false, prevp, p, 0;
        }
        j, i, left := i, After(fs, i), left - 1;
        prevp := p;
        p := mem[p].ptr;
      }
    }

    lemma GrowEffect(more: int, n: nat)
      requires Ready() && n >= 1 && more > base && forall u :: u in arena ==> u < more
      ensures more !in live && forall i :: 0 <= i < |fs| ==> fs[i].addr < more
      ensures Sound(base, mem[more := Header(if more in mem then mem[more].ptr else 0, n)], fs, live[more := n], arena + Region(more, n))
    {
      assert HeapOpen(0);
      forall i | 0 <= i < |fs| ensures fs[i].addr < more { if i > 0 { assert fs[i].Has(fs[i].addr) && FreeAt(fs, fs[i].addr); } }
      GrowSound(base, mem, fs, live, arena, more, n);
    }

    /** Addresses on the list are not null. */
    lemma Positive(i: nat)
      requires Ready() && i < |fs|
      ensures fs[i].addr > 0
    {
      assert HeapOpen(0);
    }

    /**
     morecore(nu) in a process with memory `p`; `got` is what its call of sbrk does. The block of `nu`
     units goes on the list whenever sbrk does not fail, granted or not; the process dies if the header
     of it cannot be written.
     */
    method Morecore(nu: nat, p: Space, got: Brk) returns (r: Core, now: Space)
      requires Ready() && 1 <= nu && Granted(arena, p.brk) && base * UNIT < p.brk
      modifies this
      ensures Ready() && live == old(live)
      ensures (r.NoCore? <==> got.Failed?) && (r.Core? <==> got.Moved? && There(got.now, p.brk / UNIT))
      ensures now == if r.Core? then got.now else p
      ensures !r.Core? ==> mem == old(mem) && freep == old(freep) && fs == old(fs) && arena == old(arena) && at == old(at)
      ensures r.Core? ==> r.freep == freep != 0 && arena == old(arena) + Region(p.brk / UNIT, CoreUnits(nu))
      ensures r.Core? ==> |old(fs)| > 0 && fs == Insert(old(fs), |old(fs)| - 1, Blk(p.brk / UNIT, CoreUnits(nu)))
      ensures r.Core? ==> forall u :: FreeAt(fs, u) <==> FreeAt(old(fs), u) || Blk(p.brk / UNIT, CoreUnits(nu)).Has(u)
      ensures r.Core? ==> exists i :: 0 <= i < |fs| && fs[i].size >= nu
    {
      var n := if nu < CORE then CORE else nu;
      if got.Failed? {
        return NoCore, p;
      }
      if got.Emptied? || !There(got.now, p.brk / UNIT) {
        return Fault, p;
      }
      AddCore(p.brk / UNIT, n);
      return Core(freep), got.now;
    }

    /** The header of the new block, and free. */
    method AddCore(more: int, n: nat)
      requires Ready() && n >= 1 && more > base && forall u :: u in arena ==> u < more
      modifies this
      ensures Ready() && live == old(live) && arena == old(arena) + Region(more, n) && freep != 0
      ensures |old(fs)| > 0 && fs == Insert(old(fs), |old(fs)| - 1, Blk(more, n)) && exists i :: 0 <= i < |fs| && fs[i].size >= n
      ensures forall u :: FreeAt(fs, u) <==> FreeAt(old(fs), u) || Blk(more, n).Has(u)
    {
      GrowEffect(more, n);
      mem := mem[more := Header(if more in mem then mem[more].ptr else 0, n)];
      live, arena := live[more := n], arena + Region(more, n);
      ghost var j := Free(more + 1);
      ghost var b := Blk(more, n);
      assert live == old(live);
      assert j == |old(fs)| - 1;
      InsertHolds(old(fs), j, b);
      forall u ensures FreeAt(fs, u) <==> FreeAt(old(fs), u) || b.Has(u) { InsertUnits(old(fs), j, b, u); }
      Positive(at);
    }

    lemma TakeEffect(k: nat, n: nat)
      requires Ready() && 1 <= k < |fs| && 1 <= n <= fs[k].size
      ensures fs[k - 1].addr in mem && fs[k].addr in mem && mem[fs[k].addr].size == fs[k].size
      ensures Cut(fs, k, n).addr !in live && Cut(fs, k, n).addr > 0
      ensures Sound(base, Unlink(mem, fs[k - 1].addr, fs[k].addr, n), Taken(fs, k, n), live[Cut(fs, k, n).addr := n], arena)
    {
      assert HeapOpen(0);
      TakeSound(base, mem, fs, live, arena, k, n);
    }

    /** The end of malloc: cut `n` units off the block found; false if the new header cannot be written. */
    method Take(n: nat, prevp: int, q: int, now: Space, ghost k: nat) returns (r: int, ok: bool)
      requires Ready() && 1 <= k < |fs| && 1 <= n <= fs[k].size && q == fs[k].addr && prevp == fs[k - 1].addr
      modifies this
      ensures ok <==> old(fs)[k].size == n || There(now, Cut(old(fs), k, n).addr)
      ensures ok ==> Ready() && arena == old(arena) && fs == Taken(old(fs), k, n) && at == k - 1
      ensures ok ==> r == Cut(old(fs), k, n).addr + 1 && r > 1 && r - 1 !in old(live) && live == old(live)[r - 1 := n]
      ensures !ok ==> live == old(live)
    {
      TakeEffect(k, n);
      TakenKeeps(fs, k, n);
      ghost var b := Cut(fs, k, n);
      var p := q;
      if mem[p].size == n {
        mem := mem[prevp := Header(mem[p].ptr, mem[prevp].size)];
      } else {
        mem := mem[p := Header(mem[p].ptr, mem[p].size - n)];
        p := p + mem[p].size;
        if !There(now, p) {
          return p + 1, false;
        }
        mem := mem[p := Header(if p in mem then mem[p].ptr else 0, n)];
      }
      assert mem == Unlink(old(mem), prevp, q, n);
      freep := prevp;
      fs, live, at := Taken(fs, k, n), live[b.addr := n], k - 1;
      return p + 1, true;
    }

    /** Every header on the heap lies below the break. */
    lemma HeapBelow(brk: nat)
      requires Ready() && Granted(arena, brk)
      ensures Below(fs, live, brk)
    {
      assert HeapOpen(0);
      forall i | 1 <= i < |fs| ensures 0 < fs[i].addr && (fs[i].addr + 1) * UNIT <= brk {
        assert fs[i].Has(fs[i].addr) && FreeAt(fs, fs[i].addr) && fs[i].addr in arena;
      }
      forall a | a in live ensures 0 < a && (a + 1) * UNIT <= brk {
        assert Blk(a, live[a]).Has(a) && LiveAt(live, a) && a in arena;
      }
    }

    /** The first part of malloc: set up the list if there is none. */
    method Start()
      requires Valid()
      modifies this
      ensures Ready() && live == old(live) && arena == old(arena)
      ensures fs == Listed(base, old(fs)) && at == if old(freep) == 0 then 0 else old(at)
    {
      if freep == 0 {
        StartSound(base, mem);
        mem := mem[base := Header(base, 0)];
        freep := base;
        fs, at := [Blk(base, 0)], 0;
      }
    }

    /** No block on the list is large enough for half the address space. */
    lemma NoneFits(n: nat, brk: nat)
      requires Ready() && Granted(arena, brk) && brk < KERNBASE <= n * UNIT
      ensures forall i :: 0 <= i < |fs| ==> fs[i].size < n
    {
      assert HeapOpen(0);
      forall i | 0 <= i < |fs| ensures fs[i].size < n { TooSmall(base, fs, live, arena, brk, i); }
    }

    /** A block cut off the list lies in memory if all the heap does. */
    lemma CutInside(k: nat, n: nat, brk: nat)
      requires Ready() && Granted(arena, brk) && 1 <= k < |fs| && 1 <= n <= fs[k].size
      ensures Cut(fs, k, n).End() * UNIT <= brk
    {
      assert HeapOpen(0);
      var u := Cut(fs, k, n).End() - 1;
      assert fs[k].Has(u) && FreeAt(fs, u) && u in arena;
    }

    /** A block past the address space ends past any break. */
    lemma CutOutside(k: nat, n: nat, brk: nat)
      requires Ready() && brk < KERNBASE <= n * UNIT && 1 <= k < |fs| && 1 <= n <= fs[k].size
      ensures Cut(fs, k, n).End() * UNIT > brk
    {
      assert HeapOpen(0);
    }

    /** Whether the block about to be cut off lies in memory and has room. */
    lemma Judge(nbytes: nat, n: nat, was: set<int>, p: Space, got: Brk, now: Space, grew: bool, k: nat)
      requires Ready() && Asked(nbytes, n, p, got) && Granted(was, p.brk) && p.brk < KERNBASE && n >= 1
      requires 1 <= k < |fs| && n <= fs[k].size && arena == if grew then was + Region(p.brk / UNIT, CoreUnits(n)) else was
      requires if grew then got == Moved(now) else now == p
      ensures var b := Cut(fs, k, n); b.End() * UNIT <= now.brk && (b.size - 1) * UNIT >= nbytes <==> nbytes <= MOST
      ensures nbytes <= MOST ==> Granted(arena, now.brk) && now.brk < KERNBASE
    {
      if nbytes <= MOST {
        if grew { GrantMore(was, p.brk, CoreUnits(n)); }
        CutInside(k, n, now.brk);
      } else if (n - 1) * UNIT >= nbytes {
        CutOutside(k, n, now.brk);
      }
    }

    /**
     malloc(nbytes) in a process with memory `p`: null, a block, or a fault. Where the block goes is
     known beforehand; so is whether its header can be written. A block is memory that is there, with
     room for the request, if and only if nbytes is at most MOST and no page it touches is missing.
     */
    method Malloc(nbytes: nat, p: Space, pages: Pages) returns (r: Got, now: Space, grew: bool)
      requires Valid() && nbytes < WORD && Granted(arena, p.brk) && base * UNIT < p.brk < KERNBASE && Headed(fs, live, p.gaps)
      modifies this
      ensures (!r.Dead? ==> Ready()) && (r.Block? || live == old(live))
      ensures (grew <==> forall i :: 0 <= i < |old(fs)| ==> old(fs)[i].size < Units(nbytes)) && (Units(nbytes) * UNIT >= KERNBASE ==> grew)
      ensures var got, spot := Sbrk(p, SbrkArg(CoreUnits(Units(nbytes))), pages), Spot(old(fs), old(at), Units(nbytes), p.brk);
        && (r.Null? <==> grew && got.Failed?)
        && (r.Block? <==> if grew then got.Moved? && There(got.now, p.brk / UNIT) && There(got.now, spot) else There(p, spot))
        && (r.Block? ==> r.p - 1 == spot) && now == if grew && r.Block? then got.now else p
      ensures r.Null? ==> fs == Listed(base, old(fs)) && at == if old(freep) == 0 then 0 else old(at)
      ensures r.Null? ==> arena == old(arena) && forall u :: FreeAt(fs, u) <==> FreeAt(old(fs), u)
      ensures r.Block? ==> Drawn(Stock(Listed(base, old(fs)), Units(nbytes), p.brk, grew), fs, at, Units(nbytes), r.p - 1)
      ensures r.Block? ==> r.p - 1 !in old(live) && live == old(live)[r.p - 1 := Units(nbytes)]
      ensures r.Block? ==> arena == if grew then old(arena) + Region(p.brk / UNIT, CoreUnits(Units(nbytes))) else old(arena)
      ensures r.Block? ==>
        forall u :: Blk(r.p - 1, Units(nbytes)).Has(u) ==>
          FreeAt(old(fs), u) || (grew && Blk(p.brk / UNIT, CoreUnits(Units(nbytes))).Has(u))
      ensures r.Block? ==> var b := Blk(r.p - 1, Units(nbytes)); Serves(b, nbytes, now) <==> nbytes <= MOST && Clear(b, now.gaps)
      ensures nbytes <= MOST && !r.Dead? ==> Granted(arena, now.brk) && now.brk < KERNBASE && Headed(fs, live, now.gaps)
    {
      var nunits := (nbytes + UNIT - 1) % WORD / UNIT + 1;
      var got := Sbrk(p, SbrkArg(CoreUnits(nunits)), pages);
      if got.Moved? { SbrkKeeps(p, SbrkArg(CoreUnits(nunits)), pages); }
      SbrkAsked(nbytes, p, pages);
      Start();
      assert Spot(fs, at, nunits, p.brk) == Spot(old(fs), old(at), nunits, p.brk);
      r, now, grew := Obtain(nbytes, nunits, p, got);
      ListedUnits(base, old(fs));
      if r.Block? { DrawnUnits(base, old(fs), fs, at, nunits, p.brk, grew, r.p - 1); }
    }

    /** The loop of malloc for `n` units, if morecore's call of sbrk would do `got`. */
    method Obtain(nbytes: nat, n: nat, p: Space, got: Brk) returns (r: Got, now: Space, grew: bool)
      requires Ready() && n >= 1 && Granted(arena, p.brk) && base * UNIT < p.brk < KERNBASE && Headed(fs, live, p.gaps)
      requires Asked(nbytes, n, p, got) && (got.Moved? ==> Keeps(p, got.now))
      modifies this
      ensures (!r.Dead? ==> Ready()) && (r.Block? || live == old(live))
      ensures (grew <==> forall i :: 0 <= i < |old(fs)| ==> old(fs)[i].size < n) && (n * UNIT >= KERNBASE ==> grew)
      ensures var spot := Spot(old(fs), old(at), n, p.brk);
        && (r.Null? <==> grew && got.Failed?)
        && (r.Block? <==> if grew then got.Moved? && There(got.now, p.brk / UNIT) && There(got.now, spot) else There(p, spot))
        && (r.Block? ==> r.p - 1 == spot) && now == if grew && r.Block? then got.now else p
      ensures r.Null? ==> arena == old(arena) && fs == old(fs) && at == old(at)
      ensures r.Block? ==> old(fs) != [] && Drawn(Stock(old(fs), n, p.brk, grew), fs, at, n, r.p - 1)
      ensures r.Block? ==> r.p - 1 !in old(live) && live == old(live)[r.p - 1 := n]
      ensures r.Block? ==> arena == if grew then old(arena) + Region(p.brk / UNIT, CoreUnits(n)) else old(arena)
      ensures r.Block? ==> var b := Blk(r.p - 1, n); Serves(b, nbytes, now) <==> nbytes <= MOST && Clear(b, now.gaps)
      ensures nbytes <= MOST && !r.Dead? ==> Granted(arena, now.brk) && now.brk < KERNBASE && Headed(fs, live, now.gaps)
    {
      if n * UNIT >= KERNBASE { NoneFits(n, p.brk); }
      var q, prevp, c;
      ghost var k;
      q, now, grew, prevp, c, k := Search(n, p, got);
      if q.NoCore? {
        return Null, now, grew;
      }
      if q.Fault? {
        return Dead, p, grew;
      }
      Judge(nbytes, n, old(arena), p, got, now, grew, k);
      r := HandOut(nbytes, n, prevp, c, now, k);
      if r.Dead? {
        now := p;
      }
    }

    /** The rest of malloc, once the block is found. */
    method HandOut(nbytes: nat, n: nat, prevp: int, c: int, now: Space, ghost k: nat) returns (r: Got)
      requires Ready() && 1 <= k < |fs| && 1 <= n <= fs[k].size && c == fs[k].addr && prevp == fs[k - 1].addr
      requires fs[k].size == n ==> There(now, fs[k].addr)
      requires var b := Cut(fs, k, n); b.End() * UNIT <= now.brk && (b.size - 1) * UNIT >= nbytes <==> nbytes <= MOST
      requires nbytes <= MOST ==> Headed(fs, live, now.gaps)
      modifies this
      ensures !r.Null? && (r.Dead? <==> !There(now, Cut(old(fs), k, n).addr)) && (r.Dead? ==> live == old(live))
      ensures r.Block? ==> Ready() && arena == old(arena) && Drawn(old(fs), fs, at, n, r.p - 1)
      ensures r.Block? ==> r.p - 1 == Cut(old(fs), k, n).addr && r.p - 1 !in old(live) && live == old(live)[r.p - 1 := n]
      ensures r.Block? ==> var b := Blk(r.p - 1, n); Serves(b, nbytes, now) <==> nbytes <= MOST && Clear(b, now.gaps)
      ensures r.Block? && nbytes <= MOST ==> Headed(fs, live, now.gaps)
    {
      ghost var was, had := fs, live;
      var a, ok := Take(n, prevp, c, now, k);
      if !ok {
        return Dead;
      }
      if nbytes <= MOST { TakenHeaded(was, had, k, n, now.gaps); }
      return Block(a);
    }

    /** The loop of malloc: the block that fits, found at once or after one call of morecore. */
    method Search(n: nat, p: Space, got: Brk) returns (q: Core, now: Space, grew: bool, prevp: int, c: int, ghost k: nat)
      requires Ready() && n >= 1 && Granted(arena, p.brk) && base * UNIT < p.brk && Headed(fs, live, p.gaps)
      requires got.Moved? ==> Keeps(p, got.now)
      modifies this
      ensures Ready() && live == old(live) && old(fs) != []
      ensures (grew <==> forall i :: 0 <= i < |old(fs)| ==> old(fs)[i].size < n) && (grew <==> Found(old(fs), old(at), n) == -1)
      ensures (q.NoCore? <==> grew && got.Failed?) && (q.Core? <==> !grew || (got.Moved? && There(got.now, p.brk / UNIT)))
      ensures now == if grew && q.Core? then got.now else p
      ensures fs == Stock(old(fs), n, p.brk, grew && q.Core?) && (!q.Core? || !grew ==> at == old(at))
      ensures arena == if grew && q.Core? then old(arena) + Region(p.brk / UNIT, CoreUnits(n)) else old(arena)
      ensures q.Core? ==> 1 <= k < |fs| && fs[k].size >= n && c == fs[k].addr && prevp == fs[k - 1].addr
      ensures q.Core? ==> Cut(fs, k, n).addr == Spot(old(fs), old(at), n, p.brk) && Headed(fs, live, now.gaps)
      ensures q.Core? && fs[k].size == n ==> There(now, fs[k].addr)
    {
      HeapBelow(p.brk);
      var found;
      found, prevp, c, k := FindFit(n);
      if found {
        HeadThere(fs, live, p, k);
        return Core(freep), p, false, prevp, c, k;
      }
      grew := true;
      q, now, prevp, c, k := SearchMore(n, p, got);
      if q.Core? { GrownHeaded(old(fs), live, n, p, now); }
    }

    /** The loop of malloc from where no block was big enough: morecore, and once more around. */
    method SearchMore(n: nat, p: Space, got: Brk) returns (q: Core, now: Space, prevp: int, c: int, ghost k: nat)
      requires Ready() && n >= 1 && Granted(arena, p.brk) && base * UNIT < p.brk
      requires Found(fs, at, n) == -1 && forall i :: 0 <= i < |fs| ==> fs[i].size < n
      modifies this
      ensures Ready() && live == old(live) && old(fs) != []
      ensures (q.NoCore? <==> got.Failed?) && (q.Core? <==> got.Moved? && There(got.now, p.brk / UNIT))
      ensures now == if q.Core? then got.now else p
      ensures fs == Stock(old(fs), n, p.brk, q.Core?) && (!q.Core? ==> at == old(at))
      ensures arena == if q.Core? then old(arena) + Region(p.brk / UNIT, CoreUnits(n)) else old(arena)
      ensures q.Core? ==> 1 <= k < |fs| && fs[k].size >= n && c == fs[k].addr && prevp == fs[k - 1].addr
      ensures q.Core? ==> Cut(fs, k, n).addr == Spot(old(fs), old(at), n, p.brk) && (fs[k].size == n ==> There(now, fs[k].addr))
    {
      k, prevp, c := 0, 0, 0;
      q, now := Morecore(n, p, got);
      if q.Core? {
        var found;
        found, prevp, c, k := FindFit(n);
        GrownSpot(old(fs), old(at), n, p.brk, k);
      }
    }
  }

  /** What morecore returns: 0, freep, or nothing, because the process is no more. */
  datatype Core = NoCore | Core(freep: int) | Fault

  /** What malloc returns. */
  datatype Got = Null | Block(p: int) | Dead

  ghost predicate Below(fs: seq<Blk>, live: map<int, nat>, brk: nat) {
    && (forall i :: 1 <= i < |fs| ==> 0 < fs[i].addr && (fs[i].addr + 1) * UNIT <= brk)
    && (forall a :: a in live ==> 0 < a && (a + 1) * UNIT <= brk)
  }

  lemma PageBelow(u: int, brk: nat)
    requires 0 <= u && (u + 1) * UNIT <= brk
    ensures 0 <= PageOf(u) < PagesFor(brk) && u < PagesFor(brk) * PGSIZE / UNIT
  {
  }

  lemma HeadThere(fs: seq<Blk>, live: map<int, nat>, p: Space, k: nat)
    requires Below(fs, live, p.brk) && Headed(fs, live, p.gaps) && 1 <= k < |fs|
    ensures There(p, fs[k].addr)
  {
    PageBelow(fs[k].addr, p.brk);
  }

  /** The addresses on the list after a block is put back at its end. */
  lemma InsertHeads(fs: seq<Blk>, b: Blk, i: nat)
    requires |fs| > 0 && i < |Insert(fs, |fs| - 1, b)|
    ensures var g := Insert(fs, |fs| - 1, b)[i];
      if i < |fs| then g == fs[i] || (g == Blk(fs[i].addr, fs[i].size + b.size) && fs[i].End() == b.addr) else g == b
  {
    var q := Upped(fs, |fs| - 1, b);
    if i < |q| { UppedAt(fs, |fs| - 1, b, i); }
    if Touch(q, |fs| - 1) { JoinAt(q, |fs| - 1, i); }
  }

  /** New memory adds no header in a missing page, and no page with a header goes missing. */
  lemma GrownHeaded(fs: seq<Blk>, live: map<int, nat>, n: nat, p: Space, now: Space)
    requires Below(fs, live, p.brk) && Headed(fs, live, p.gaps) && |fs| > 0 && Keeps(p, now) && There(now, p.brk / UNIT)
    ensures Headed(Insert(fs, |fs| - 1, Blk(p.brk / UNIT, CoreUnits(n))), live, now.gaps)
  {
    var b := Blk(p.brk / UNIT, CoreUnits(n));
    var gs := Insert(fs, |fs| - 1, b);
    forall i | 1 <= i < |gs| ensures PageOf(gs[i].addr) !in now.gaps { InsertHeads(fs, b, i); }
  }

  /**
   What `n` units are to a request of `nbytes`, and what sbrk did about them: room enough, and granted;
   or too few; or half the address space, and nothing was granted.
   */
  ghost predicate Asked(nbytes: nat, n: nat, p: Space, got: Brk) {
    if nbytes <= MOST then (n - 1) * UNIT >= nbytes && (got.Moved? ==> got.now.brk == p.brk + CoreUnits(n) * UNIT < KERNBASE)
    else (n - 1) * UNIT < nbytes || (n * UNIT >= KERNBASE && (got.Moved? ==> got.now.brk <= p.brk))
  }

  lemma SbrkAsked(nbytes: nat, p: Space, pages: Pages)
    requires nbytes < WORD && p.brk < KERNBASE
    ensures Asked(nbytes, Units(nbytes), p, Sbrk(p, SbrkArg(CoreUnits(Units(nbytes))), pages))
  {
    RequestExact(nbytes);
  }

  /** No page below the old break has gone missing. */
  ghost predicate Keeps(p: Space, now: Space) {
    forall u :: 0 <= u && (u + 1) * UNIT <= p.brk && PageOf(u) !in p.gaps ==> PageOf(u) !in now.gaps
  }

  lemma SbrkKeeps(p: Space, n: int, pages: Pages)
    requires Sbrk(p, n, pages).Moved?
    ensures Keeps(p, Sbrk(p, n, pages).now)
  {
    forall u | 0 <= u && (u + 1) * UNIT <= p.brk && PageOf(u) !in p.gaps ensures PageOf(u) !in Sbrk(p, n, pages).now.gaps {
      PageBelow(u, p.brk);
      assert n > 0 ==> PagesFor(p.brk) <= PagesFor(p.brk + n);
    }
  }

  /** The block found after morecore is the one with the new memory at its end. */
  lemma GrownFit(fs: seq<Blk>, b: Blk, n: nat, k: nat)
    requires |fs| > 0 && k < |Insert(fs, |fs| - 1, b)| && Insert(fs, |fs| - 1, b)[k].size >= n
    requires forall i :: 0 <= i < |fs| ==> fs[i].size < n
    ensures Insert(fs, |fs| - 1, b)[k].End() == b.End() && Insert(fs, |fs| - 1, b)[k].size >= b.size
    ensures Insert(fs, |fs| - 1, b)[k].size == b.size ==> Insert(fs, |fs| - 1, b)[k] == b
  {
    InsertHeads(fs, b, k);
  }

  lemma GrownSpot(fs: seq<Blk>, at: nat, n: nat, brk: nat, k: nat)
    requires |fs| > 0 && Found(fs, at, n) == -1 && forall i :: 0 <= i < |fs| ==> fs[i].size < n
    requires var gs := Stock(fs, n, brk, true); k < |gs| && gs[k].size >= n
    ensures var gs := Stock(fs, n, brk, true); Cut(gs, k, n).addr == Spot(fs, at, n, brk) && (gs[k].size == n ==> gs[k].addr == brk / UNIT)
  {
    GrownFit(fs, Blk(brk / UNIT, CoreUnits(n)), n, k);
  }

  lemma TakenHeaded(fs: seq<Blk>, live: map<int, nat>, k: nat, n: nat, gaps: set<nat>)
    requires Headed(fs, live, gaps) && 1 <= k < |fs| && n <= fs[k].size && PageOf(Cut(fs, k, n).addr) !in gaps
    ensures Headed(Taken(fs, k, n), live[Cut(fs, k, n).addr := n], gaps)
  {
    if fs[k].size == n {
      forall i | 0 <= i < |fs| - 1
        ensures Removed(fs, k)[i] == if i < k then fs[i] else fs[i + 1]
      {
        RemovedAt(fs, k, i);
      }
    }
  }

  lemma LastUnit(brk: nat, c: nat)
    requires brk % UNIT == 0 && c >= CORE
    ensures PagesFor(brk + c * UNIT) > PagesFor(brk) && PageOf(brk / UNIT + c - 1) == PagesFor(brk + c * UNIT) - 1
  {
    var u, end := brk / UNIT + c - 1, brk + c * UNIT;
    assert u * UNIT == end - UNIT && end % UNIT == 0;
  }

  /** A missing last page is where the new block ends, so no request that makes the heap grow is then served. */
  lemma LastPageLost(nbytes: nat, p: Space)
    requires nbytes <= MOST && p.brk % UNIT == 0 && Sbrk(p, SbrkArg(CoreUnits(Units(nbytes))), LastMissing).Moved?
    ensures var c, n, now := CoreUnits(Units(nbytes)), Units(nbytes), Sbrk(p, SbrkArg(CoreUnits(Units(nbytes))), LastMissing).now;
      && now == Space(p.brk + c * UNIT, p.gaps + {PagesFor(p.brk + c * UNIT) - 1})
      && !Clear(Blk(p.brk / UNIT + c - n, n), now.gaps)
  {
    RequestExact(nbytes);
    var c, n := CoreUnits(Units(nbytes)), Units(nbytes);
    var u := p.brk / UNIT + c - 1;
    LastUnit(p.brk, c);
    assert Blk(p.brk / UNIT + c - n, n).Has(u);
  }

  /** With all pages there so far, a block in new memory is whole exactly if allocuvm found every page. */
  lemma ClearExact(nbytes: nat, brk: nat, pages: Pages)
    requires nbytes <= MOST && brk % UNIT == 0 && Sbrk(Space(brk, {}), SbrkArg(CoreUnits(Units(nbytes))), pages).Moved?
    ensures var n, now := Units(nbytes), Sbrk(Space(brk, {}), SbrkArg(CoreUnits(Units(nbytes))), pages).now;
      Clear(Blk(brk / UNIT + CoreUnits(n) - n, n), now.gaps) <==> !pages.LastMissing?
  {
    RequestExact(nbytes);
    if pages.LastMissing? { LastPageLost(nbytes, Space(brk, {})); }
  }

  /** And if no page was missing before, it faults exactly if the whole block lies in that page. */
  lemma LastPageFault(nbytes: nat, brk: nat)
    requires nbytes <= MOST && brk % UNIT == 0 && Sbrk(Space(brk, {}), SbrkArg(CoreUnits(Units(nbytes))), LastMissing).Moved?
    ensures var c, n := CoreUnits(Units(nbytes)), Units(nbytes);
      var now := Sbrk(Space(brk, {}), SbrkArg(c), LastMissing).now;
      There(now, brk / UNIT) && (!There(now, brk / UNIT + c - n) <==> n * UNIT <= (now.brk - 1) % PGSIZE + 1)
  {
    LastPageLost(nbytes, Space(brk, {}));
    var c, n := CoreUnits(Units(nbytes)), Units(nbytes);
    var u, end := brk / UNIT + c - n, brk + c * UNIT;
    assert u * UNIT == end - n * UNIT && brk / UNIT * UNIT == brk;
    PageBelow(u, end);
    PageBelow(brk / UNIT, end);
    assert PageOf(brk / UNIT) < PagesFor(end) - 1;
    LastPage(end, u * UNIT);
  }

  lemma LastPage(end: nat, a: nat)
    requires a < end
    ensures a / PGSIZE == PagesFor(end) - 1 <==> end - a <= (end - 1) % PGSIZE + 1
  {
    assert PagesFor(end) - 1 == (end - 1) / PGSIZE;
  }

  /**
   Such a request: one byte on an empty heap that starts seven pages below a table's end. With eight free
   pages the ninth, for the table, is missing, sbrk succeeds, and the header goes into the missing page.
   */
  lemma FirstByteFaults()
    ensures var p := Space(1017 * PGSIZE, {}); var got := Sbrk(p, SbrkArg(CoreUnits(Units(1))), LastMissing);
      got == Moved(Space(1025 * PGSIZE, {1024})) && There(got.now, p.brk / UNIT) && !There(got.now, Spot([], 0, Units(1), p.brk))
  {
    assert Units(1) == 2;
    assert SbrkArg(CORE) == 8 * PGSIZE;
  }

  lemma GrantMore(arena: set<int>, brk: nat, n: nat)
    requires Granted(arena, brk)
    ensures Granted(arena + Region(brk / UNIT, n), brk + n * UNIT)
  {
    assert brk == brk / UNIT * UNIT;
    assert (brk + n * UNIT) % UNIT == 0;
  }

  lemma SameAddr(base: int, fs: seq<Blk>, i: nat, j: nat)
    requires Ordered(base, fs) && i < |fs| && j < |fs| && fs[i].addr == fs[j].addr
    ensures i == j
  {
    if i < j { AddrOrder(base, fs, i, j); }
    if j < i { AddrOrder(base, fs, j, i); }
  }

  lemma InsertKeeps(fs: seq<Blk>, j: nat, b: Blk)
    requires j < |fs|
    ensures j < |Insert(fs, j, b)| && Insert(fs, j, b)[j].addr == fs[j].addr
  {
    UppedAt(fs, j, b, j);
    if Touch(Upped(fs, j, b), j) { JoinAt(Upped(fs, j, b), j, j); }
  }

  /** Some block of the new list is at least as large as the one put back. */
  lemma InsertHolds(fs: seq<Blk>, j: nat, b: Blk)
    requires j < |fs|
    ensures exists i :: 0 <= i < |Insert(fs, j, b)| && Insert(fs, j, b)[i].size >= b.size
  {
    var q := Upped(fs, j, b);
    UppedAt(fs, j, b, j + 1);
    if Touch(q, j) { JoinAt(q, j, j); assert Insert(fs, j, b)[j].size >= b.size; }
    else { assert Insert(fs, j, b)[j + 1].size >= b.size; }
  }

  lemma TakenKeeps(fs: seq<Blk>, k: nat, n: nat)
    requires 1 <= k < |fs| && n <= fs[k].size
    ensures k - 1 < |Taken(fs, k, n)| && Taken(fs, k, n)[k - 1].addr == fs[k - 1].addr
  {
    if fs[k].size == n { RemovedAt(fs, k, k - 1); }
  }

  /** The list malloc sets up on its first call: base alone, pointing to itself. */
  lemma StartSound(base: int, mem: map<int, Header>)
    requires base > 0
    ensures Sound(base, mem[base := Header(base, 0)], [Blk(base, 0)], map[], {})
    ensures forall u :: !FreeAt([Blk(base, 0)], u)
  {
    assert LinkedAt(mem[base := Header(base, 0)], [Blk(base, 0)], 0);
  }

  /** Away from its place the search goes on; the wrap from the last block to base is no obstacle. */
  lemma StepOn(base: int, fs: seq<Blk>, a: int, t: nat, j: nat)
    requires Ordered(base, fs) && a > base && t < |fs| && fs[t].addr < a && (t + 1 < |fs| ==> a < fs[t + 1].addr)
    requires j < |fs|
    requires !(a > fs[j].addr && a < Next(fs, j)) && !(fs[j].addr >= Next(fs, j) && (a > fs[j].addr || a < Next(fs, j)))
    ensures j != t
  {
    if j + 1 < |fs| { AddrOrder(base, fs, j, j + 1); }
  }

  lemma StopsAt(base: int, fs: seq<Blk>, a: int, t: nat, j: nat)
    requires Ordered(base, fs) && a > base && t < |fs| && fs[t].addr < a && (t + 1 < |fs| ==> a < fs[t + 1].addr)
    requires j < |fs|
    requires (a > fs[j].addr && a < Next(fs, j)) || (fs[j].addr >= Next(fs, j) && (a > fs[j].addr || a < Next(fs, j)))
    ensures fs[j].addr < a && (j + 1 < |fs| ==> a < fs[j + 1].addr)
  {
    if j + 1 < |fs| { AddrOrder(base, fs, j, j + 1); }
    if j > 0 { AddrOrder(base, fs, 0, j); }
  }
}
