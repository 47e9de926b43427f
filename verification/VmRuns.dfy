/**
 Runs of the calls that change address spaces. As long as no page is lost, every space has exactly the
 pages below its size, so deallocuvm skips nothing and neither allocuvm nor copyuvm can panic. With
 lost pages both can happen, from boot.
 */
module VmRuns {
  import opened VmSpec
  import opened VmCode

  // ---------------------------------------------------------------- without loss

  /** The sizes of the spaces after the call, as exec, fork, growproc and wait keep them. */
  function NewSizes(s: map<nat, nat>, call: Call): (r: map<nat, nat>) {
    match call
    case Setup(d) => s[d := 0]
    case Alloc(d, _, _, sz) => if sz == 0 then s else s[d := sz]
    case Dealloc(d, oldsz, newsz) => if newsz < oldsz then s[d := newsz] else s
    case CopyOf(_, d, sz) => s[d := sz]
    case FreeSpace(d) => s - {d}
  }

  /** The call is made with the size the space has. */
  predicate Takes(s: map<nat, nat>, call: Call) {
    match call
    case Setup(_) => true
    case Alloc(d, oldsz, _, _) => d in s && s[d] == oldsz
    case Dealloc(d, oldsz, _) => d in s && s[d] == oldsz
    case CopyOf(p, _, sz) => p in s && s[p] == sz
    case FreeSpace(d) => d in s
  }

  function Sizes(start: map<nat, nat>, calls: seq<Call>, k: nat): (s: map<nat, nat>)
    requires k <= |calls|
  {
    if k == 0 then start else NewSizes(Sizes(start, calls, k - 1), calls[k - 1])
  }

  ghost predicate SizedStep(ms: seq<Mem>, os: seq<map<nat, Use>>, calls: seq<Call>, res: nat, start: map<nat, nat>, k: nat)
    requires |ms| == |os| == |calls| + 1 && k < |calls|
  {
    Did(ms[k], os[k], ms[k + 1], os[k + 1], res, calls[k]) && Takes(Sizes(start, calls, k), calls[k])
  }

  /** A run of calls on spaces of known size that loses no page. */
  ghost predicate SizedRun(ms: seq<Mem>, os: seq<map<nat, Use>>, calls: seq<Call>, res: nat, start: map<nat, nat>) {
    |ms| == |os| == |calls| + 1 && forall k: nat :: k < |calls| ==> SizedStep(ms, os, calls, res, start, k)
  }

  /** Every space has exactly the pages below its size. */
  ghost predicate Full(m: Mem, owner: map<nat, Use>, s: map<nat, nat>) {
    forall d :: d in s ==> IsDir(owner, d) && s[d] <= KERNBASE && Exactly(m, d, PagesFor(s[d]))
  }

  lemma PagesGrow(a: nat, b: nat)
    requires a <= b
    ensures PagesFor(a) <= PagesFor(b) && (b <= KERNBASE ==> PagesFor(b) <= USER)
  {
  }

  lemma GrowExactly(m: Mem, r: Mem, d: nat, oldsz: nat, newsz: nat, sz: nat)
    requires Exactly(m, d, PagesFor(oldsz)) && Resized(m, r, d, oldsz, newsz, sz) && oldsz <= KERNBASE
    ensures Exactly(r, d, PagesFor(if sz == 0 then oldsz else sz)) && sz <= KERNBASE
  {
    if oldsz <= newsz { PagesGrow(oldsz, newsz); }
  }

  /** The 4MB jump of deallocuvm skips no page of a space that has all pages below its size. */
  lemma ShrinkExactly(m: Mem, r: Mem, d: nat, lo: nat, hi: nat)
    requires Exactly(m, d, hi) && Cleared(m, r, d, lo, hi) && hi <= USER
    ensures Exactly(r, d, if lo < hi then lo else hi)
  {
    assert lo < hi ==> Pte(m, d, lo).To?;
    assert forall w: nat :: lo < hi ==> !Skipped(m, d, lo, w);
  }

  lemma CopyExactly(m: Mem, owner: map<nat, Use>, res: nat, s: nat, r: Mem, e: nat, n: nat)
    requires Owned(m, owner, res) && IsDir(owner, s) && Exactly(m, s, n) && Copied(m, s, r, e, n)
    ensures Exactly(r, e, n)
  {
    Parts(m, owner, res, s);
    forall w: nat | w < USER
      ensures Pte(r, e, w).To? <==> w < n
    {
      assert w < n ==> View(m, s, w).Sees? && View(r, e, w).Sees?;
    }
  }

  lemma OthersExactly(m: Mem, owner: map<nat, Use>, r: Mem, now: map<nat, Use>, d: nat, e: nat, n: nat)
    requires Outside(m, owner, r, now, d) && IsDir(owner, e) && e != d && Exactly(m, e, n)
    ensures IsDir(now, e) && Exactly(r, e, n)
  {
    assert SameSpace(m, r, e);
  }

  /** Every call keeps it. */
  lemma CallExactly(m: Mem, owner: map<nat, Use>, r: Mem, now: map<nat, Use>, res: nat, s: map<nat, nat>, call: Call)
    requires Did(m, owner, r, now, res, call) && Takes(s, call) && Full(m, owner, s)
    ensures Full(r, now, NewSizes(s, call))
  {
    var t := NewSizes(s, call);
    forall e | e in t
      ensures IsDir(now, e) && t[e] <= KERNBASE && Exactly(r, e, PagesFor(t[e]))
    {
      if e != call.d {
        assert e in s && t[e] == s[e];
        OthersExactly(m, owner, r, now, call.d, e, PagesFor(s[e]));
      } else {
        match call
        case Setup(_) => assert forall w: nat :: w < USER ==> w / NPT < USER / NPT;
        case Alloc(_, oldsz, newsz, sz) => GrowExactly(m, r, e, oldsz, newsz, sz);
        case Dealloc(_, oldsz, newsz) =>
          PagesGrow(oldsz, KERNBASE);
          if newsz < oldsz { PagesGrow(newsz, oldsz); } else { PagesGrow(oldsz, newsz); }
          ShrinkExactly(m, r, e, PagesFor(newsz), PagesFor(oldsz));
        case CopyOf(p, _, sz) => CopyExactly(m, owner, res, p, r, e, PagesFor(sz));
        case FreeSpace(_) =>
      }
    }
  }

  lemma RunStep(ms: seq<Mem>, os: seq<map<nat, Use>>, calls: seq<Call>, res: nat, start: map<nat, nat>, k: nat)
    requires SizedRun(ms, os, calls, res, start) && k < |calls| && Full(ms[k], os[k], Sizes(start, calls, k))
    ensures Full(ms[k + 1], os[k + 1], NewSizes(Sizes(start, calls, k), calls[k]))
  {
    assert SizedStep(ms, os, calls, res, start, k);
    CallExactly(ms[k], os[k], ms[k + 1], os[k + 1], res, Sizes(start, calls, k), calls[k]);
  }

  /** In every run that loses no page each space has exactly the pages below its size, so deallocuvm has skipped none. */
  lemma {:induction false} RunExactly(ms: seq<Mem>, os: seq<map<nat, Use>>, calls: seq<Call>, res: nat, start: map<nat, nat>, k: nat)
    requires SizedRun(ms, os, calls, res, start) && Full(ms[0], os[0], start) && k <= |calls|
    ensures Full(ms[k], os[k], Sizes(start, calls, k))
    decreases k
  {
    if k > 0 {
      RunExactly(ms, os, calls, res, start, k - 1);
      RunStep(ms, os, calls, res, start, k - 1);
    }
  }

  /** And at no point of it would allocuvm or copyuvm panic, whatever the new size and however many pages are free. */
  lemma RunNeverPanics(ms: seq<Mem>, os: seq<map<nat, Use>>, calls: seq<Call>, res: nat, start: map<nat, nat>, k: nat,
                       d: nat, newsz: nat, f: nat)
    requires SizedRun(ms, os, calls, res, start) && Full(ms[0], os[0], start) && k <= |calls|
    requires d in Sizes(start, calls, k) && Sizes(start, calls, k)[d] <= newsz < KERNBASE
    ensures var lo := PagesFor(Sizes(start, calls, k)[d]);
      lo <= PagesFor(newsz) && !Remaps(ms[k], d, lo, PagesFor(newsz), f) && FirstHole(ms[k], d, lo) == lo
  {
    RunExactly(ms, os, calls, res, start, k);
    PagesGrow(Sizes(start, calls, k)[d], newsz);
    PagesGrow(newsz, KERNBASE);
  }

  // ---------------------------------------------------------------- with loss

  /** Space `d` has its first table's pages and no other table, `b` has `n` pages, and no page is free. */
  ghost predicate Starved(m: Mem, owner: map<nat, Use>, d: nat, b: nat, n: nat) {
    && IsDir(owner, d) && IsDir(owner, b) && d != b && m.free == []
    && Exactly(m, d, NPT) && (forall x: nat :: 1 <= x < USER / NPT ==> !Pde(m, d, x).To?) && Exactly(m, b, n)
  }

  lemma WholePages(k: nat)
    ensures PagesFor(k * PGSIZE) == k
  {
  }

  /** A new space of `n` pages. */
  method NewSpace(mem: Memory, ks: seq<Kmap>, n: nat) returns (d: nat)
    requires mem.Valid() && KmapOk(ks) && 0 < n < USER && |mem.free| >= SetupCost(ks) + FreshCost(n)
    modifies mem, mem.pages
    ensures mem.Valid() && d !in old(mem.owner) && IsDir(mem.owner, d) && Outside(old(mem.Abs()), old(mem.owner), mem.Abs(), mem.owner, d)
    ensures Exactly(mem.Abs(), d, n) && |mem.free| == |old(mem.free)| - SetupCost(ks) - FreshCost(n)
    ensures forall x: nat :: (n - 1) / NPT < x < USER / NPT ==> !Pde(mem.Abs(), d, x).To?
  {
    ghost var m, was := mem.Abs(), mem.owner;
    var ok, sz, remap;
    ghost var lost;
    d, ok := mem.SetupKvm(ks);
    ghost var u, mid := mem.Abs(), mem.owner;
    FreshIs(u, d, n);
    WholePages(n);
    BottomBare(u, d);
    sz, remap, lost := mem.AllocUvm(d, 0, n * PGSIZE);
    assert mem.owner - lost == mem.owner;
    OutsideTwice(m, was, u, mid, mem.Abs(), mem.owner, d);
  }

  lemma BottomBare(m: Mem, d: nat)
    requires Bottom(m, d)
    ensures forall w: nat :: w < USER ==> !Pte(m, d, w).To?
  {
    assert forall w: nat :: w < USER ==> w / NPT < USER / NPT;
  }

  /** Two processes and no page left: the machine has just as much memory as they take. */
  method Boot(res: nat, ks: seq<Kmap>) returns (mem: Memory, d: nat, b: nat)
    requires res > 0 && KmapOk(ks)
    ensures fresh(mem) && fresh(mem.pages) && mem.Valid() && mem.res == res
    ensures Starved(mem.Abs(), mem.owner, d, b, 3 * NPT)
  {
    mem := new Memory(res + 2 * SetupCost(ks) + FreshCost(NPT) + FreshCost(3 * NPT), res);
    FreeCount(mem.Abs(), mem.owner, res);
    d := NewSpace(mem, ks, NPT);
    ghost var m, was := mem.Abs(), mem.owner;
    b := NewSpace(mem, ks, 3 * NPT);
    assert SameSpace(m, mem.Abs(), d);
  }

  /** One page of `b` becomes free, and `d` grows by a page: that page is lost, and the size goes up. */
  method Leak(mem: Memory, d: nat, b: nat, i: nat)
    requires mem.Valid() && i < NPT && Starved(mem.Abs(), mem.owner, d, b, 3 * NPT - i)
    modifies mem, mem.pages
    ensures mem.Valid() && Starved(mem.Abs(), mem.owner, d, b, 3 * NPT - i - 1)
  {
    var n := 3 * NPT - i - 1;
    Shrink(mem, b, n + 1, n);
    ghost var u, mid := mem.Abs(), mem.owner;
    assert IsDir(mid, d) && SameSpace(old(mem.Abs()), u, d);
    ghost var lost := Short(mem, d, NPT + i);
    assert b !in lost;
    assert IsDir(mid, b) && SameSpace(u, mem.Abs(), b);
  }

  /** deallocuvm of a space that has all its pages. */
  method Shrink(mem: Memory, b: nat, from: nat, to: nat)
    requires mem.Valid() && IsDir(mem.owner, b) && Exactly(mem.Abs(), b, from) && to <= from <= USER
    modifies mem, mem.pages
    ensures mem.Valid() && IsDir(mem.owner, b) && Exactly(mem.Abs(), b, to) && |mem.free| == |old(mem.free)| + from - to
    ensures Outside(old(mem.Abs()), old(mem.owner), mem.Abs(), mem.owner, b)
  {
    ghost var m := mem.Abs();
    WholePages(from);
    WholePages(to);
    var sz := mem.DeallocUvm(b, from * PGSIZE, to * PGSIZE);
    ShrinkExactly(m, mem.Abs(), b, to, from);
    HeldAll(m, b, to, from, from);
  }

  lemma {:induction false} HeldAll(m: Mem, d: nat, lo: nat, v: nat, n: nat)
    requires Exactly(m, d, n) && lo <= v <= n <= USER
    ensures Held(m, d, lo, v) == v - lo
    decreases v
  {
    if lo < v {
      HeldAll(m, d, lo, v - 1, n);
      assert Pte(m, d, lo).To?;
    }
  }

  /** allocuvm by one page whose table is missing, with one page free. */
  method Short(mem: Memory, d: nat, v: nat) returns (ghost lost: set<nat>)
    requires mem.Valid() && IsDir(mem.owner, d) && |mem.free| == 1 && v + 1 < USER
    requires !Pde(mem.Abs(), d, v / NPT).To?
    modifies mem, mem.pages
    ensures mem.Valid() && IsDir(mem.owner, d) && mem.free == [] && Stray(old(mem.owner), mem.owner, lost)
    ensures Outside(old(mem.Abs()), old(mem.owner), mem.Abs(), mem.owner - lost, d)
    ensures forall w: nat :: w < USER ==> (Pte(mem.Abs(), d, w).To? <==> Pte(old(mem.Abs()), d, w).To?)
    ensures forall x: nat :: x < USER / NPT ==> (Pde(mem.Abs(), d, x).To? <==> Pde(old(mem.Abs()), d, x).To?)
  {
    ghost var m := mem.Abs();
    WholePages(v);
    WholePages(v + 1);
    assert Cost(m, d, v, v + 1) == 2 && Opens(m, d, v, v);
    assert FirstMapped(m, d, v, v + 1) == v + 1;
    var sz, remap;
    sz, remap, lost := mem.AllocUvm(d, v * PGSIZE, (v + 1) * PGSIZE);
  }

  /**
   A run from boot at whose end deallocuvm has left a page mapped above the size it returned: one page at
   a time a whole table's worth of pages is lost, then there is memory again, the process grows by a
   page more, and shrinks into the hole.
   */
  method SkipRun(res: nat, ks: seq<Kmap>) returns (mem: Memory, d: nat, b: nat, sz: nat)
    requires res > 0 && KmapOk(ks)
    ensures fresh(mem) && fresh(mem.pages) && mem.Valid() && IsDir(mem.owner, d) && IsDir(mem.owner, b) && b != d
    ensures sz == (NPT + 1) * PGSIZE && Pte(mem.Abs(), d, 2 * NPT).To?
    ensures Exactly(mem.Abs(), b, 2 * NPT - 2) && forall w: nat :: NPT + 1 <= w < 2 * NPT ==> !Pte(mem.Abs(), d, w).To?
  {
    mem, d, b := Boot(res, ks);
    for i := 0 to NPT
      invariant fresh(mem) && fresh(mem.pages) && mem.Valid() && Starved(mem.Abs(), mem.owner, d, b, 3 * NPT - i)
    {
      Leak(mem, d, b, i);
    }
    sz := Overshoot(mem, d, b);
  }

  method Overshoot(mem: Memory, d: nat, b: nat) returns (sz: nat)
    requires mem.Valid() && Starved(mem.Abs(), mem.owner, d, b, 2 * NPT)
    modifies mem, mem.pages
    ensures mem.Valid() && IsDir(mem.owner, d) && IsDir(mem.owner, b) && Exactly(mem.Abs(), b, 2 * NPT - 2)
    ensures sz == (NPT + 1) * PGSIZE && Pte(mem.Abs(), d, 2 * NPT).To?
    ensures forall w: nat :: NPT + 1 <= w < 2 * NPT ==> !Pte(mem.Abs(), d, w).To?
  {
    Shrink(mem, b, 2 * NPT, 2 * NPT - 2);
    assert SameSpace(old(mem.Abs()), mem.Abs(), d);
    ghost var m, mid := mem.Abs(), mem.owner;
    OnePage(mem, d, 2 * NPT);
    ghost var u, now := mem.Abs(), mem.owner;
    assert IsDir(mid, b) && SameSpace(m, u, b);
    WholePages(2 * NPT + 1);
    WholePages(NPT + 1);
    assert Skipped(u, d, NPT + 1, 2 * NPT);
    sz := mem.DeallocUvm(d, (2 * NPT + 1) * PGSIZE, (NPT + 1) * PGSIZE);
    assert IsDir(now, b) && SameSpace(u, mem.Abs(), b);
  }

  /** allocuvm by one page whose table is missing, with two pages free. */
  method OnePage(mem: Memory, d: nat, v: nat)
    requires mem.Valid() && IsDir(mem.owner, d) && |mem.free| == 2 && v + 1 < USER
    requires !Pde(mem.Abs(), d, v / NPT).To?
    modifies mem, mem.pages
    ensures mem.Valid() && IsDir(mem.owner, d) && Outside(old(mem.Abs()), old(mem.owner), mem.Abs(), mem.owner, d)
    ensures forall w: nat :: w < USER ==> (Pte(mem.Abs(), d, w).To? <==> w == v || Pte(old(mem.Abs()), d, w).To?)
    ensures forall x: nat :: x < USER / NPT ==> (Pde(mem.Abs(), d, x).To? <==> x == v / NPT || Pde(old(mem.Abs()), d, x).To?)
  {
    ghost var m := mem.Abs();
    WholePages(v);
    WholePages(v + 1);
    assert Cost(m, d, v, v + 1) == 2;
    assert FirstMapped(m, d, v, v + 1) == v + 1;
    var sz, remap;
    ghost var lost;
    sz, remap, lost := mem.AllocUvm(d, v * PGSIZE, (v + 1) * PGSIZE);
    assert mem.owner - lost == mem.owner;
  }

  /** From there: the other process gives its memory back, the first one grows again, and mappages panics. */
  method RemapRun(res: nat, ks: seq<Kmap>) returns (remap: bool)
    requires res > 0 && KmapOk(ks)
    ensures remap
  {
    var mem, d, b, sz := SkipRun(res, ks);
    ghost var u := mem.Abs();
    Shrink(mem, b, 2 * NPT - 2, 0);
    var lo, hi := NPT + 1, 2 * NPT + 1;
    ghost var m := mem.Abs();
    assert SameSpace(u, m, d);
    WholePages(lo);
    WholePages(hi);
    assert FirstMapped(m, d, lo, hi) == 2 * NPT;
    CostCounts(m, d, lo, 2 * NPT);
    assert Missing(m, d, lo, 2 * NPT) <= {1};
    AtMost(Missing(m, d, lo, 2 * NPT), {1});
    ghost var lost;
    sz, remap, lost := mem.AllocUvm(d, sz, hi * PGSIZE);
  }

  lemma AtMost(a: set<nat>, b: set<nat>)
    requires a <= b
    ensures |a| <= |b|
  {
    assert b == a + (b - a);
  }
}
