/**
 growproc of proc.c over the address spaces of vm.c: it is the sbrk that the allocator counts on, with
 the one outcome more that allocuvm has.
 */
module Growproc {
  import opened VmSpec
  import opened VmCode
  import K = KrAllocator

  /** The pages below `n` that are not mapped. */
  ghost function Holes(m: Mem, d: nat, n: nat): (s: set<nat>)
    ensures forall w: nat :: w in s <==> w < n && !Pte(m, d, w).To?
  {
    set w: nat | w < n && !Pte(m, d, w).To?
  }

  /** What allocuvm comes to with `f` free pages. */
  ghost function Verdict(m: Mem, d: nat, lo: nat, hi: nat, f: nat): (v: K.Pages) {
    if Suffices(m, d, lo, hi, f) then K.AllPages else if LosesLast(m, d, lo, hi, f) then K.LastMissing else K.NoPages
  }

  /** What sbrk does to the process of space `d`. */
  ghost function Grant(m: Mem, d: nat, sz: nat, n: int): (r: K.Brk)
    requires sz + n >= 0 || n < 0
  {
    K.Sbrk(K.Space(sz, Holes(m, d, PagesFor(sz))), n, Verdict(m, d, PagesFor(sz), PagesFor(if n > 0 then sz + n else sz), |m.free|))
  }

  lemma BareUnmapped(m: Mem, d: nat, lo: nat, hi: nat)
    requires Bare(m, d, lo) && lo <= hi <= USER
    ensures FirstMapped(m, d, lo, hi) == hi
  {
  }

  /** growproc has returned `res` and left the size at `now`: just what sbrk promises, down to the pages that are missing. */
  ghost predicate Grew(m: Mem, r: Mem, d: nat, sz: nat, n: int, res: int, now: nat)
    requires sz + n >= 0 || n < 0
  {
    var got := Grant(m, d, sz, n);
    && res == (if got.Moved? then 0 else -1) && now == (if got.Moved? then got.now.brk else sz)
    && (got.Moved? ==> Holes(r, d, PagesFor(now)) == got.now.gaps)
    && (got.Failed? ==> Holes(r, d, USER) == Holes(m, d, USER))
    && (got.Emptied? ==> Bare(r, d, 0))
  }

  lemma GrownHoles(m: Mem, r: Mem, d: nat, lo: nat, hi: nat)
    requires Bare(m, d, lo) && Grown(m, r, d, lo, hi) && lo <= hi <= USER
    ensures Holes(r, d, hi) == Holes(m, d, lo) && (hi < USER ==> Holes(r, d, hi + 1) == Holes(m, d, lo) + {hi})
  {
  }

  lemma UndoneHoles(m: Mem, r: Mem, d: nat, lo: nat, hi: nat, f: nat)
    requires Bare(m, d, lo) && Undone(m, r, d, lo, hi, f)
    ensures Holes(r, d, USER) == Holes(m, d, USER)
  {
  }

  lemma GrowDone(m: Mem, r: Mem, d: nat, sz: nat, n: nat, s: nat, lost: set<nat>)
    requires 0 < n && sz + n < KERNBASE && Bare(m, d, PagesFor(sz))
    requires Ends(m, r, d, PagesFor(sz), PagesFor(sz + n), |m.free|, s, sz + n, lost)
    ensures Grew(m, r, d, sz, n, if s == 0 then -1 else 0, if s == 0 then sz else s)
  {
    var lo, hi, f := PagesFor(sz), PagesFor(sz + n), |m.free|;
    assert lo <= hi <= USER;
    assert lo == K.PagesFor(sz) && hi == K.PagesFor(sz + n);
    if Suffices(m, d, lo, hi, f) {
      GrownHoles(m, r, d, lo, hi);
    } else if LosesLast(m, d, lo, hi, f) {
      GrownHoles(m, r, d, lo, hi - 1);
    } else {
      assert lo < hi;
      UndoneHoles(m, r, d, lo, hi, f);
    }
  }

  lemma ShrinkDone(m: Mem, r: Mem, d: nat, sz: nat, n: int, newsz: nat, s: nat)
    requires -0x8000_0000 <= n < 0 && sz <= KERNBASE && Bare(m, d, PagesFor(sz)) && newsz == (sz + n) % K.WORD
    requires Cleared(m, r, d, PagesFor(newsz), PagesFor(sz)) && s == if newsz >= sz then sz else newsz
    ensures Grew(m, r, d, sz, n, if s == 0 then -1 else 0, if s == 0 then sz else s)
  {
    var lo, hi := PagesFor(newsz), PagesFor(sz);
    assert hi <= USER && (newsz >= sz ==> lo >= hi) && (newsz < sz ==> lo <= hi);
    assert lo == K.PagesFor(newsz) && hi == K.PagesFor(sz);
    assert newsz < sz ==> Holes(r, d, lo) == set g | g in Holes(m, d, hi) && g < lo;
    assert newsz >= sz ==> Holes(r, d, USER) == Holes(m, d, USER) && Holes(r, d, hi) == Holes(m, d, hi);
  }

  /** growproc(n) for a process of `sz` bytes; `now` is the size after it. */
  method Growproc(mem: Memory, d: nat, sz: nat, n: int) returns (r: int, now: nat)
    requires mem.Valid() && IsDir(mem.owner, d) && sz <= KERNBASE && -0x8000_0000 <= n < 0x8000_0000
    requires Bare(mem.Abs(), d, PagesFor(sz))
    modifies mem, mem.pages
    ensures mem.Valid() && IsDir(mem.owner, d) && Grew(old(mem.Abs()), mem.Abs(), d, sz, n, r, now)
  {
    ghost var m := mem.Abs();
    var s := sz;
    if n > 0 {
      var remap;
      ghost var lost;
      if sz + n < KERNBASE { BareUnmapped(m, d, PagesFor(sz), PagesFor(sz + n)); }
      s, remap, lost := mem.AllocUvm(d, sz, sz + n);
      if sz + n < KERNBASE { GrowDone(m, mem.Abs(), d, sz, n, s, lost); }
      if s == 0 {
        return -1, sz;
      }
    } else if n < 0 {
      var newsz := (sz + n) % K.WORD;
      s := mem.DeallocUvm(d, sz, newsz);
      ShrinkDone(m, mem.Abs(), d, sz, n, newsz, s);
      if s == 0 {
        return -1, sz;
      }
    }
    return 0, s;
  }

  /** A process of 1017 pages with one table, and eight free pages: for the first request of its heap allocuvm loses the last page. */
  lemma ShortHeap(m: Mem, d: nat)
    requires Pde(m, d, 0).To? && !Pde(m, d, 1).To?
    ensures Verdict(m, d, 1017, 1025, 8) == K.LastMissing
  {
    CostCounts(m, d, 1017, 1025);
    assert Missing(m, d, 1017, 1025) == {1};
  }
}
