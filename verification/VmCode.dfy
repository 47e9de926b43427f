/**
 kalloc.c and the page-table code of vm.c: a free list, and directories and tables updated in
 place. A failed allocation is a result; the ghost set `lost` holds the pages that the code drops
 when it fails half-way.
 */
module VmCode {
  import opened Sealing
  import opened VmSpec

  const PGSIZE: nat := 4096
  const KERNBASE: nat := 0x8000_0000

  function Zeros(): (p: Page) {
    Data(seq(PGSIZE, _ => 0))
  }

  function Junk(): (p: Page) {
    Data(seq(PGSIZE, _ => 1))
  }

  /** PGROUNDUP in pages. */
  function PagesFor(sz: nat): (n: nat) {
    (sz + PGSIZE - 1) / PGSIZE
  }

  lemma PageRange(v: nat, sz: nat)
    ensures (v * PGSIZE < sz <==> v < PagesFor(sz)) && (sz <= KERNBASE ==> PagesFor(sz) <= USER)
  {
  }

  /** A page of the kernel's part, mapped in every space. */
  datatype Kmap = Kmap(v: nat, frame: nat, flags: nat)

  class Memory {
    const pages: array<Page>
    const res: nat
    var free: seq<nat>
    ghost var owner: map<nat, Use>

    ghost function Abs(): (m: Mem)
      reads this, pages
    {
      Mem(free, pages[..])
    }

    ghost predicate Valid()
      reads this, pages
    {
      Owned(Abs(), owner, res)
    }

    /** freerange: every page above the kernel's own is put on the list. */
    constructor (n: nat, res: nat)
      requires 0 < res <= n
      ensures Valid() && fresh(pages) && owner == map[] && this.res == res && pages.Length == n
    {
      this.res := res;
      pages := new Page[n](_ => Junk());
      free, owner := [], map[];
      new;
      var p := res;
      while p < n
        invariant res <= p <= n && owner == map[] && Distinct(free) && forall q: nat :: q in free <==> res <= q < p
        invariant forall i :: 0 <= i < n ==> pages[i] == Junk()
      {
        assert forall i :: 0 <= i < |free| ==> free[i] in free;
        free := [p] + free;
        p := p + 1;
      }
      assert Ownership(Abs(), owner, res);
    }

    /** kalloc: the head of the list, 0 if it is empty. */
    method Kalloc() returns (p: nat)
      requires Valid()
      modifies this`free, this`owner
      ensures Valid() && (p == 0 <==> old(free) == [])
      ensures p == 0 ==> free == old(free) && owner == old(owner)
      ensures p != 0 ==>
        p == old(free)[0] && free == old(free)[1..] && p !in old(owner) && owner == old(owner)[p := Lost] && p < pages.Length
    {
      if free == [] {
        return 0;
      }
      p := free[0];
      ghost var m := Abs();
      LosePage(m, owner, res, m.pages[p]) by { TakeFree(m, owner, res); }
      TakeFree(m, owner, res);
      assert m.pages[p := m.pages[p]] == m.pages;
      free := free[1..];
      owner := owner[p := Lost];
      assert Abs() == Take(m, m.pages[p]);
    }

    /** memset or memmove into a page not yet in use. */
    method Fill(p: nat, c: Page)
      requires Valid() && p in owner && owner[p].Lost?
      modifies pages
      ensures Valid() && p < pages.Length && pages[..] == old(pages[..])[p := c]
      ensures forall d: nat :: IsDir(owner, d) ==> SameSpace(old(Abs()), Abs(), d)
    {
      FillLost(Abs(), owner, res, p, c);
      pages[p] := c;
    }

    /** walkpgdir with alloc: makes sure of the table that covers page `v`. */
    method WalkAlloc(d: nat, v: nat) returns (ok: bool)
      requires Valid() && IsDir(owner, d) && v < NPT * NPT
      modifies this, pages
      ensures Valid() && Outside(old(Abs()), old(owner), Abs(), owner, d) && IsDir(owner, d)
      ensures forall w: nat :: Pte(Abs(), d, w) == Pte(old(Abs()), d, w)
      ensures forall w: nat :: w < USER ==> View(Abs(), d, w) == View(old(Abs()), d, w)
      ensures ok ==> Pde(Abs(), d, v / NPT).To?
      ensures forall x: nat :: x != v / NPT || !ok ==> Pde(Abs(), d, x) == Pde(old(Abs()), d, x)
      ensures (ok <==> Pde(old(Abs()), d, v / NPT).To? || old(free) != []) && old(owner).Keys <= owner.Keys
      ensures |free| == |old(free)| - if ok && !Pde(old(Abs()), d, v / NPT).To? then 1 else 0
      ensures !ok || Pde(old(Abs()), d, v / NPT).To? ==> Abs() == old(Abs()) && owner == old(owner)
    {
      ghost var m, was := Abs(), owner;
      var x := v / NPT;
      Parts(m, owner, res, d);
      if pages[d].es[x].To? {
        assert Pde(m, d, x).To?;
        return true;
      }
      if free == [] {
        return false;
      }
      NewTable(m, owner, res, d, x);
      var t := free[0];
      free := free[1..];
      pages[t] := Blank();
      pages[d] := Table(pages[d].es[x := To(t, 7)]);
      owner := owner[t := Tbl(d, x)];
      ghost var r := SetEntry(Take(m, Blank()), d, x, To(t, 7));
      assert Abs() == r;
      OutsideStep(m, was, res, r, owner, d, t);
      forall w: nat | w < USER
        ensures View(r, d, w) == View(m, d, w)
      {
        assert Pte(m, d, w).To? ==> Pte(m, d, w).frame in was && Pte(m, d, w).frame != t && Pte(m, d, w).frame != d;
      }
      return true;
    }

    /** mappages for one user page: page `p`, with what it holds, becomes page `v`, or the panic on a page already mapped. */
    method MapUser(d: nat, v: nat, p: nat, flags: nat) returns (ok: bool, remap: bool)
      requires Valid() && IsDir(owner, d) && v < USER && p in owner && owner[p].Lost? && p < pages.Length
      modifies this, pages
      ensures Valid() && IsDir(owner, d) && (remap <==> Pte(old(Abs()), d, v).To?)
      ensures ok <==> !remap && (Pde(old(Abs()), d, v / NPT).To? || old(free) != [])
      ensures old(owner).Keys <= owner.Keys
      ensures |free| == |old(free)| - if ok && !Pde(old(Abs()), d, v / NPT).To? then 1 else 0
      ensures !ok ==> Abs() == old(Abs()) && owner == old(owner)
      ensures ok ==> Outside(old(Abs()), old(owner) - {p}, Abs(), owner, d)
      ensures ok ==> Pde(Abs(), d, v / NPT).To? && forall x: nat :: x != v / NPT ==> Pde(Abs(), d, x) == Pde(old(Abs()), d, x)
      ensures ok ==> forall w: nat :: w < USER ==>
        && (Pte(Abs(), d, w).To? <==> w == v || Pte(old(Abs()), d, w).To?)
        && View(Abs(), d, w) == if w == v then Sees(flags, old(pages[p])) else View(old(Abs()), d, w)
    {
      ghost var m, was := Abs(), owner;
      ok := WalkAlloc(d, v);
      if !ok {
        return false, false;
      }
      var pte := Entry(d, v);
      if pte.To? {
        return false, true;
      }
      remap := false;
      ghost var u, mid := Abs(), owner;
      StillLost(m, was, u, mid, d, p);
      UseLost(u, mid, res, p);
      ghost var u', mid' := u.(free := [p] + u.free), mid - {p};
      NewFrame(u', mid', res, d, v, u.pages[p], flags);
      Parts(u', mid', res, d);
      var t := pages[d].es[v / NPT].frame;
      pages[t] := Table(pages[t].es[v % NPT := To(p, flags)]);
      owner := owner[p := Frame(d, v)];
      ghost var r := SetEntry(Take(u', u.pages[p]), t, v % NPT, To(p, flags));
      assert Abs() == r;
      assert owner == mid'[p := Frame(d, v)];
      OutsideStep(u', mid', res, r, owner, d, p);
      OutsideLost(m, was, u, mid, u', r, owner, d, p);
    }

    /**
     kalloc, fill and map: one turn of the loops of allocuvm and copyuvm. It is short exactly when the
     one free page is needed twice, for the page and for its table; then that page is lost. It panics
     exactly when there is a free page and the page is already mapped.
     */
    method AddPage(d: nat, v: nat, c: Page, flags: nat) returns (o: Outcome, ghost lost: set<nat>)
      requires Valid() && IsDir(owner, d) && v < USER
      modifies this, pages
      ensures Valid() && IsDir(owner, d) && old(owner).Keys <= owner.Keys && (o == NoMemory <==> old(free) == [])
      ensures o == Remap <==> old(free) != [] && Pte(old(Abs()), d, v).To?
      ensures o == Short <==> |old(free)| == 1 && !Pde(old(Abs()), d, v / NPT).To?
      ensures o == Added ==> OneMore(old(Abs()), old(owner), Abs(), owner, d, v, Sees(flags, c))
      ensures o == Added ==> |free| == |old(free)| - if Pde(old(Abs()), d, v / NPT).To? then 1 else 2
      ensures o == Added ==> Pde(Abs(), d, v / NPT).To? && forall x: nat :: x != v / NPT ==> Pde(Abs(), d, x) == Pde(old(Abs()), d, x)
      ensures o == NoMemory ==> Abs() == old(Abs()) && owner == old(owner)
      ensures o == Short ==> lost == {old(free)[0]} && Stray(old(owner), owner, lost) && free == []
      ensures o == Short ==> Outside(old(Abs()), old(owner), Abs(), owner - lost, d) && owner - lost == old(owner)
      ensures o == Short ==> forall e: nat :: IsDir(old(owner), e) ==> IsDir(owner, e) && SameSpace(old(Abs()), Abs(), e)
      ensures o != Short ==> lost == {}
    {
      ghost var m, was := Abs(), owner;
      var p := Kalloc();
      if p == 0 {
        return NoMemory, {};
      }
      ghost var k := Abs();
      Fill(p, c);
      ghost var u := Abs();
      forall e: nat | IsDir(was, e)
        ensures SameSpace(m, u, e)
      {
        SamePages(m, k, e);
        assert IsDir(owner, e) && SameSpace(k, u, e);
      }
      var ok, remap := MapUser(d, v, p, flags);
      assert was[p := Lost] - {p} == was;
      if remap {
        return Remap, {};
      }
      if !ok {
        return Short, {p};
      }
      AddedPage(m, was, u, Abs(), owner, d, v, Sees(flags, c));
      return Added, {};
    }

    /** deallocuvm at a mapped page. */
    method DropPage(d: nat, v: nat)
      requires Valid() && IsDir(owner, d) && v < USER && Pte(Abs(), d, v).To?
      modifies this, pages
      ensures Valid() && IsDir(owner, d) && Outside(old(Abs()), old(owner), Abs(), owner, d)
      ensures Dropped(old(Abs()), Abs(), d, v) && |free| == |old(free)| + 1
    {
      ghost var m, was := Abs(), owner;
      DropFrame(m, owner, res, d, v, Junk());
      Parts(m, owner, res, d);
      var t := pages[d].es[v / NPT].frame;
      var f := pages[t].es[v % NPT].frame;
      // The panic of kfree on a page out of range cannot happen.
      assert res <= f < pages.Length;
      pages[f] := Junk();
      free := [f] + free;
      pages[t] := Table(pages[t].es[v % NPT := None]);
      owner := owner - {f};
      ghost var r := SetEntry(Free(m, f, Junk()), t, v % NPT, None);
      assert Abs() == r;
      OutsideStep(m, was, res, r, owner, d, f);
    }

    /** One turn of the loop of deallocuvm at page `v`: on to the next page, or 4MB on if the table is missing. */
    method ClearPage(d: nat, v: nat) returns (next: nat)
      requires Valid() && IsDir(owner, d) && v < USER
      modifies this, pages
      ensures Valid() && IsDir(owner, d) && Outside(old(Abs()), old(owner), Abs(), owner, d)
      ensures if Pde(old(Abs()), d, v / NPT).To? then next == v + 1 && Dropped(old(Abs()), Abs(), d, v)
              else next == v + NPT && Abs() == old(Abs())
      ensures |free| == |old(free)| + if Pte(old(Abs()), d, v).To? then 1 else 0
    {
      ghost var m := Abs();
      Parts(m, owner, res, d);
      NothingChanged(m, owner, d);
      var pde := pages[d].es[v / NPT];
      assert pde == Pde(m, d, v / NPT);
      next := v;
      if !pde.To? {
        next := next + (NPT - 1);
      } else if pages[pde.frame].es[v % NPT].To? {
        DropPage(d, v);
      }
      next := next + 1;
    }

    /** deallocuvm: the pages from `newsz` up to `oldsz` go, except those that the jump over a missing table skips. */
    method DeallocUvm(d: nat, oldsz: nat, newsz: nat) returns (sz: nat)
      requires Valid() && IsDir(owner, d) && oldsz <= KERNBASE
      modifies this, pages
      ensures Valid() && IsDir(owner, d) && Outside(old(Abs()), old(owner), Abs(), owner, d)
      ensures sz == (if newsz >= oldsz then oldsz else newsz) && Did(old(Abs()), old(owner), Abs(), owner, res, Dealloc(d, oldsz, newsz))
      ensures Cleared(old(Abs()), Abs(), d, PagesFor(newsz), PagesFor(oldsz))
      ensures |free| == |old(free)| + Held(old(Abs()), d, PagesFor(newsz), PagesFor(oldsz))
    {
      ghost var m, was, lo, hi := Abs(), owner, PagesFor(newsz), PagesFor(oldsz);
      NothingChanged(m, was, d);
      if newsz >= oldsz {
        return oldsz;
      }
      var v := PagesFor(newsz);
      while v * PGSIZE < oldsz
        invariant lo <= v && Valid() && IsDir(owner, d) && Outside(m, was, Abs(), owner, d)
        invariant Cleared(m, Abs(), d, lo, if v < hi then v else hi) && Course(m, d, lo, v)
        invariant |free| == |old(free)| + Held(m, d, lo, if v < hi then v else hi)
      {
        ghost var u, mid, at := Abs(), owner, v;
        v := ClearPage(d, v);
        OutsideTwice(m, was, u, mid, Abs(), owner, d);
        ClearsOn(m, u, Abs(), d, lo, at, v, hi);
        HeldOn(m, u, d, lo, at, v, hi);
      }
      return newsz;
    }

    /**
     allocuvm: zeroed pages up to the new size, or 0 with the pages in between taken away again. It does
     not look at what mappages returns, so at most one page is lost: either the next kalloc fails, and
     all is undone, or it was the last page, and the new size is returned although that page is not
     mapped. It panics exactly if its pages last to one that is already mapped.
     */
    method AllocUvm(d: nat, oldsz: nat, newsz: nat) returns (sz: nat, remap: bool, ghost lost: set<nat>)
      requires Valid() && IsDir(owner, d) && oldsz <= KERNBASE
      modifies this, pages
      ensures Valid() && IsDir(owner, d)
      ensures remap <==> oldsz <= newsz < KERNBASE && Remaps(old(Abs()), d, PagesFor(oldsz), PagesFor(newsz), |old(free)|)
      ensures !remap ==> Stray(old(owner), owner, lost) && Outside(old(Abs()), old(owner), Abs(), owner - lost, d)
      ensures !remap && lost == {} ==> Did(old(Abs()), old(owner), Abs(), owner, res, Alloc(d, oldsz, newsz, sz))
      ensures newsz >= KERNBASE ==> sz == 0
      ensures newsz < oldsz ==> sz == oldsz
      ensures newsz >= KERNBASE || newsz < oldsz ==> lost == {} && Abs() == old(Abs()) && owner == old(owner)
      ensures oldsz <= newsz < KERNBASE && !remap ==>
        Ends(old(Abs()), Abs(), d, PagesFor(oldsz), PagesFor(newsz), |old(free)|, sz, newsz, lost)
    {
      ghost var m, was := Abs(), owner;
      NothingChanged(m, was, d);
      lost, remap := {}, false;
      assert owner - lost == owner;
      if newsz >= KERNBASE {
        return 0, false, lost;
      }
      if newsz < oldsz {
        return oldsz, false, lost;
      }
      sz, remap, lost := AllocLoop(d, oldsz, newsz);
      if !remap { AllotIs(m, was, Abs(), owner, d, PagesFor(oldsz), PagesFor(newsz), |old(free)|, sz, newsz, lost); }
      assert owner - {} == owner;
    }

    /** The loop of allocuvm. */
    method AllocLoop(d: nat, oldsz: nat, newsz: nat) returns (sz: nat, remap: bool, ghost lost: set<nat>)
      requires Valid() && IsDir(owner, d) && oldsz <= newsz < KERNBASE
      modifies this, pages
      ensures Valid() && IsDir(owner, d) && (remap <==> Remaps(old(Abs()), d, PagesFor(oldsz), PagesFor(newsz), |old(free)|))
      ensures !remap ==> Allotted(old(Abs()), old(owner), Abs(), owner, d, PagesFor(oldsz), PagesFor(newsz), |old(free)|, sz, newsz, lost)
    {
      ghost var m, was, lo, hi, f := Abs(), owner, PagesFor(oldsz), PagesFor(newsz), |free|;
      var v := PagesFor(oldsz);
      lost := {};
      ClimbStart(m, was, d, lo, f);
      while v * PGSIZE < newsz
        invariant lo <= v <= FirstMapped(m, d, lo, hi) && Valid() && IsDir(owner, d)
        invariant Climbs(m, was, Abs(), owner, d, lo, v, f, lost)
      {
        var o;
        o, lost := AllocStep(d, oldsz, newsz, v, m, was, f, lost);
        if o == Remap || o == NoMemory {
          return 0, o == Remap, lost;
        }
        v := v + 1;
      }
      PageRange(v, newsz);
      ClimbDone(m, was, Abs(), owner, d, lo, hi, f, lost, newsz);
      return newsz, false, lost;
    }

    /** The body of that loop. */
    method AllocStep(d: nat, oldsz: nat, newsz: nat, v: nat, ghost m: Mem, ghost was: map<nat, Use>, ghost f: nat, ghost lost: set<nat>)
      returns (o: Outcome, ghost gone: set<nat>)
      requires Valid() && IsDir(owner, d) && oldsz <= newsz < KERNBASE && v * PGSIZE < newsz
      requires var lo, hi := PagesFor(oldsz), PagesFor(newsz);
        lo <= v <= FirstMapped(m, d, lo, hi) && Climbs(m, was, Abs(), owner, d, lo, v, f, lost)
      modifies this, pages
      ensures Valid() && IsDir(owner, d)
      ensures var lo, hi := PagesFor(oldsz), PagesFor(newsz);
        && (o == Remap ==> Remaps(m, d, lo, hi, f))
        && (o == NoMemory ==> !Remaps(m, d, lo, hi, f) && Allotted(m, was, Abs(), owner, d, lo, hi, f, 0, newsz, gone))
        && (o == Added || o == Short ==> v < FirstMapped(m, d, lo, hi) && Climbs(m, was, Abs(), owner, d, lo, v + 1, f, gone))
    {
      PageRange(v, newsz);
      o, gone := AllocTurn(d, v, m, was, PagesFor(oldsz), PagesFor(newsz), f, lost);
      if o == NoMemory {
        Undo(d, oldsz, newsz, v, m, was, f, lost);
      }
    }

    /** The deallocuvm of allocuvm, when kalloc has failed at page `v`. */
    method Undo(d: nat, oldsz: nat, newsz: nat, ghost v: nat, ghost m: Mem, ghost was: map<nat, Use>, ghost f: nat, ghost lost: set<nat>)
      requires Valid() && IsDir(owner, d) && oldsz <= newsz < KERNBASE && free == []
      requires var lo, hi := PagesFor(oldsz), PagesFor(newsz);
        && lo <= v <= hi && Climbs(m, was, Abs(), owner, d, lo, v, f, lost)
        && !Suffices(m, d, lo, hi, f) && !LosesLast(m, d, lo, hi, f) && (Loses(m, d, lo, hi, f) <==> lost != {})
      modifies this, pages
      ensures Valid() && IsDir(owner, d) && Allotted(m, was, Abs(), owner, d, PagesFor(oldsz), PagesFor(newsz), f, 0, newsz, lost)
    {
      ghost var u, mid := Abs(), owner;
      var sz := DeallocUvm(d, newsz, oldsz);
      ClimbUndone(m, was, u, mid, Abs(), owner, d, PagesFor(oldsz), v, lost, f, PagesFor(newsz), newsz);
    }

    /** One turn of the loop of allocuvm: kalloc, memset and mappages at page `v`. */
    method AllocTurn(d: nat, v: nat, ghost m: Mem, ghost was: map<nat, Use>, ghost lo: nat, ghost hi: nat, ghost f: nat,
                     ghost lost: set<nat>)
      returns (o: Outcome, ghost gone: set<nat>)
      requires Valid() && IsDir(owner, d) && Climbs(m, was, Abs(), owner, d, lo, v, f, lost)
      requires lo <= v < hi <= USER && v <= FirstMapped(m, d, lo, hi)
      modifies this, pages
      ensures Valid() && IsDir(owner, d)
      ensures o == Remap ==> Remaps(m, d, lo, hi, f)
      ensures o == NoMemory ==> Abs() == old(Abs()) && owner == old(owner) && gone == lost && free == [] && !Remaps(m, d, lo, hi, f)
      ensures o == NoMemory ==> !Suffices(m, d, lo, hi, f) && !LosesLast(m, d, lo, hi, f) && (Loses(m, d, lo, hi, f) <==> lost != {})
      ensures o == Added || o == Short ==> Climbs(m, was, Abs(), owner, d, lo, v + 1, f, gone) && v < FirstMapped(m, d, lo, hi)
    {
      ghost var u, mid := Abs(), owner;
      ClimbAt(m, was, u, mid, d, lo, v, f, lost);
      o, gone := AddPage(d, v, Zeros(), 7);
      if o == NoMemory {
        OutOfPages(m, d, lo, v, hi, f, lost != {});
        gone := lost;
      } else if o == Short {
        ClimbShort(m, was, u, mid, Abs(), owner, d, lo, v, f, gone);
      } else if o == Added {
        ClimbAdded(m, was, u, mid, Abs(), owner, d, lo, v, f);
      }
    }

    /** kfree of a page table in freevm. */
    method Kfree(p: nat)
      requires p < pages.Length
      modifies this`free, pages
      ensures Abs() == Free(old(Abs()), p, Junk())
    {
      pages[p] := Junk();
      free := [p] + free;
    }

    /** The loop of freevm over the directory. */
    method FreeTables(d: nat)
      requires Valid() && IsDir(owner, d) && Bare(Abs(), d, 0)
      modifies this`free, pages
      ensures Freeing(old(Abs()), Abs(), owner, d, NPT)
    {
      ghost var m := Abs();
      FreeingNone(m, owner, res, d);
      for x := 0 to NPT
        invariant Freeing(m, Abs(), owner, d, x)
      {
        ghost var u := Abs();
        Parts(m, owner, res, d);
        var pde := pages[d].es[x];
        assert pde == Pde(m, d, x);
        if pde.To? {
          FreeingMore(m, u, owner, res, d, x);
          Kfree(pde.frame);
        } else {
          FreeingSame(m, u, owner, d, x);
        }
      }
    }

    /** freevm: every page of the space is free again, and no other page is. */
    method FreeVm(d: nat)
      requires Valid() && IsDir(owner, d)
      modifies this, pages
      ensures Valid() && owner == old(owner) - PagesOf(old(owner), d) && Outside(old(Abs()), old(owner), Abs(), owner, d)
      ensures |free| == |old(free)| + |PagesOf(old(owner), d)| && Did(old(Abs()), old(owner), Abs(), owner, res, FreeSpace(d))
    {
      ghost var m, was := Abs(), owner;
      var sz := DeallocUvm(d, KERNBASE, 0);
      ghost var u, mid := Abs(), owner;
      AllCleared(m, u, d);
      FreeTables(d);
      ghost var w := Abs();
      Parts(u, mid, res, d);
      Kfree(d);
      FreedAll(u, w, mid, res, d);
      LeavesOthers(m, was, u, mid, res, Abs(), d);
      owner := owner - PagesOf(owner, d);
      AllFreed(m, was, Abs(), owner, res, d);
    }

    /** One page of the kernel's part in a new space. */
    method MapKernel(d: nat, k: Kmap) returns (ok: bool)
      requires Valid() && IsDir(owner, d) && USER <= k.v < NPT * NPT && Pte(Abs(), d, k.v) == None && Bottom(Abs(), d)
      modifies this, pages
      ensures Valid() && IsDir(owner, d) && Outside(old(Abs()), old(owner), Abs(), owner, d) && Bottom(Abs(), d)
      ensures ok ==> forall w: nat :: w < NPT * NPT ==> Pte(Abs(), d, w) == if w == k.v then To(k.frame, k.flags) else Pte(old(Abs()), d, w)
      ensures ok <==> Pde(old(Abs()), d, k.v / NPT).To? || old(free) != []
      ensures |free| == |old(free)| - if ok && !Pde(old(Abs()), d, k.v / NPT).To? then 1 else 0
      ensures ok ==> Pde(Abs(), d, k.v / NPT).To? && forall x: nat :: x != k.v / NPT ==> Pde(Abs(), d, x) == Pde(old(Abs()), d, x)
    {
      ghost var m, was := Abs(), owner;
      ok := WalkAlloc(d, k.v);
      ghost var u, mid := Abs(), owner;
      if !ok {
        return;
      }
      KernelEntry(u, mid, res, d, k.v, To(k.frame, k.flags));
      Parts(u, mid, res, d);
      var t := pages[d].es[k.v / NPT].frame;
      pages[t] := Table(pages[t].es[k.v % NPT := To(k.frame, k.flags)]);
      ghost var r := SetEntry(u, t, k.v % NPT, To(k.frame, k.flags));
      assert Abs() == r;
      OutsideStep(u, mid, res, r, owner, d, d);
      OutsideTwice(m, was, u, mid, r, owner, d);
    }

    /** setupkvm: a directory with the kernel's mappings and no user page; `d` is 0 if there is not even a page for it. */
    method SetupKvm(ks: seq<Kmap>) returns (d: nat, ok: bool)
      requires Valid() && KmapOk(ks)
      modifies this, pages
      ensures Valid() && (d == 0 ==> !ok && Abs() == old(Abs()) && owner == old(owner))
      ensures d != 0 ==> d !in old(owner) && IsDir(owner, d) && Outside(old(Abs()), old(owner), Abs(), owner, d)
      ensures d != 0 ==> Bottom(Abs(), d)
      ensures ok ==> forall w: nat :: w < NPT * NPT ==> Pte(Abs(), d, w) == KernelPte(ks, |ks|, w)
      ensures ok <==> |old(free)| >= SetupCost(ks)
      ensures |free| == if ok then |old(free)| - SetupCost(ks) else 0
      ensures d != 0 ==> Did(old(Abs()), old(owner), Abs(), owner, res, Setup(d))
    {
      ghost var m, was := Abs(), owner;
      d := BlankDir();
      if d == 0 {
        return d, false;
      }
      KernelStart(Abs(), d, ks);
      for i := 0 to |ks|
        invariant Valid() && d != 0 && IsDir(owner, d) && Outside(m, was, Abs(), owner, d)
        invariant Kernel(Abs(), d, ks, i) && |free| == |old(free)| - 1 - |Tables(ks, i)|
      {
        ghost var u, mid := Abs(), owner;
        MoreTables(ks, i + 1, |ks|);
        ok := KernelTurn(d, ks, i);
        OutsideTwice(m, was, u, mid, Abs(), owner, d);
        if !ok {
          return;
        }
      }
      KernelDone(Abs(), d, ks);
      ok := true;
    }

    /** kalloc and memset for a directory. */
    method BlankDir() returns (d: nat)
      requires Valid()
      modifies this, pages
      ensures Valid() && (d == 0 <==> old(free) == []) && (d == 0 ==> Abs() == old(Abs()) && owner == old(owner))
      ensures d != 0 ==> d !in old(owner) && IsDir(owner, d) && Outside(old(Abs()), old(owner), Abs(), owner, d)
      ensures d != 0 ==> IsTable(Abs(), d) && pages[d] == Blank() && |free| == |old(free)| - 1
    {
      ghost var m, was := Abs(), owner;
      if free == [] {
        return 0;
      }
      NewDir(m, owner, res);
      TakeFree(m, owner, res);
      d := free[0];
      free := free[1..];
      pages[d] := Blank();
      owner := owner[d := Root];
      assert Abs() == Take(m, Blank());
      OutsideStep(m, was, res, Abs(), owner, d, d);
    }

    /** One turn of the loop of setupkvm. */
    method KernelTurn(d: nat, ks: seq<Kmap>, i: nat) returns (ok: bool)
      requires Valid() && IsDir(owner, d) && KmapOk(ks) && i < |ks| && Kernel(Abs(), d, ks, i)
      modifies this, pages
      ensures Valid() && IsDir(owner, d) && Outside(old(Abs()), old(owner), Abs(), owner, d) && Bottom(Abs(), d)
      ensures ok ==> Kernel(Abs(), d, ks, i + 1) && |free| == |old(free)| - (|Tables(ks, i + 1)| - |Tables(ks, i)|)
      ensures !ok ==> free == [] == old(free) && |Tables(ks, i + 1)| > |Tables(ks, i)|
    {
      ghost var u := Abs();
      // The panic on a page already mapped cannot happen.
      KernelAt(u, d, ks, i);
      ok := MapKernel(d, ks[i]);
      if ok { KernelMore(u, Abs(), d, ks, i); }
    }

    /** walkpgdir without alloc in space `s`, for copyuvm: the entry of page `v`, None if there is no table. */
    method Entry(s: nat, v: nat) returns (e: Entry)
      requires Valid() && IsDir(owner, s) && v < USER
      ensures e == Pte(Abs(), s, v) && (e.To? ==> e.frame < pages.Length && View(Abs(), s, v) == Sees(e.flags, pages[e.frame]))
    {
      Parts(Abs(), owner, res, s);
      var pde := pages[s].es[v / NPT];
      assert pde == Pde(Abs(), s, v / NPT);
      e := if pde.To? then pages[pde.frame].es[v % NPT] else None;
    }

    /** The label bad of copyuvm: the unfinished space `e` is freed. */
    method GiveUp(e: nat, ghost m: Mem, ghost was: map<nat, Use>, ghost u: Mem, ghost mid: map<nat, Use>, ghost lost: set<nat>)
      requires Valid() && IsDir(owner, e) && Outside(m, was, u, mid, e) && forall p :: p in was ==> Of(was, p) != e
      requires owner - lost == mid && Stray(mid, owner, lost)
      requires forall d: nat :: IsDir(mid, d) ==> IsDir(owner, d) && SameSpace(u, Abs(), d)
      modifies this, pages
      ensures Valid() && owner - lost == was && Stray(was, owner, lost)
      ensures forall d: nat :: IsDir(was, d) ==> SameSpace(m, Abs(), d)
    {
      ghost var x, last := Abs(), owner;
      FreeVm(e);
      LostOnly(m, was, u, mid, last, owner, e, lost);
      forall d: nat | IsDir(was, d)
        ensures SameSpace(m, Abs(), d)
      {
        assert IsDir(mid, d) && SameSpace(m, u, d);
        assert IsDir(last, d) && SameSpace(u, x, d) && SameSpace(x, Abs(), d);
      }
    }

    /** One turn of the loop of copyuvm: page `v` of `s`, unless it is missing, goes into `e`. */
    method CopyPage(s: nat, e: nat, v: nat) returns (there: bool, o: Outcome, ghost lost: set<nat>)
      requires Valid() && IsDir(owner, s) && IsDir(owner, e) && s != e && v < USER && Bare(Abs(), e, v)
      modifies this, pages
      ensures Valid() && IsDir(owner, e) && there == Pte(old(Abs()), s, v).To?
      ensures !there ==> Abs() == old(Abs()) && owner == old(owner)
      ensures there ==>
        o != Remap && (o == NoMemory <==> old(free) == []) && (o == Short <==> |old(free)| == 1 && !Pde(old(Abs()), e, v / NPT).To?)
      ensures there && o == Added ==> OneMore(old(Abs()), old(owner), Abs(), owner, e, v, View(old(Abs()), s, v))
      ensures there && o == Added ==> |free| == |old(free)| - if Pde(old(Abs()), e, v / NPT).To? then 1 else 2
      ensures there && o == Added ==>
        Pde(Abs(), e, v / NPT).To? && forall x: nat :: x != v / NPT ==> Pde(Abs(), e, x) == Pde(old(Abs()), e, x)
      ensures there && o != Added ==> owner - lost == old(owner) && Stray(old(owner), owner, lost) && (lost != {} <==> o == Short)
      ensures there && o != Added ==> forall d: nat :: IsDir(old(owner), d) ==> IsDir(owner, d) && SameSpace(old(Abs()), Abs(), d)
    {
      ghost var u := Abs();
      var pte := Entry(s, v);
      there, o, lost := pte.To?, NoMemory, {};
      if there {
        o, lost := AddPage(e, v, pages[pte.frame], pte.flags);
        if o == NoMemory {
          assert owner - lost == old(owner);
          forall d: nat ensures SameSpace(u, Abs(), d) { SamePages(u, Abs(), d); }
        }
      }
    }

    /**
     copyuvm: a new space with the same flags and contents at every page below `sz` as space `s`, in
     frames of its own; or 0, with every space as it was; or the panic at a page of `s` that is missing.
     How many pages are free decides which. After a 0 exactly the pages `lost` are gone: none, the one
     page that could not be mapped, or all there were, if setupkvm itself ran out.
     */
    method CopyUvm(s: nat, sz: nat, ks: seq<Kmap>) returns (r: Copy, ghost lost: set<nat>)
      requires Valid() && KmapOk(ks) && IsDir(owner, s) && sz <= KERNBASE
      modifies this, pages
      ensures Valid()
      ensures var m, f, n := old(Abs()), |old(free)|, PagesFor(sz); var h := FirstHole(m, s, n);
        && (r.NewSpace? <==> h == n && f >= SetupCost(ks) + FreshCost(n))
        && (r.NoPte? <==> h < n && f >= SetupCost(ks) + FreshCost(h))
        && (r.NoSpace? && f >= SetupCost(ks) ==> Stray(old(owner), owner, lost) && (lost != {} <==> FreshLoses(h, f - SetupCost(ks))))
        && (r.NoSpace? && f < SetupCost(ks) ==> free == [])
      ensures r.NewSpace? ==> r.e !in old(owner) && IsDir(owner, r.e) && Outside(old(Abs()), old(owner), Abs(), owner, r.e)
      ensures r.NewSpace? ==>
        Copied(old(Abs()), s, Abs(), r.e, PagesFor(sz)) && Did(old(Abs()), old(owner), Abs(), owner, res, CopyOf(s, r.e, sz))
      ensures r.NoSpace? ==> owner - lost == old(owner)
      ensures forall d: nat :: IsDir(old(owner), d) ==> IsDir(owner, d) && SameSpace(old(Abs()), Abs(), d)
    {
      ghost var m, was, f := Abs(), owner, |free|;
      var e, ok := SetupKvm(ks);
      if !ok {
        lost := if e == 0 then {} else PagesOf(owner, e);
        SetupFailed(m, was, res, Abs(), owner, e, lost);
        return NoSpace, lost;
      }
      CopyStart(m, s, was, res, Abs(), owner, e, f - SetupCost(ks));
      r, lost := CopyLoop(s, e, sz, m, was);
    }

    /**
     A run that reaches the panic of copyuvm: the process of space `d` grows and loses its last page,
     another process, of space `b`, exits and gives its pages back, and the first one forks.
     */
    method ShortFork(d: nat, oldsz: nat, newsz: nat, b: nat, ks: seq<Kmap>) returns (sz: nat, r: Copy)
      requires Valid() && IsDir(owner, d) && IsDir(owner, b) && b != d && KmapOk(ks)
      requires Bare(Abs(), d, PagesFor(oldsz)) && oldsz <= newsz < KERNBASE
      requires LosesLast(Abs(), d, PagesFor(oldsz), PagesFor(newsz), |free|)
      requires |PagesOf(owner, b)| >= SetupCost(ks) + FreshCost(PagesFor(newsz))
      modifies this, pages
      ensures sz == newsz && r.NoPte?
    {
      ghost var m, was, hi, lost := Abs(), owner, PagesFor(newsz), {};
      var remap;
      sz, remap, lost := AllocUvm(d, oldsz, newsz);
      ghost var u, mid := Abs(), owner;
      KeptPages(m, was, u, mid, d, b, lost);
      FreeVm(b);
      assert SameSpace(u, Abs(), d) && !Pte(u, d, hi - 1).To?;
      assert FreshCost(FirstHole(Abs(), d, hi)) <= FreshCost(hi);
      r, lost := CopyUvm(d, newsz, ks);
    }

    /** The loop of copyuvm, into the new space `e`; `m` and `was` are from before it was set up. */
    method CopyLoop(s: nat, e: nat, sz: nat, ghost m: Mem, ghost was: map<nat, Use>) returns (r: Copy, ghost lost: set<nat>)
      requires Valid() && sz <= KERNBASE && IsDir(owner, s) && IsDir(owner, e) && Copying(m, s, was, Abs(), Abs(), owner, e, 0, |free|)
      modifies this, pages
      ensures Valid()
      ensures var g, n := |old(free)|, PagesFor(sz); var h := FirstHole(m, s, n);
        && (r.NewSpace? <==> h == n && g >= FreshCost(n)) && (r.NoPte? <==> h < n && g >= FreshCost(h))
        && (r.NoSpace? ==> Stray(was, owner, lost) && (lost != {} <==> FreshLoses(h, g)))
      ensures r.NewSpace? ==>
        r.e == e && e !in was && IsDir(owner, e) && Outside(m, was, Abs(), owner, e) && Copied(m, s, Abs(), e, PagesFor(sz))
      ensures r.NoSpace? ==> owner - lost == was
      ensures forall d: nat :: IsDir(was, d) ==> IsDir(owner, d) && SameSpace(m, Abs(), d)
    {
      ghost var u0, g, n := Abs(), |free|, PagesFor(sz);
      ghost var h := FirstHole(m, s, n);
      var v := 0;
      while v * PGSIZE < sz
        invariant v <= h && Valid() && IsDir(owner, e) && IsDir(owner, s) && Copying(m, s, was, u0, Abs(), owner, e, v, g)
      {
        r, lost := CopyTurn(s, e, v, m, was, u0, n, g);
        if !r.NewSpace? {
          return;
        }
        v := v + 1;
      }
      CopyAt(m, s, was, u0, Abs(), owner, e, v, g);
      CopyOthers(m, was, Abs(), owner, e);
      return NewSpace(e), {};
    }

    /** One turn of that loop at page `v`, and what follows it if it is the last. */
    method CopyTurn(s: nat, e: nat, v: nat, ghost m: Mem, ghost was: map<nat, Use>, ghost u0: Mem, ghost n: nat,
                    ghost g: nat) returns (r: Copy, ghost lost: set<nat>)
      requires Valid() && IsDir(owner, s) && IsDir(owner, e)
      requires Copying(m, s, was, u0, Abs(), owner, e, v, g) && v < n <= USER && v <= FirstHole(m, s, n)
      modifies this, pages
      ensures Valid()
      ensures r.NewSpace? ==>
        IsDir(owner, s) && IsDir(owner, e) && Copying(m, s, was, u0, Abs(), owner, e, v + 1, g) && v < FirstHole(m, s, n)
      ensures r.NoPte? ==> v == FirstHole(m, s, n) && g >= FreshCost(v)
      ensures r.NoSpace? ==> g < FreshCost(FirstHole(m, s, n)) && (lost != {} <==> FreshLoses(FirstHole(m, s, n), g))
      ensures r.NoSpace? ==> Stray(was, owner, lost) && owner - lost == was
      ensures !r.NewSpace? ==> forall d: nat :: IsDir(was, d) ==> IsDir(owner, d) && SameSpace(m, Abs(), d)
    {
      ghost var u, mid := Abs(), owner;
      CopyAt(m, s, was, u0, u, mid, e, v, g);
      var there, o;
      there, o, lost := CopyPage(s, e, v);
      if !there {
        CopyOthers(m, was, u, mid, e);
        return NoPte, {};
      }
      if o != Added {
        CopyFails(u0, e, FirstHole(m, s, n), v, g, o == Short);
        GiveUp(e, m, was, u, mid, lost);
        return NoSpace, lost;
      }
      CopyMore(m, s, was, u0, u, mid, Abs(), owner, e, v, g);
      return NewSpace(e), {};
    }
  }

  /** What another space had it still has. */
  lemma KeptPages(m: Mem, was: map<nat, Use>, r: Mem, now: map<nat, Use>, d: nat, b: nat, lost: set<nat>)
    requires Outside(m, was, r, now - lost, d) && IsDir(was, b) && b != d
    ensures IsDir(now, b) && |PagesOf(was, b)| <= |PagesOf(now, b)|
  {
    forall p | p in PagesOf(was, b) ensures p in PagesOf(now, b) { assert p in now - lost; }
    assert PagesOf(now, b) == PagesOf(was, b) + (PagesOf(now, b) - PagesOf(was, b));
  }

  lemma CopyOthers(m: Mem, was: map<nat, Use>, r: Mem, now: map<nat, Use>, e: nat)
    requires Outside(m, was, r, now, e) && e !in was
    ensures forall d: nat :: IsDir(was, d) ==> IsDir(now, d) && SameSpace(m, r, d)
  {
  }

  /** copyuvm has come to page `v` of space `s`, of `g` pages free when the new space `e` was set up in `u0`. */
  ghost predicate Copying(m: Mem, s: nat, was: map<nat, Use>, u0: Mem, r: Mem, now: map<nat, Use>, e: nat, v: nat, g: nat) {
    forall k: nat {:trigger CopyOpen(k)} :: CopyOpen(k) && k == v ==>
      && e !in was && (forall p :: p in was ==> Of(was, p) != e) && Bottom(u0, e) && IsDir(was, s) && s != e
      && Outside(m, was, r, now, e) && Copied(m, s, r, e, v) && Tabled(u0, r, e, 0, v) && |r.free| == g - Cost(u0, e, 0, v)
  }

  lemma CopyStart(m: Mem, s: nat, was: map<nat, Use>, res: nat, u0: Mem, now: map<nat, Use>, e: nat, g: nat)
    requires Owned(m, was, res) && e !in was && IsDir(was, s) && Outside(m, was, u0, now, e) && Bottom(u0, e) && g == |u0.free|
    ensures Copying(m, s, was, u0, u0, now, e, 0, g)
  {
    FreshSpace(m, was, res, e);
  }

  lemma CopyAt(m: Mem, s: nat, was: map<nat, Use>, u0: Mem, r: Mem, now: map<nat, Use>, e: nat, v: nat, g: nat)
    requires Copying(m, s, was, u0, r, now, e, v, g) && v <= USER
    ensures e !in was && (forall p :: p in was ==> Of(was, p) != e) && Bottom(u0, e) && IsDir(was, s) && s != e
    ensures Outside(m, was, r, now, e) && Copied(m, s, r, e, v) && IsDir(now, s) && SameSpace(m, r, s)
    ensures |r.free| == g - Cost(u0, e, 0, v) == g - FreshCost(v)
    ensures v < USER ==> (!Pde(r, e, v / NPT).To? <==> Opens(u0, e, 0, v))
  {
    assert CopyOpen(v);
    FreshIs(u0, e, v);
    if v < USER { TabledAt(u0, r, e, 0, v); }
  }

  lemma CopyMore(m: Mem, s: nat, was: map<nat, Use>, u0: Mem, u: Mem, mid: map<nat, Use>, r: Mem, now: map<nat, Use>,
                 e: nat, v: nat, g: nat)
    requires Copying(m, s, was, u0, u, mid, e, v, g) && v < USER
    requires OneMore(u, mid, r, now, e, v, View(u, s, v)) && |r.free| == |u.free| - if Pde(u, e, v / NPT).To? then 1 else 2
    requires Pde(r, e, v / NPT).To? && forall x: nat :: x != v / NPT ==> Pde(r, e, x) == Pde(u, e, x)
    ensures Copying(m, s, was, u0, r, now, e, v + 1, g)
  {
    CopyAt(m, s, was, u0, u, mid, e, v, g);
    assert Tabled(u0, u, e, 0, v) by { assert CopyOpen(v); }
    OutsideTwice(m, was, u, mid, r, now, e);
    CopiesOn(m, s, u, r, e, v, View(u, s, v));
    TabledMore(u0, u, r, e, 0, v);
  }

  /** What copyuvm comes to: a new space, 0, or the panic on a page that should be there. */
  datatype Copy = NewSpace(e: nat) | NoSpace | NoPte

  /** With `g` free pages, the last of them is wanted twice before page `h` of a new space. */
  ghost predicate FreshLoses(h: nat, g: nat) {
    exists w :: 0 <= w < h && w % NPT == 0 && g == FreshCost(w) + 1
  }

  lemma CopyFails(m: Mem, e: nat, h: nat, v: nat, g: nat, lost: bool)
    requires Bottom(m, e) && v < h <= USER && if lost then g == Cost(m, e, 0, v) + 1 && Opens(m, e, 0, v) else g == Cost(m, e, 0, v)
    ensures g < FreshCost(h) && (FreshLoses(h, g) <==> lost)
  {
    FreshIs(m, e, v);
    FreshIs(m, e, h);
    CostGrows(m, e, 0, v + 1, h);
    if lost {
      assert 0 <= v < h && v % NPT == 0 && g == FreshCost(v) + 1;
    } else {
      forall w | 0 <= w < h && w % NPT == 0
        ensures g != FreshCost(w) + 1
      {
        FreshIs(m, e, w);
        assert Pde(m, e, w / NPT) == None;
        if w < v { CostGrows(m, e, 0, w + 1, v); } else { CostGrows(m, e, 0, v, w); }
      }
    }
  }

  lemma SetupFailed(m: Mem, was: map<nat, Use>, res: nat, r: Mem, now: map<nat, Use>, e: nat, lost: set<nat>)
    requires Owned(m, was, res)
    requires if e == 0 then r == m && now == was && lost == {} else e !in was && Outside(m, was, r, now, e) && lost == PagesOf(now, e)
    ensures now - lost == was && forall d: nat :: IsDir(was, d) ==> IsDir(now, d) && SameSpace(m, r, d)
  {
    if e == 0 {
      assert now - lost == was;
      forall d: nat ensures SameSpace(m, r, d) { SamePages(m, r, d); }
    } else {
      FreshSpace(m, was, res, e);
      AllBack(m, was, r, now, e);
    }
  }

  datatype Outcome = Added | NoMemory | Short | Remap

  /** At most one page, free before, is now neither mapped nor free. */
  ghost predicate Stray(owner: map<nat, Use>, now: map<nat, Use>, lost: set<nat>) {
    |lost| <= 1 && forall p :: p in lost ==> p !in owner && p in now && now[p].Lost?
  }

  lemma OutsideLess(m: Mem, owner: map<nat, Use>, r: Mem, now: map<nat, Use>, d: nat, lost: set<nat>)
    requires Outside(m, owner, r, now, d) && forall p :: p in lost ==> p in owner && owner[p].Lost?
    ensures Outside(m, owner - lost, r, now - lost, d)
  {
    forall e: nat | IsDir(owner - lost, e) && e != d ensures SameSpace(m, r, e) { assert IsDir(owner, e); }
  }

  /** After freevm of an unfinished copy: what was there before, and the lost page. */
  lemma LostOnly(m: Mem, was: map<nat, Use>, u: Mem, mid: map<nat, Use>, last: map<nat, Use>, now: map<nat, Use>, e: nat, lost: set<nat>)
    requires Outside(m, was, u, mid, e) && forall p :: p in was ==> Of(was, p) != e
    requires last - lost == mid && now == last - PagesOf(last, e) && Stray(mid, last, lost)
    ensures now - lost == was && Stray(was, now, lost)
  {
    AllBack(m, was, u, mid, e);
    assert PagesOf(last, e) == PagesOf(mid, e);
  }

  /** Space `d` has page `v`, seen as `s`, and is otherwise as it was. */
  ghost predicate OneMore(m: Mem, owner: map<nat, Use>, r: Mem, now: map<nat, Use>, d: nat, v: nat, s: Sight) {
    && Outside(m, owner, r, now, d)
    && (forall w: nat :: w < USER ==>
          (Pte(r, d, w).To? <==> w == v || Pte(m, d, w).To?) && View(r, d, w) == if w == v then s else View(m, d, w))
  }

  lemma AddedPage(m: Mem, was: map<nat, Use>, u: Mem, r: Mem, now: map<nat, Use>, d: nat, v: nat, s: Sight)
    requires SameSpace(m, u, d) && Touches(m, u, was, d) && Outside(u, was, r, now, d) && v < USER && IsDir(was, d)
    requires forall e: nat :: IsDir(was, e) ==> SameSpace(m, u, e)
    requires Pde(r, d, v / NPT).To? && forall x: nat :: x != v / NPT ==> Pde(r, d, x) == Pde(u, d, x)
    requires forall w: nat :: w < USER ==>
      (Pte(r, d, w).To? <==> w == v || Pte(u, d, w).To?) && View(r, d, w) == if w == v then s else View(u, d, w)
    ensures OneMore(m, was, r, now, d, v, s)
  {
    forall e: nat | IsDir(was, e) && e != d ensures SameSpace(m, r, e) { assert SameSpace(m, u, e) && SameSpace(u, r, e); }
  }

  /** Page `v` is gone, all else is as it was. */
  ghost predicate Dropped(m: Mem, r: Mem, d: nat, v: nat) {
    && (forall x: nat :: Pde(r, d, x) == Pde(m, d, x))
    && (forall w: nat :: w < USER ==> Pte(r, d, w) == if w == v then None else Pte(m, d, w))
    && (forall w: nat :: w < USER ==> View(r, d, w) == if w == v then Nothing else View(m, d, w))
  }

  /** The pages from `lo` to `hi` are gone, except the skipped ones; all else is as it was. */
  ghost predicate Cleared(m: Mem, r: Mem, d: nat, lo: nat, hi: nat) {
    && (forall x: nat :: Pde(r, d, x) == Pde(m, d, x))
    && (forall w: nat :: w < USER ==> Pte(r, d, w) == if lo <= w < hi && !Skipped(m, d, lo, w) then None else Pte(m, d, w))
    && (forall w: nat :: w < USER ==> View(r, d, w) == if lo <= w < hi && !Skipped(m, d, lo, w) then Nothing else View(m, d, w))
  }

  lemma NothingChanged(m: Mem, owner: map<nat, Use>, d: nat)
    ensures Outside(m, owner, m, owner, d)
  {
  }

  lemma ClearsOn(m: Mem, u: Mem, r: Mem, d: nat, lo: nat, v: nat, next: nat, hi: nat)
    requires Cleared(m, u, d, lo, v) && Course(m, d, lo, v) && lo <= v < hi && v < USER
    requires if Pde(u, d, v / NPT).To? then next == v + 1 && Dropped(u, r, d, v) else next == v + NPT && r == u
    ensures Cleared(m, r, d, lo, if next < hi then next else hi) && Course(m, d, lo, next)
  {
    if Pde(u, d, v / NPT).To? { CourseStep(m, d, lo, v); } else { CourseJump(m, d, lo, v); }
  }

  lemma HeldOn(m: Mem, u: Mem, d: nat, lo: nat, v: nat, next: nat, hi: nat)
    requires Cleared(m, u, d, lo, v) && Course(m, d, lo, v) && lo <= v < hi && v < USER
    requires next == v + if Pde(u, d, v / NPT).To? then 1 else NPT
    ensures Held(m, d, lo, if next < hi then next else hi) == Held(m, d, lo, v) + if Pte(u, d, v).To? then 1 else 0
  {
    if Pde(u, d, v / NPT).To? {
      CourseStep(m, d, lo, v);
    } else {
      CourseJump(m, d, lo, v);
      HeldSame(m, d, lo, v, if next < hi then next else hi);
    }
  }

  /** freevm starts at page 0, a table's first, so it skips nothing. */
  lemma AllCleared(m: Mem, r: Mem, d: nat)
    requires Cleared(m, r, d, PagesFor(0), PagesFor(KERNBASE))
    ensures Bare(r, d, 0)
  {
    assert PagesFor(0) == 0 && PagesFor(KERNBASE) == USER;
  }

  /**
   deallocuvm unmaps every page between the sizes if and only if, where the table of the first of them
   is missing, no page is mapped at a lower place in the first table after it that is there. In
   particular it does so from a table's first page on, and freevm frees everything.
   */
  lemma SkipExact(m: Mem, r: Mem, d: nat, lo: nat, hi: nat)
    requires Cleared(m, r, d, lo, hi) && hi <= USER
    ensures (forall w: nat :: lo <= w < hi ==> !Pte(r, d, w).To?)
       <==> (forall w: nat :: lo <= w < hi && Skipped(m, d, lo, w) ==> !Pte(m, d, w).To?)
    ensures lo % NPT == 0 || Pde(m, d, lo / NPT).To? ==> forall w: nat :: lo <= w < hi ==> !Pte(r, d, w).To?
  {
    assert forall w: nat :: Skipped(m, d, lo, w) ==> lo % NPT != 0 && !Pde(m, d, lo / NPT).To?;
  }

  /** The page in hand is not one of the space's, so a table added to the space leaves it alone. */
  lemma StillLost(m: Mem, owner: map<nat, Use>, u: Mem, mid: map<nat, Use>, d: nat, p: nat)
    requires Outside(m, owner, u, mid, d) && p in owner && owner[p].Lost?
    ensures p in mid && mid[p].Lost?
  {
  }

  lemma OutsideLost(m: Mem, was: map<nat, Use>, u: Mem, mid: map<nat, Use>, u': Mem, r: Mem, now: map<nat, Use>, d: nat, p: nat)
    requires Outside(m, was, u, mid, d) && u'.pages == u.pages && Outside(u', mid - {p}, r, now, d) && p in was && was[p].Lost?
    ensures Outside(m, was - {p}, r, now, d)
  {
    forall e: nat | IsDir(was - {p}, e) && e != d
      ensures SameSpace(m, r, e)
    {
      assert IsDir(was, e) && SameSpace(m, u, e) && IsDir(mid, e) && IsDir(mid - {p}, e) && SameSpace(u', r, e);
    }
  }

  /** Pages `lo` to `hi` are new and zero, the rest of the space is as it was. */
  ghost predicate Grown(m: Mem, r: Mem, d: nat, lo: nat, hi: nat) {
    forall w: nat :: w < USER ==>
      && (Pte(r, d, w).To? <==> lo <= w < hi || Pte(m, d, w).To?)
      && View(r, d, w) == if lo <= w < hi then Sees(7, Zeros()) else View(m, d, w)
  }

  /**
   Of the pages from `lo` to `hi` none is left: those that were new are gone again, and so is any that was
   there before, unless no page could be mapped at all and the jump over a missing table skips it.
   */
  ghost predicate Undone(m: Mem, r: Mem, d: nat, lo: nat, hi: nat, f: nat) {
    forall w: nat :: w < USER ==>
      var gone := lo <= w < hi && !(f < Cost(m, d, lo, lo + 1) && Skipped(m, d, lo, w));
      (Pte(r, d, w).To? <==> !gone && Pte(m, d, w).To?) && View(r, d, w) == if gone then Nothing else View(m, d, w)
  }

  lemma GrownSame(m: Mem, u: Mem, r: Mem, d: nat, lo: nat, v: nat)
    requires Grown(m, u, d, lo, v) && SameSpace(u, r, d)
    ensures Grown(m, r, d, lo, v)
  {
  }

  lemma GrowsOn(m: Mem, u: Mem, r: Mem, d: nat, lo: nat, v: nat)
    requires Grown(m, u, d, lo, v) && lo <= v
    requires forall w: nat :: w < USER ==>
      (Pte(r, d, w).To? <==> w == v || Pte(u, d, w).To?) && View(r, d, w) == if w == v then Sees(7, Zeros()) else View(u, d, w)
    ensures Grown(m, r, d, lo, v + 1)
  {
  }

  /** There are pages enough to map pages `lo` to `hi`. */
  ghost predicate Suffices(m: Mem, d: nat, lo: nat, hi: nat, f: nat) {
    f >= Cost(m, d, lo, hi)
  }

  /** With `f` free pages, the last of them is wanted twice at page `v`: for the page and for its table. */
  ghost predicate LostAt(m: Mem, d: nat, lo: nat, v: int, f: nat) {
    v >= lo && f == Cost(m, d, lo, v) + 1 && Opens(m, d, lo, v)
  }

  ghost predicate Loses(m: Mem, d: nat, lo: nat, hi: nat, f: nat) {
    exists v :: lo <= v < hi && LostAt(m, d, lo, v, f)
  }

  /** One page too few, and the last page is the first in a table that is not there. */
  ghost predicate LosesLast(m: Mem, d: nat, lo: nat, hi: nat, f: nat) {
    hi > lo && f == Cost(m, d, lo, hi) - 1 && Opens(m, d, lo, hi - 1)
  }

  /** The pages last to one that is already mapped. */
  ghost predicate Remaps(m: Mem, d: nat, lo: nat, hi: nat, f: nat)
    requires lo <= hi
  {
    FirstMapped(m, d, lo, hi) < hi && f > Cost(m, d, lo, FirstMapped(m, d, lo, hi))
  }

  /**
   What allocuvm comes to with `f` free pages: all pages and the new size; the new size, but the last page
   is lost and not mapped; or 0 and all undone, one page being lost or not on the way.
   */
  ghost predicate Ends(m: Mem, r: Mem, d: nat, lo: nat, hi: nat, f: nat, sz: nat, newsz: nat, lost: set<nat>) {
    && (Suffices(m, d, lo, hi, f) ==> sz == newsz && lost == {} && Reaches(m, r, d, lo, hi) && |r.free| == f - Cost(m, d, lo, hi))
    && (LosesLast(m, d, lo, hi, f) ==> sz == newsz && |lost| == 1 && Reaches(m, r, d, lo, hi - 1) && r.free == [])
    && (!Suffices(m, d, lo, hi, f) && !LosesLast(m, d, lo, hi, f) ==> sz == 0 && Undone(m, r, d, lo, hi, f))
    && (lost != {} <==> Loses(m, d, lo, hi, f))
  }

  /** What allocuvm comes to, and that nothing else has changed. */
  ghost predicate Allotted(m: Mem, was: map<nat, Use>, r: Mem, now: map<nat, Use>, d: nat, lo: nat, hi: nat, f: nat, sz: nat, newsz: nat,
                           lost: set<nat>) {
    forall k: nat {:trigger AllotOpen(k)} :: AllotOpen(k) ==>
      Stray(was, now, lost) && Outside(m, was, r, now - lost, d) && Ends(m, r, d, lo, hi, f, sz, newsz, lost)
  }

  lemma AllotIs(m: Mem, was: map<nat, Use>, r: Mem, now: map<nat, Use>, d: nat, lo: nat, hi: nat, f: nat, sz: nat,
                newsz: nat, lost: set<nat>)
    requires Allotted(m, was, r, now, d, lo, hi, f, sz, newsz, lost)
    ensures Stray(was, now, lost) && Outside(m, was, r, now - lost, d) && Ends(m, r, d, lo, hi, f, sz, newsz, lost)
  {
    assert AllotOpen(0);
  }

  /** Pages `lo` to `v` are new, and so are the tables they need. */
  ghost predicate Reaches(m: Mem, r: Mem, d: nat, lo: nat, v: nat) {
    Grown(m, r, d, lo, v) && Tabled(m, r, d, lo, v)
  }

  /** kalloc failed at page `v`, after a page was lost or not. */
  lemma OutOfPages(m: Mem, d: nat, lo: nat, v: nat, hi: nat, f: nat, lost: bool)
    requires lo <= v < hi && v <= FirstMapped(m, d, lo, hi) && if lost then LostAt(m, d, lo, v - 1, f) else f == Cost(m, d, lo, v)
    ensures !Suffices(m, d, lo, hi, f) && !LosesLast(m, d, lo, hi, f) && (Loses(m, d, lo, hi, f) <==> lost) && !Remaps(m, d, lo, hi, f)
  {
    CostGrows(m, d, lo, v, hi - 1);
    CostGrows(m, d, lo, v, FirstMapped(m, d, lo, hi));
    if lost {
      assert lo <= v - 1 < hi && LostAt(m, d, lo, v - 1, f);
    } else {
      forall w | lo <= w < hi
        ensures !LostAt(m, d, lo, w, f)
      {
        if w < v { CostGrows(m, d, lo, w + 1, v); } else { CostGrows(m, d, lo, v, w); }
      }
    }
  }

  /** The loop of allocuvm came to its end. */
  lemma Reached(m: Mem, d: nat, lo: nat, hi: nat, f: nat, lost: set<nat>)
    requires lo <= hi && |lost| <= 1
    requires if lost == {} then f >= Cost(m, d, lo, hi) else LostAt(m, d, lo, hi - 1, f)
    ensures Suffices(m, d, lo, hi, f) <==> lost == {}
    ensures LosesLast(m, d, lo, hi, f) <==> lost != {}
    ensures Loses(m, d, lo, hi, f) <==> lost != {}
  {
    if lost != {} {
      assert lo <= hi - 1 < hi && LostAt(m, d, lo, hi - 1, f);
    } else {
      forall w | lo <= w < hi ensures !LostAt(m, d, lo, w, f) { CostGrows(m, d, lo, w + 1, hi); }
    }
  }

  /** allocuvm has come to page `v`: all pages before it are there, save one that was lost. */
  ghost predicate Growing(m: Mem, was: map<nat, Use>, r: Mem, now: map<nat, Use>, d: nat, lo: nat, v: nat, lost: set<nat>) {
    && was.Keys <= now.Keys && Stray(was, now, lost) && lo + |lost| <= v
    && Outside(m, was, r, now - lost, d) && Reaches(m, r, d, lo, v - |lost|)
  }

  /** And this is how many pages it took, of `f`. */
  ghost predicate Climbs(m: Mem, was: map<nat, Use>, r: Mem, now: map<nat, Use>, d: nat, lo: nat, v: nat, f: nat, lost: set<nat>) {
    forall k: nat {:trigger ClimbOpen(k)} :: ClimbOpen(k) && k == v ==>
      && Growing(m, was, r, now, d, lo, v, lost)
      && (lost == {} ==> |r.free| == f - Cost(m, d, lo, v))
      && (lost != {} ==> r.free == [] && LostAt(m, d, lo, v - 1, f))
  }

  lemma ClimbStart(m: Mem, was: map<nat, Use>, d: nat, lo: nat, f: nat)
    requires f == |m.free|
    ensures Climbs(m, was, m, was, d, lo, lo, f, {})
  {
    NothingChanged(m, was, d);
    assert was - {} == was;
  }

  lemma ClimbAt(m: Mem, was: map<nat, Use>, r: Mem, now: map<nat, Use>, d: nat, lo: nat, v: nat, f: nat, lost: set<nat>)
    requires Climbs(m, was, r, now, d, lo, v, f, lost) && lo <= v < USER
    ensures Pte(r, d, v).To? <==> Pte(m, d, v).To?
    ensures if lost == {} then |r.free| == f - Cost(m, d, lo, v) else r.free == [] && LostAt(m, d, lo, v - 1, f)
  {
    assert ClimbOpen(v);
  }

  lemma ClimbAdded(m: Mem, was: map<nat, Use>, u: Mem, mid: map<nat, Use>, r: Mem, now: map<nat, Use>, d: nat, lo: nat, v: nat, f: nat)
    requires Climbs(m, was, u, mid, d, lo, v, f, {}) && mid.Keys <= now.Keys && lo <= v < USER
    requires OneMore(u, mid, r, now, d, v, Sees(7, Zeros())) && |r.free| == |u.free| - if Pde(u, d, v / NPT).To? then 1 else 2
    requires Pde(r, d, v / NPT).To? && forall x: nat :: x != v / NPT ==> Pde(r, d, x) == Pde(u, d, x)
    ensures Climbs(m, was, r, now, d, lo, v + 1, f, {})
  {
    assert Growing(m, was, u, mid, d, lo, v, {}) && |u.free| == f - Cost(m, d, lo, v) by { assert ClimbOpen(v); }
    GrowingAdded(m, was, u, mid, r, now, d, lo, v);
    TabledAt(m, u, d, lo, v);
  }

  lemma ClimbShort(m: Mem, was: map<nat, Use>, u: Mem, mid: map<nat, Use>, r: Mem, now: map<nat, Use>, d: nat, lo: nat, v: nat, f: nat,
                   lost: set<nat>)
    requires Climbs(m, was, u, mid, d, lo, v, f, {}) && mid.Keys <= now.Keys && Stray(mid, now, lost) && |lost| == 1 && lo <= v < USER
    requires Outside(u, mid, r, now - lost, d) && SameSpace(u, r, d) && |u.free| == 1 && r.free == [] && !Pde(u, d, v / NPT).To?
    ensures Climbs(m, was, r, now, d, lo, v + 1, f, lost)
  {
    assert Growing(m, was, u, mid, d, lo, v, {}) && |u.free| == f - Cost(m, d, lo, v) by { assert ClimbOpen(v); }
    GrowingShort(m, was, u, mid, r, now, d, lo, v, lost);
    TabledAt(m, u, d, lo, v);
  }

  /** When the pages have run out at page `v`, were any mapped? */
  lemma ClimbCount(m: Mem, was: map<nat, Use>, u: Mem, mid: map<nat, Use>, d: nat, lo: nat, v: nat, f: nat, lost: set<nat>)
    requires Climbs(m, was, u, mid, d, lo, v, f, lost) && lo <= v && u.free == []
    ensures |lost| <= v - lo && if v - |lost| > lo then f >= Cost(m, d, lo, lo + 1) else f < Cost(m, d, lo, lo + 1)
  {
    assert ClimbOpen(v);
    assert |lost| <= 1 && (lost != {} ==> |lost| == 1);
    if v - |lost| > lo { CostGrows(m, d, lo, lo + 1, v - |lost|); }
  }

  lemma ClimbUndone(m: Mem, was: map<nat, Use>, u: Mem, mid: map<nat, Use>, r: Mem, now: map<nat, Use>, d: nat, lo: nat, v: nat,
                    lost: set<nat>, f: nat, hi: nat, newsz: nat)
    requires Climbs(m, was, u, mid, d, lo, v, f, lost) && Outside(u, mid, r, now, d) && Cleared(u, r, d, lo, hi)
    requires lo <= v <= hi <= USER && u.free == []
    requires !Suffices(m, d, lo, hi, f) && !LosesLast(m, d, lo, hi, f) && (Loses(m, d, lo, hi, f) <==> lost != {})
    ensures Allotted(m, was, r, now, d, lo, hi, f, 0, newsz, lost)
  {
    assert Growing(m, was, u, mid, d, lo, v, lost) by { assert ClimbOpen(v); }
    var w := v - |lost|;
    ClimbCount(m, was, u, mid, d, lo, v, f, lost);
    OutsideLess(u, mid, r, now, d, lost);
    OutsideTwice(m, was, u, mid - lost, r, now - lost, d);
    GrownUndone(m, u, r, d, lo, w, hi, f);
  }

  lemma ClimbDone(m: Mem, was: map<nat, Use>, r: Mem, now: map<nat, Use>, d: nat, lo: nat, hi: nat, f: nat, lost: set<nat>, newsz: nat)
    requires Climbs(m, was, r, now, d, lo, hi, f, lost) && lo <= hi
    ensures Allotted(m, was, r, now, d, lo, hi, f, newsz, newsz, lost)
  {
    assert ClimbOpen(hi);
    Reached(m, d, lo, hi, f, lost);
  }

  lemma GrowingAdded(m: Mem, was: map<nat, Use>, u: Mem, mid: map<nat, Use>, r: Mem, now: map<nat, Use>, d: nat, lo: nat, v: nat)
    requires Growing(m, was, u, mid, d, lo, v, {}) && mid.Keys <= now.Keys && lo <= v < USER
    requires OneMore(u, mid, r, now, d, v, Sees(7, Zeros()))
    requires Pde(r, d, v / NPT).To? && forall x: nat :: x != v / NPT ==> Pde(r, d, x) == Pde(u, d, x)
    ensures Growing(m, was, r, now, d, lo, v + 1, {})
  {
    assert mid - {} == mid && now - {} == now;
    OutsideTwice(m, was, u, mid, r, now, d);
    GrowsOn(m, u, r, d, lo, v);
    TabledMore(m, u, r, d, lo, v);
  }

  lemma GrowingShort(m: Mem, was: map<nat, Use>, u: Mem, mid: map<nat, Use>, r: Mem, now: map<nat, Use>, d: nat,
                     lo: nat, v: nat, lost: set<nat>)
    requires Growing(m, was, u, mid, d, lo, v, {}) && mid.Keys <= now.Keys && Stray(mid, now, lost) && |lost| == 1
    requires Outside(u, mid, r, now - lost, d) && SameSpace(u, r, d)
    ensures Growing(m, was, r, now, d, lo, v + 1, lost)
  {
    assert mid - {} == mid;
    OutsideTwice(m, was, u, mid, r, now - lost, d);
    GrownSame(m, u, r, d, lo, v);
  }

  /** deallocuvm after pages `lo` to `v` were mapped. */
  lemma GrownUndone(m: Mem, u: Mem, r: Mem, d: nat, lo: nat, v: nat, hi: nat, f: nat)
    requires Reaches(m, u, d, lo, v) && Cleared(u, r, d, lo, hi) && lo <= v <= hi <= USER
    requires if v > lo then f >= Cost(m, d, lo, lo + 1) else f < Cost(m, d, lo, lo + 1)
    ensures Undone(m, r, d, lo, hi, f)
  {
    if v > lo {
      assert Pte(u, d, lo).To?;
    } else {
      forall w: nat | w < USER ensures Skipped(u, d, lo, w) <==> Skipped(m, d, lo, w) { SkippedSame(m, u, d, lo, w); }
    }
  }

  lemma SkippedSame(m: Mem, u: Mem, d: nat, lo: nat, w: nat)
    requires Tabled(m, u, d, lo, lo) && w < USER
    ensures Skipped(u, d, lo, w) <==> Skipped(m, d, lo, w)
  {
    assert w / NPT < USER / NPT;
  }

  /** freevm has freed the tables of the first `k` directory entries. */
  ghost predicate Freeing(m: Mem, r: Mem, owner: map<nat, Use>, d: nat, k: nat) {
    && Touches(m, r, owner, d) && d < |m.pages| && r.pages[d] == m.pages[d] && Distinct(r.free)
    && (forall q: nat :: q in r.free <==> q in m.free || Named(m, d, k, q))
  }

  ghost predicate Named(m: Mem, d: nat, k: nat, q: nat) {
    exists x :: 0 <= x < k && Pde(m, d, x).To? && Pde(m, d, x).frame == q
  }

  lemma FreeingNone(m: Mem, owner: map<nat, Use>, res: nat, d: nat)
    requires Owned(m, owner, res) && IsDir(owner, d)
    ensures Freeing(m, m, owner, d, 0)
  {
    Parts(m, owner, res, d);
    assert Distinct(m.free) by { assert PageOpen(0); }
  }

  lemma FreeingSame(m: Mem, u: Mem, owner: map<nat, Use>, d: nat, x: nat)
    requires Freeing(m, u, owner, d, x) && !Pde(m, d, x).To?
    ensures Freeing(m, u, owner, d, x + 1)
  {
    assert forall q: nat :: Named(m, d, x + 1, q) <==> Named(m, d, x, q);
  }

  lemma FreeingMore(m: Mem, u: Mem, owner: map<nat, Use>, res: nat, d: nat, x: nat)
    requires Owned(m, owner, res) && IsDir(owner, d) && Freeing(m, u, owner, d, x) && Pde(m, d, x).To?
    ensures Pde(m, d, x).frame < |u.pages| && Freeing(m, Free(u, Pde(m, d, x).frame, Junk()), owner, d, x + 1)
  {
    Parts(m, owner, res, d);
    var t := Pde(m, d, x).frame;
    assert t !in m.free by { assert PageOpen(0); }
    assert !Named(m, d, x, t);
    forall q: nat
      ensures Named(m, d, x + 1, q) <==> Named(m, d, x, q) || q == t
    {
      if q == t { assert 0 <= x < x + 1 && Pde(m, d, x).frame == q; }
    }
    var r := Free(u, t, Junk());
    assert forall i :: 0 <= i < |u.free| ==> u.free[i] in u.free;
  }

  lemma FreedAll(u: Mem, w: Mem, mid: map<nat, Use>, res: nat, d: nat)
    requires Owned(u, mid, res) && IsDir(mid, d) && Bare(u, d, 0) && Freeing(u, w, mid, d, NPT)
    ensures d < |w.pages| && Owned(Free(w, d, Junk()), mid - PagesOf(mid, d), res) && Touches(u, Free(w, d, Junk()), mid, d)
  {
    Parts(u, mid, res, d);
    var r := Free(w, d, Junk());
    assert d !in u.free by { assert PageOpen(0); }
    assert !Named(u, d, NPT, d);
    assert forall i :: 0 <= i < |w.free| ==> w.free[i] in w.free;
    forall q: nat ensures q in r.free <==> q in u.free || q in PagesOf(mid, d) { SpacePages(u, mid, res, d, q); }
    DropSpace(u, r, mid, res, d);
  }

  lemma LeavesOthers(m: Mem, was: map<nat, Use>, u: Mem, mid: map<nat, Use>, res: nat, r: Mem, d: nat)
    requires Outside(m, was, u, mid, d) && Owned(u, mid, res) && Touches(u, r, mid, d)
    ensures mid - PagesOf(mid, d) == was - PagesOf(was, d) && Outside(m, was, r, was - PagesOf(was, d), d)
  {
    forall e: nat | IsDir(mid, e) && e != d ensures SameSpace(u, r, e) { OthersSame(u, r, mid, res, d, e); }
    OutsideTwice(m, was, u, mid, r, mid - PagesOf(mid, d), d);
  }

  /** The kernel's pages are distinct and above the user's. */
  predicate KmapOk(ks: seq<Kmap>) {
    && (forall i :: 0 <= i < |ks| ==> USER <= ks[i].v < NPT * NPT)
    && (forall i, j :: 0 <= i < j < |ks| ==> ks[i].v != ks[j].v)
  }

  /** The tables the first `i` of them are in. */
  function Tables(ks: seq<Kmap>, i: nat): (s: set<nat>)
    requires i <= |ks|
  {
    if i == 0 then {} else Tables(ks, i - 1) + {ks[i - 1].v / NPT}
  }

  /** The pages a new space takes: its directory and the kernel's tables. */
  function SetupCost(ks: seq<Kmap>): (c: nat) {
    1 + |Tables(ks, |ks|)|
  }

  /** The first `i` of them are mapped in space `d`, and nothing else. */
  ghost predicate Kernel(m: Mem, d: nat, ks: seq<Kmap>, i: nat)
    requires i <= |ks|
  {
    forall k: nat {:trigger KernelOpen(k)} :: KernelOpen(k) && k == i ==>
      && Bottom(m, d) && (forall w: nat :: w < NPT * NPT ==> Pte(m, d, w) == KernelPte(ks, i, w))
      && (forall x: nat :: Pde(m, d, x).To? <==> x in Tables(ks, i))
  }

  lemma KernelStart(m: Mem, d: nat, ks: seq<Kmap>)
    requires IsTable(m, d) && m.pages[d] == Blank()
    ensures Kernel(m, d, ks, 0)
  {
  }

  lemma KernelAt(m: Mem, d: nat, ks: seq<Kmap>, i: nat)
    requires KmapOk(ks) && i < |ks| && Kernel(m, d, ks, i)
    ensures Bottom(m, d) && Pte(m, d, ks[i].v) == None && (Pde(m, d, ks[i].v / NPT).To? <==> ks[i].v / NPT in Tables(ks, i))
    ensures |Tables(ks, i + 1)| == |Tables(ks, i)| + if ks[i].v / NPT in Tables(ks, i) then 0 else 1
  {
    assert KernelOpen(i);
    NotYet(ks, i, i);
    if ks[i].v / NPT in Tables(ks, i) { assert Tables(ks, i + 1) == Tables(ks, i); }
  }

  lemma KernelMore(u: Mem, r: Mem, d: nat, ks: seq<Kmap>, i: nat)
    requires KmapOk(ks) && i < |ks| && Kernel(u, d, ks, i) && Bottom(r, d)
    requires forall w: nat :: w < NPT * NPT ==> Pte(r, d, w) == if w == ks[i].v then To(ks[i].frame, ks[i].flags) else Pte(u, d, w)
    requires Pde(r, d, ks[i].v / NPT).To? && forall x: nat :: x != ks[i].v / NPT ==> Pde(r, d, x) == Pde(u, d, x)
    ensures Kernel(r, d, ks, i + 1)
  {
    assert KernelOpen(i);
  }

  lemma KernelDone(m: Mem, d: nat, ks: seq<Kmap>)
    requires Kernel(m, d, ks, |ks|)
    ensures Bottom(m, d) && forall w: nat :: w < NPT * NPT ==> Pte(m, d, w) == KernelPte(ks, |ks|, w)
  {
    assert KernelOpen(|ks|);
  }

  lemma {:induction false} MoreTables(ks: seq<Kmap>, i: nat, j: nat)
    requires i <= j <= |ks|
    ensures |Tables(ks, i)| <= |Tables(ks, j)|
    decreases j
  {
    if i < j {
      MoreTables(ks, i, j - 1);
      if ks[j - 1].v / NPT in Tables(ks, j - 1) { assert Tables(ks, j) == Tables(ks, j - 1); }
    }
  }

  /** The entry of page `w` once the first `i` of them are mapped. */
  function KernelPte(ks: seq<Kmap>, i: nat, w: nat): (e: Entry)
    requires i <= |ks|
  {
    if i == 0 then None else if ks[i - 1].v == w then To(ks[i - 1].frame, ks[i - 1].flags) else KernelPte(ks, i - 1, w)
  }

  lemma {:induction false} NotYet(ks: seq<Kmap>, i: nat, j: nat)
    requires KmapOk(ks) && i <= j < |ks|
    ensures KernelPte(ks, i, ks[j].v) == None
    decreases i
  {
    if i > 0 { NotYet(ks, i - 1, j); }
  }

  lemma {:induction false} UserBare(ks: seq<Kmap>, i: nat, w: nat)
    requires KmapOk(ks) && i <= |ks| && w < USER
    ensures KernelPte(ks, i, w) == None
    decreases i
  {
    if i > 0 { UserBare(ks, i - 1, w); }
  }

  /** The first `n` pages of space `e` in `r` look like those of space `s` in `m`, and there are no others. */
  ghost predicate Copied(m: Mem, s: nat, r: Mem, e: nat, n: nat) {
    Bare(r, e, n) && forall w: nat :: w < n && w < USER ==> View(r, e, w) == View(m, s, w)
  }

  lemma CopiesOn(m: Mem, s: nat, u: Mem, r: Mem, e: nat, v: nat, sight: Sight)
    requires Copied(m, s, u, e, v) && v < USER && sight == View(m, s, v)
    requires forall w: nat :: w < USER ==>
      (Pte(r, e, w).To? <==> w == v || Pte(u, e, w).To?) && View(r, e, w) == if w == v then sight else View(u, e, w)
    ensures Copied(m, s, r, e, v + 1)
  {
  }

  /** Freeing a space that was not there before leaves what was there before. */
  lemma AllBack(m: Mem, was: map<nat, Use>, u: Mem, mid: map<nat, Use>, e: nat)
    requires Outside(m, was, u, mid, e) && forall p :: p in was ==> Of(was, p) != e
    ensures mid - PagesOf(mid, e) == was
  {
  }

  lemma AllFreed(m: Mem, was: map<nat, Use>, r: Mem, now: map<nat, Use>, res: nat, d: nat)
    requires Owned(m, was, res) && Owned(r, now, res) && |r.pages| == |m.pages| && IsDir(was, d) && now == was - PagesOf(was, d)
    ensures |r.free| == |m.free| + |PagesOf(was, d)|
  {
    FreeFacts(m, was, res);
    FreeCount(m, was, res);
    FreeCount(r, now, res);
    assert PagesOf(was, d) <= was.Keys && now.Keys == was.Keys - PagesOf(was, d);
    assert |now.Keys| == |was.Keys| - |PagesOf(was, d)|;
  }

  /** A page number that was not in use names no space. */
  lemma FreshSpace(m: Mem, owner: map<nat, Use>, res: nat, e: nat)
    requires Owned(m, owner, res) && e !in owner
    ensures forall p :: p in owner ==> Of(owner, p) != e
  {
    assert PageOpen(0);
    forall p | p in owner ensures Of(owner, p) != e { assert Backed(m, owner, res, p); }
  }

  // ---------------------------------------------------------------- runs

  /** The calls that change address spaces, when no page is lost in them. */
  datatype Call =
    | Setup(d: nat)
    | Alloc(d: nat, oldsz: nat, newsz: nat, sz: nat)
    | Dealloc(d: nat, oldsz: nat, newsz: nat)
    | CopyOf(s: nat, d: nat, sz: nat)
    | FreeSpace(d: nat)

  /** What an allocuvm that loses no page and returns `sz` does to the space. */
  ghost predicate Resized(m: Mem, r: Mem, d: nat, oldsz: nat, newsz: nat, sz: nat) {
    var lo, hi := PagesFor(oldsz), PagesFor(newsz);
    if !(oldsz <= newsz < KERNBASE) then sz == (if newsz >= KERNBASE then 0 else oldsz) && r == m
    else if sz == newsz then Grown(m, r, d, lo, hi)
    else sz == 0 && Undone(m, r, d, lo, hi, |m.free|)
  }

  /** The call takes memory and uses from the first state to the second. */
  ghost predicate Did(m: Mem, owner: map<nat, Use>, r: Mem, now: map<nat, Use>, res: nat, call: Call) {
    && Owned(m, owner, res) && Owned(r, now, res) && Outside(m, owner, r, now, call.d)
    && match call
       case Setup(d) => d !in owner && IsDir(now, d) && Bottom(r, d)
       case Alloc(d, oldsz, newsz, sz) => IsDir(owner, d) && IsDir(now, d) && Resized(m, r, d, oldsz, newsz, sz)
       case Dealloc(d, oldsz, newsz) => IsDir(owner, d) && IsDir(now, d) && Cleared(m, r, d, PagesFor(newsz), PagesFor(oldsz))
       case CopyOf(s, d, sz) => IsDir(owner, s) && d !in owner && IsDir(now, d) && Copied(m, s, r, d, PagesFor(sz))
       case FreeSpace(d) => now == owner - PagesOf(owner, d)
  }

  /** The spaces set up and not freed by the first `k` calls. */
  ghost function Opened(calls: seq<Call>, k: nat): (s: set<nat>)
    requires k <= |calls|
  {
    if k == 0 then {}
    else match calls[k - 1]
      case Setup(d) => Opened(calls, k - 1) + {d}
      case CopyOf(_, d, _) => Opened(calls, k - 1) + {d}
      case FreeSpace(d) => Opened(calls, k - 1) - {d}
      case _ => Opened(calls, k - 1)
  }

  /** A run of calls that grow, shrink and free only spaces set up in it. */
  ghost predicate Run(ms: seq<Mem>, os: seq<map<nat, Use>>, calls: seq<Call>, res: nat) {
    && |ms| == |os| == |calls| + 1
    && (forall k :: 0 <= k < |calls| ==> Did(ms[k], os[k], ms[k + 1], os[k + 1], res, calls[k]))
    && (forall k :: 0 <= k < |calls| && !calls[k].Setup? && !calls[k].CopyOf? ==> calls[k].d in Opened(calls, k))
  }

  lemma CallKeeps(m0: Mem, o0: map<nat, Use>, m: Mem, owner: map<nat, Use>, r: Mem, now: map<nat, Use>, res: nat,
                  call: Call, a: set<nat>, b: set<nat>)
    requires Owned(m0, o0, res) && Did(m, owner, r, now, res, call)
    requires b == if call.Setup? || call.CopyOf? then a + {call.d} else if call.FreeSpace? then a - {call.d} else a
    requires call.Setup? || call.CopyOf? || call.d in a
    requires forall p :: p in o0 ==> p in owner && owner[p] == o0[p]
    requires (forall p :: p in owner && p !in o0 ==> Of(owner, p) in a) && forall d :: d in a ==> d !in o0
    ensures |r.pages| == |m.pages| && forall p :: p in o0 ==> p in now && now[p] == o0[p]
    ensures (forall p :: p in now && p !in o0 ==> Of(now, p) in b) && forall d :: d in b ==> d !in o0
  {
    FreshSpace(m0, o0, res, call.d);
    forall p | p in o0 ensures p in now && now[p] == o0[p] { assert Of(owner, p) == Of(o0, p) != call.d; }
    forall p | p in now && p !in o0
      ensures Of(now, p) in b
    {
      if Of(now, p) != call.d { assert p in owner && now[p] == owner[p] && Of(owner, p) in a; }
    }
  }

  /** What was in use at the start still is, and what is new belongs to a space that is open. */
  lemma {:induction false} RunKeeps(ms: seq<Mem>, os: seq<map<nat, Use>>, calls: seq<Call>, res: nat, k: nat)
    requires Run(ms, os, calls, res) && k <= |calls| && Owned(ms[0], os[0], res)
    ensures |ms[k].pages| == |ms[0].pages|
    ensures forall p :: p in os[0] ==> p in os[k] && os[k][p] == os[0][p]
    ensures forall p :: p in os[k] && p !in os[0] ==> Of(os[k], p) in Opened(calls, k)
    ensures forall d :: d in Opened(calls, k) ==> d !in os[0]
    decreases k
  {
    if k > 0 {
      RunKeeps(ms, os, calls, res, k - 1);
      assert Did(ms[k - 1], os[k - 1], ms[k - 1 + 1], os[k - 1 + 1], res, calls[k - 1]);
      CallKeeps(ms[0], os[0], ms[k - 1], os[k - 1], ms[k], os[k], res, calls[k - 1], Opened(calls, k - 1), Opened(calls, k));
    }
  }

  /** A run that frees every space it set up gives every page back. */
  lemma RunRestores(ms: seq<Mem>, os: seq<map<nat, Use>>, calls: seq<Call>, res: nat)
    requires Run(ms, os, calls, res) && Owned(ms[0], os[0], res) && Owned(ms[|calls|], os[|calls|], res)
    requires Opened(calls, |calls|) == {}
    ensures os[|calls|] == os[0] && forall p: nat :: p in ms[|calls|].free <==> p in ms[0].free
  {
    RunKeeps(ms, os, calls, res, |calls|);
    Conservation(ms[0], ms[|calls|], os[0], os[|calls|], res);
  }
}
