/**
 Address spaces of vm.c on values: page directories, page tables and frames, and which page of
 physical memory serves what. A page is its number; an address space is the page number of its
 directory.
 */
module VmSpec {
  import opened Sealing

  const NPT: nat := 1024
  const USER: nat := 524288

  datatype Entry = None | To(frame: nat, flags: nat)

  /** A page read as bytes, or as a directory or table. */
  datatype Page = Data(bytes: seq<nat>) | Table(es: seq<Entry>)

  datatype Mem = Mem(free: seq<nat>, pages: seq<Page>)

  /** What a page is used for. `Lost`: taken and then neither mapped nor freed. */
  datatype Use = Root | Tbl(d: nat, x: nat) | Frame(d: nat, v: nat) | Lost

  function Blank(): (p: Page) {
    Table(seq(NPT, _ => None))
  }

  predicate IsTable(m: Mem, p: nat) {
    p < |m.pages| && m.pages[p].Table? && |m.pages[p].es| == NPT
  }

  /** The page directory entry. */
  function Pde(m: Mem, d: nat, x: nat): (e: Entry) {
    if IsTable(m, d) && x < NPT then m.pages[d].es[x] else None
  }

  /** The page table entry of page `v`, as walkpgdir finds it. */
  function Pte(m: Mem, d: nat, v: nat): (e: Entry) {
    var pde := Pde(m, d, v / NPT);
    if pde.To? && IsTable(m, pde.frame) then m.pages[pde.frame].es[v % NPT] else None
  }

  /** What a program sees at page `v`: nothing, or flags and contents. */
  datatype Sight = Nothing | Sees(flags: nat, page: Page)

  function View(m: Mem, d: nat, v: nat): (s: Sight) {
    var e := Pte(m, d, v);
    if e.To? && e.frame < |m.pages| then Sees(e.flags, m.pages[e.frame]) else Nothing
  }

  // ---------------------------------------------------------------- ownership

  predicate IsDir(owner: map<nat, Use>, d: nat) {
    d in owner && owner[d].Root?
  }

  ghost predicate ClaimsTable(m: Mem, owner: map<nat, Use>, d: nat, x: nat) {
    IsDir(owner, d) && Pde(m, d, x).To? ==> Pde(m, d, x).frame in owner && owner[Pde(m, d, x).frame] == Tbl(d, x)
  }

  ghost predicate ClaimsFrame(m: Mem, owner: map<nat, Use>, d: nat, v: nat) {
    IsDir(owner, d) && v < USER && Pte(m, d, v).To? ==> Pte(m, d, v).frame in owner && owner[Pte(m, d, v).frame] == Frame(d, v)
  }

  /** A page in use is there, above the kernel's own, and where its use says. */
  ghost predicate Backed(m: Mem, owner: map<nat, Use>, res: nat, p: nat)
    requires p in owner
  {
    && res <= p < |m.pages|
    && match owner[p]
       case Root => IsTable(m, p)
       case Tbl(d, x) => IsDir(owner, d) && x < NPT && Pde(m, d, x).To? && Pde(m, d, x).frame == p && IsTable(m, p)
       case Frame(d, v) => IsDir(owner, d) && v < USER && Pte(m, d, v).To? && Pte(m, d, v).frame == p
       case Lost => true
  }

  predicate Distinct(s: seq<nat>) {
    forall i, j :: 0 <= i < j < |s| ==> s[i] != s[j]
  }

  ghost predicate Ownership(m: Mem, owner: map<nat, Use>, res: nat) {
    && (forall d: nat, x: nat :: ClaimsTable(m, owner, d, x))
    && (forall d: nat, v: nat :: ClaimsFrame(m, owner, d, v))
    && (forall p :: p in owner ==> Backed(m, owner, res, p))
    && (forall p: nat :: p in m.free <==> res <= p < |m.pages| && p !in owner)
    && Distinct(m.free)
  }

  /** Every page above the kernel's own is either free, once, or in use for one thing. */
  ghost predicate Owned(m: Mem, owner: map<nat, Use>, res: nat) {
    && res > 0
    && forall k: nat {:trigger PageOpen(k)} :: PageOpen(k) ==> Ownership(m, owner, res)
  }

  /** The address space a page belongs to. */
  function Of(owner: map<nat, Use>, p: nat): (d: int) {
    if p !in owner then -1 else match owner[p] case Root => p case Tbl(d, _) => d case Frame(d, _) => d case Lost => -1
  }

  /** The free pages are the pages not in use: equal uses, equal free pages. */
  lemma Conservation(m: Mem, r: Mem, owner: map<nat, Use>, owner': map<nat, Use>, res: nat)
    requires Owned(m, owner, res) && Owned(r, owner', res) && |r.pages| == |m.pages| && owner'.Keys == owner.Keys
    ensures forall p: nat :: p in r.free <==> p in m.free
  {
    assert PageOpen(0);
  }

  /** Two address spaces share no frame and no table. */
  lemma NoSharing(m: Mem, owner: map<nat, Use>, res: nat, d: nat, v: nat, e: nat, w: nat)
    requires Owned(m, owner, res) && IsDir(owner, d) && IsDir(owner, e) && v < USER && w < USER && (d, v) != (e, w)
    requires Pte(m, d, v).To? && Pte(m, e, w).To?
    ensures Pte(m, d, v).frame != Pte(m, e, w).frame
  {
    assert PageOpen(0);
    assert ClaimsFrame(m, owner, d, v) && ClaimsFrame(m, owner, e, w);
  }

  /** Only pages of `d`, and pages not in use, were written: the other spaces see what they saw. */
  ghost predicate Touches(m: Mem, r: Mem, owner: map<nat, Use>, d: nat) {
    |r.pages| == |m.pages| && forall p :: 0 <= p < |m.pages| && p in owner && Of(owner, p) != d ==> r.pages[p] == m.pages[p]
  }

  ghost predicate SameSpace(m: Mem, r: Mem, e: nat) {
    && (forall x: nat :: Pde(r, e, x) == Pde(m, e, x))
    && (forall v: nat :: v < USER ==> Pte(r, e, v) == Pte(m, e, v) && View(r, e, v) == View(m, e, v))
  }

  lemma SamePages(m: Mem, r: Mem, e: nat)
    requires r.pages == m.pages
    ensures SameSpace(m, r, e)
  {
  }

  lemma OthersSame(m: Mem, r: Mem, owner: map<nat, Use>, res: nat, d: nat, e: nat)
    requires Owned(m, owner, res) && Touches(m, r, owner, d) && IsDir(owner, e) && e != d
    ensures SameSpace(m, r, e)
  {
    assert PageOpen(0);
    assert Backed(m, owner, res, e);
    forall v: nat | v < USER
      ensures Pte(r, e, v) == Pte(m, e, v) && View(r, e, v) == View(m, e, v)
    {
      assert ClaimsTable(m, owner, e, v / NPT) && ClaimsFrame(m, owner, e, v);
      assert Pde(m, e, v / NPT).To? ==> Backed(m, owner, res, Pde(m, e, v / NPT).frame);
      assert Pte(m, e, v).To? ==> Backed(m, owner, res, Pte(m, e, v).frame);
    }
  }

  // ---------------------------------------------------------------- taking a page

  /** kalloc takes the first free page. */
  lemma TakeFree(m: Mem, owner: map<nat, Use>, res: nat)
    requires Owned(m, owner, res) && m.free != []
    ensures var p := m.free[0];
      && res <= p < |m.pages| && p !in owner
      && (forall q: nat :: q in m.free[1..] <==> q in m.free && q != p) && Distinct(m.free[1..])
  {
    assert PageOpen(0);
    var p, rest := m.free[0], m.free[1..];
    assert p in m.free && m.free == [p] + rest;
    forall i | 0 <= i < |rest| ensures rest[i] != p { assert rest[i] == m.free[i + 1]; }
  }

  /** Space `d` once page `p` has come into use for `u`: that use and nothing else is new. */
  ghost predicate AfterUse(m: Mem, r: Mem, p: nat, u: Use, d: nat) {
    && (forall x: nat :: Pde(r, d, x) == if u == Tbl(d, x) then To(p, 7) else if d == p then None else Pde(m, d, x))
    && (forall v: nat :: v < USER ==>
          if u == Frame(d, v) then Pte(r, d, v).To? && Pte(r, d, v).frame == p
          else Pte(r, d, v) == if d == p then None else Pte(m, d, v))
  }

  /** A free page comes into use for `u`, and the tables say so. */
  lemma OwnOneMore(m: Mem, r: Mem, owner: map<nat, Use>, res: nat, u: Use)
    requires Owned(m, owner, res) && m.free != [] && r.free == m.free[1..] && |r.pages| == |m.pages|
    requires forall d: nat :: IsDir(owner[m.free[0] := u], d) ==> AfterUse(m, r, m.free[0], u, d)
    requires forall q: nat :: IsTable(m, q) && q in owner ==> IsTable(r, q)
    requires match u
      case Root => IsTable(r, m.free[0])
      case Tbl(d, x) => IsDir(owner, d) && x < NPT && IsTable(r, m.free[0]) && !Pde(m, d, x).To?
      case Frame(d, v) => IsDir(owner, d) && v < USER && !Pte(m, d, v).To?
      case Lost => true
    ensures m.free[0] !in owner && Owned(r, owner[m.free[0] := u], res)
  {
    TakeFree(m, owner, res);
    assert PageOpen(0);
    var p := m.free[0];
    var now := owner[p := u];
    forall d: nat, x: nat
      ensures ClaimsTable(r, now, d, x)
    {
      assert ClaimsTable(m, owner, d, x);
      assert IsDir(now, d) ==> AfterUse(m, r, p, u, d);
    }
    forall d: nat, v: nat
      ensures ClaimsFrame(r, now, d, v)
    {
      assert ClaimsFrame(m, owner, d, v);
      assert IsDir(now, d) ==> AfterUse(m, r, p, u, d);
    }
    forall q | q in now
      ensures Backed(r, now, res, q)
    {
      if q != p { assert Backed(m, owner, res, q); }
      var d := match now[q] case Root => q case Tbl(d, _) => d case Frame(d, _) => d case Lost => q;
      assert IsDir(now, d) ==> AfterUse(m, r, p, u, d);
    }
    assert Ownership(r, now, res);
  }

  /** The spaces a step on `d` does not concern. */
  lemma OthersAfter(m: Mem, r: Mem, owner: map<nat, Use>, res: nat, d: nat, u: Use, p: nat, e: nat)
    requires Owned(m, owner, res) && Touches(m, r, owner, d) && IsDir(owner, e) && e != d && e != p
    requires match u case Root => true case Tbl(c, _) => c == d case Frame(c, _) => c == d case Lost => true
    ensures AfterUse(m, r, p, u, e)
  {
    OthersSame(m, r, owner, res, d, e);
  }

  /** The page taken, holding `c`. */
  function Take(m: Mem, c: Page): (r: Mem)
    requires m.free != [] && m.free[0] < |m.pages|
  {
    Mem(m.free[1..], m.pages[m.free[0] := c])
  }

  function SetEntry(m: Mem, t: nat, i: nat, e: Entry): (r: Mem)
    requires IsTable(m, t) && i < NPT
  {
    m.(pages := m.pages[t := Table(m.pages[t].es[i := e])])
  }

  /** setupkvm: a blank directory. */
  lemma NewDir(m: Mem, owner: map<nat, Use>, res: nat)
    requires Owned(m, owner, res) && m.free != []
    ensures var p := m.free[0];
      && p < |m.pages| && p !in owner && Owned(Take(m, Blank()), owner[p := Root], res) && Touches(m, Take(m, Blank()), owner, p)
      && (forall x: nat :: Pde(Take(m, Blank()), p, x) == None)
  {
    TakeFree(m, owner, res);
    var p := m.free[0];
    var r := Take(m, Blank());
    forall d: nat | IsDir(owner[p := Root], d)
      ensures AfterUse(m, r, p, Root, d)
    {
      if d != p { OthersAfter(m, r, owner, res, p, Root, p, d); }
    }
    OwnOneMore(m, r, owner, res, Root);
  }

  /** A page taken and lost sight of. */
  lemma LosePage(m: Mem, owner: map<nat, Use>, res: nat, c: Page)
    requires Owned(m, owner, res) && m.free != []
    ensures var p := m.free[0];
      && p < |m.pages| && p !in owner && Owned(Take(m, c), owner[p := Lost], res)
      && forall d :: IsDir(owner, d) ==> SameSpace(m, Take(m, c), d)
  {
    TakeFree(m, owner, res);
    var p := m.free[0];
    var r := Take(m, c);
    forall d: nat | IsDir(owner, d) ensures SameSpace(m, r, d) { OthersSame(m, r, owner, res, p, d); }
    forall d: nat | IsDir(owner[p := Lost], d) ensures AfterUse(m, r, p, Lost, d) { OthersAfter(m, r, owner, res, p, Lost, p, d); }
    OwnOneMore(m, r, owner, res, Lost);
  }

  /** Where the tables and frames of a space lie: in use for it, so apart from each other and from free pages. */
  lemma Parts(m: Mem, owner: map<nat, Use>, res: nat, d: nat)
    requires Owned(m, owner, res) && IsDir(owner, d)
    ensures IsTable(m, d) && d >= res
    ensures forall x: nat :: Pde(m, d, x).To? ==>
      var t := Pde(m, d, x).frame; t in owner && owner[t] == Tbl(d, x) && IsTable(m, t) && t != d && x < NPT
    ensures forall v: nat :: v < USER && Pte(m, d, v).To? ==>
      var f := Pte(m, d, v).frame; f in owner && owner[f] == Frame(d, v) && res <= f < |m.pages|
  {
    assert PageOpen(0);
    assert Backed(m, owner, res, d);
    forall x: nat | Pde(m, d, x).To?
      ensures var t := Pde(m, d, x).frame; t in owner && owner[t] == Tbl(d, x) && IsTable(m, t) && t != d && x < NPT
    {
      assert ClaimsTable(m, owner, d, x) && Backed(m, owner, res, Pde(m, d, x).frame);
    }
    forall v: nat | v < USER && Pte(m, d, v).To?
      ensures var f := Pte(m, d, v).frame; f in owner && owner[f] == Frame(d, v) && res <= f < |m.pages|
    {
      assert ClaimsFrame(m, owner, d, v) && Backed(m, owner, res, Pte(m, d, v).frame);
    }
  }

  /** walkpgdir where the table is not there yet. */
  lemma NewTable(m: Mem, owner: map<nat, Use>, res: nat, d: nat, x: nat)
    requires Owned(m, owner, res) && m.free != [] && IsDir(owner, d) && x < NPT && !Pde(m, d, x).To?
    ensures var p := m.free[0]; p < |m.pages| && p !in owner && p != d && IsTable(Take(m, Blank()), d)
    ensures var p := m.free[0]; var r := SetEntry(Take(m, Blank()), d, x, To(p, 7));
      && Owned(r, owner[p := Tbl(d, x)], res) && Touches(m, r, owner, d)
      && (forall y: nat :: Pde(r, d, y) == if y == x then To(p, 7) else Pde(m, d, y))
      && (forall v: nat :: Pte(r, d, v) == Pte(m, d, v))
  {
    TakeFree(m, owner, res);
    Parts(m, owner, res, d);
    var p := m.free[0];
    var r := SetEntry(Take(m, Blank()), d, x, To(p, 7));
    forall y: nat ensures Pde(r, d, y) == if y == x then To(p, 7) else Pde(m, d, y) { }
    forall v: nat ensures Pte(r, d, v) == Pte(m, d, v) { assert Pde(m, d, v / NPT).To? ==> Pde(m, d, v / NPT).frame != d; }
    forall e: nat | IsDir(owner[p := Tbl(d, x)], e)
      ensures AfterUse(m, r, p, Tbl(d, x), e)
    {
      if e != d { OthersAfter(m, r, owner, res, d, Tbl(d, x), p, e); }
    }
    OwnOneMore(m, r, owner, res, Tbl(d, x));
  }

  /** mappages at a user page: a frame with contents `c`. */
  lemma NewFrame(m: Mem, owner: map<nat, Use>, res: nat, d: nat, v: nat, c: Page, flags: nat)
    requires Owned(m, owner, res) && m.free != [] && IsDir(owner, d) && v < USER && Pde(m, d, v / NPT).To? && !Pte(m, d, v).To?
    ensures var p, t := m.free[0], Pde(m, d, v / NPT).frame; p < |m.pages| && p !in owner && p != t && IsTable(Take(m, c), t)
    ensures var p, t := m.free[0], Pde(m, d, v / NPT).frame; var r := SetEntry(Take(m, c), t, v % NPT, To(p, flags));
      && Owned(r, owner[p := Frame(d, v)], res) && Touches(m, r, owner, d)
      && (forall y: nat :: Pde(r, d, y) == Pde(m, d, y))
      && (forall w: nat :: w < USER ==> Pte(r, d, w) == if w == v then To(p, flags) else Pte(m, d, w))
      && (forall w: nat :: w < USER ==> View(r, d, w) == if w == v then Sees(flags, c) else View(m, d, w))
  {
    TakeFree(m, owner, res);
    Parts(m, owner, res, d);
    var p, t := m.free[0], Pde(m, d, v / NPT).frame;
    var r := SetEntry(Take(m, c), t, v % NPT, To(p, flags));
    forall w: nat | w < USER
      ensures Pte(r, d, w) == if w == v then To(p, flags) else Pte(m, d, w)
      ensures View(r, d, w) == if w == v then Sees(flags, c) else View(m, d, w)
    {
      if w / NPT == v / NPT {
        assert w % NPT == v % NPT ==> w == v;
      } else {
        assert Pde(m, d, w / NPT).To? ==> Pde(m, d, w / NPT).frame != t;
      }
    }
    forall e: nat | IsDir(owner[p := Frame(d, v)], e)
      ensures AfterUse(m, r, p, Frame(d, v), e)
    {
      if e != d { OthersAfter(m, r, owner, res, d, Frame(d, v), p, e); }
    }
    OwnOneMore(m, r, owner, res, Frame(d, v));
  }

  /** A kernel mapping: no page comes into use, no user page is touched. */
  lemma KernelEntry(m: Mem, owner: map<nat, Use>, res: nat, d: nat, v: nat, e: Entry)
    requires Owned(m, owner, res) && IsDir(owner, d) && USER <= v < NPT * NPT && Pde(m, d, v / NPT).To?
    ensures var t := Pde(m, d, v / NPT).frame; IsTable(m, t)
    ensures var r := SetEntry(m, Pde(m, d, v / NPT).frame, v % NPT, e);
      && Owned(r, owner, res) && Touches(m, r, owner, d)
      && (forall x: nat :: Pde(r, d, x) == Pde(m, d, x))
      && (forall w: nat :: w < NPT * NPT ==> Pte(r, d, w) == if w == v then e else Pte(m, d, w))
      && (forall w: nat :: w < USER ==> View(r, d, w) == View(m, d, w))
  {
    Parts(m, owner, res, d);
    var t := Pde(m, d, v / NPT).frame;
    var r := SetEntry(m, t, v % NPT, e);
    forall w: nat | w < NPT * NPT
      ensures Pte(r, d, w) == if w == v then e else Pte(m, d, w)
    {
      if w / NPT == v / NPT {
        assert w % NPT == v % NPT ==> w == v;
      } else {
        assert Pde(m, d, w / NPT).To? ==> Pde(m, d, w / NPT).frame != t;
      }
    }
    SameOwners(m, r, owner, res, d);
  }

  lemma SameOwners(m: Mem, r: Mem, owner: map<nat, Use>, res: nat, d: nat)
    requires Owned(m, owner, res) && Touches(m, r, owner, d) && r.free == m.free && IsDir(owner, d)
    requires forall q: nat :: IsTable(m, q) && q in owner ==> IsTable(r, q)
    requires (forall x: nat :: Pde(r, d, x) == Pde(m, d, x)) && (forall v: nat :: v < USER ==> Pte(r, d, v) == Pte(m, d, v))
    ensures Owned(r, owner, res)
  {
    forall e: nat | IsDir(owner, e) && e != d ensures SameSpace(m, r, e) { OthersSame(m, r, owner, res, d, e); }
    assert PageOpen(0);
    forall e: nat, x: nat
      ensures ClaimsTable(r, owner, e, x)
    {
      assert ClaimsTable(m, owner, e, x);
      assert IsDir(owner, e) && e != d ==> SameSpace(m, r, e);
    }
    forall e: nat, v: nat
      ensures ClaimsFrame(r, owner, e, v)
    {
      assert ClaimsFrame(m, owner, e, v);
      assert IsDir(owner, e) && e != d ==> SameSpace(m, r, e);
    }
    forall q | q in owner
      ensures Backed(r, owner, res, q)
    {
      assert Backed(m, owner, res, q);
      var e := match owner[q] case Root => q case Tbl(e, _) => e case Frame(e, _) => e case Lost => q;
      assert IsDir(owner, e) && e != d ==> SameSpace(m, r, e);
    }
    assert Ownership(r, owner, res);
  }

  // ---------------------------------------------------------------- giving pages back

  function Drop(e: Entry, gone: set<nat>): (r: Entry) {
    if e.To? && e.frame in gone then None else e
  }

  /** Space `d` once the pages in `gone` are free: they are no longer named. */
  ghost predicate AfterDrop(m: Mem, r: Mem, gone: set<nat>, d: nat) {
    && (forall x: nat :: Pde(r, d, x) == Drop(Pde(m, d, x), gone))
    && (forall v: nat :: v < USER ==> Pte(r, d, v) == Drop(Pte(m, d, v), gone))
  }

  lemma OwnFewer(m: Mem, r: Mem, owner: map<nat, Use>, res: nat, gone: set<nat>)
    requires Owned(m, owner, res) && |r.pages| == |m.pages|
    requires forall q :: q in gone ==> q in owner
    requires (forall q: nat :: q in r.free <==> q in m.free || q in gone) && Distinct(r.free)
    requires forall d: nat :: IsDir(owner, d) && d !in gone ==> AfterDrop(m, r, gone, d)
    requires forall q: nat :: IsTable(m, q) && q in owner && q !in gone ==> IsTable(r, q)
    requires forall q :: q in owner && Of(owner, q) in gone && IsDir(owner, Of(owner, q)) ==> q in gone
    ensures Owned(r, owner - gone, res)
  {
    assert PageOpen(0);
    var now := owner - gone;
    forall d: nat, x: nat
      ensures ClaimsTable(r, now, d, x)
    {
      assert ClaimsTable(m, owner, d, x);
      assert IsDir(now, d) ==> AfterDrop(m, r, gone, d);
    }
    forall d: nat, v: nat
      ensures ClaimsFrame(r, now, d, v)
    {
      assert ClaimsFrame(m, owner, d, v);
      assert IsDir(now, d) ==> AfterDrop(m, r, gone, d);
    }
    forall q | q in now
      ensures Backed(r, now, res, q)
    {
      assert Backed(m, owner, res, q);
      var d := match now[q] case Root => q case Tbl(d, _) => d case Frame(d, _) => d case Lost => q;
      assert IsDir(now, d) ==> AfterDrop(m, r, gone, d);
    }
    forall q: nat
      ensures q in r.free <==> res <= q < |r.pages| && q !in now
    {
      assert q in gone ==> Backed(m, owner, res, q);
    }
    assert Ownership(r, now, res);
  }

  /** kfree puts a page at the head of the list, filled with junk. */
  function Free(m: Mem, p: nat, junk: Page): (r: Mem)
    requires p < |m.pages|
  {
    Mem([p] + m.free, m.pages[p := junk])
  }

  /** deallocuvm at a page that is mapped. */
  lemma DropFrame(m: Mem, owner: map<nat, Use>, res: nat, d: nat, v: nat, junk: Page)
    requires Owned(m, owner, res) && IsDir(owner, d) && v < USER && Pte(m, d, v).To?
    ensures var f, t := Pte(m, d, v).frame, Pde(m, d, v / NPT).frame;
      f in owner && owner[f] == Frame(d, v) && res <= f < |m.pages| && f !in m.free && IsTable(Free(m, f, junk), t)
    ensures var f, t := Pte(m, d, v).frame, Pde(m, d, v / NPT).frame; var r := SetEntry(Free(m, f, junk), t, v % NPT, None);
      && Owned(r, owner - {f}, res) && Touches(m, r, owner, d)
      && (forall x: nat :: Pde(r, d, x) == Pde(m, d, x))
      && (forall w: nat :: w < USER ==> Pte(r, d, w) == if w == v then None else Pte(m, d, w))
      && (forall w: nat :: w < USER ==> View(r, d, w) == if w == v then Nothing else View(m, d, w))
  {
    Parts(m, owner, res, d);
    var f, t := Pte(m, d, v).frame, Pde(m, d, v / NPT).frame;
    assert f !in m.free && Distinct(m.free) by { assert PageOpen(0); }
    var r := SetEntry(Free(m, f, junk), t, v % NPT, None);
    forall w: nat | w < USER
      ensures Pte(r, d, w) == if w == v then None else Pte(m, d, w)
      ensures View(r, d, w) == if w == v then Nothing else View(m, d, w)
      ensures w != v && Pte(m, d, w).To? ==> Pte(m, d, w).frame != f
    {
      if w / NPT == v / NPT {
        assert w % NPT == v % NPT ==> w == v;
      } else {
        assert Pde(m, d, w / NPT).To? ==> Pde(m, d, w / NPT).frame != t;
      }
    }
    forall e: nat | IsDir(owner, e) && e !in {f}
      ensures AfterDrop(m, r, {f}, e)
    {
      if e != d {
        OthersSame(m, r, owner, res, d, e);
        Parts(m, owner, res, e);
      }
    }
    OwnFewer(m, r, owner, res, {f});
  }

  function PagesOf(owner: map<nat, Use>, d: nat): (s: set<nat>)
    ensures forall p :: p in s <==> p in owner && Of(owner, p) == d
  {
    set p | p in owner && Of(owner, p) == d
  }

  /** freevm once no frame is left: the tables and the directory go, and with them the space. */
  lemma DropSpace(m: Mem, r: Mem, owner: map<nat, Use>, res: nat, d: nat)
    requires Owned(m, owner, res) && IsDir(owner, d) && forall v: nat :: v < USER ==> !Pte(m, d, v).To?
    requires Touches(m, r, owner, d) && Distinct(r.free)
    requires forall q: nat :: q in r.free <==> q in m.free || q in PagesOf(owner, d)
    ensures Owned(r, owner - PagesOf(owner, d), res)
  {
    var gone := PagesOf(owner, d);
    forall e: nat | IsDir(owner, e) && e !in gone
      ensures AfterDrop(m, r, gone, e)
    {
      OthersSame(m, r, owner, res, d, e);
      Parts(m, owner, res, e);
    }
    forall q: nat | IsTable(m, q) && q in owner && q !in gone ensures IsTable(r, q) { }
    OwnFewer(m, r, owner, res, gone);
  }

  /** What freevm frees: the directory and the tables it names, each once. */
  lemma SpacePages(m: Mem, owner: map<nat, Use>, res: nat, d: nat, p: nat)
    requires Owned(m, owner, res) && IsDir(owner, d) && forall v: nat :: v < USER ==> !Pte(m, d, v).To?
    ensures p in PagesOf(owner, d) <==> p == d || exists x :: 0 <= x < NPT && Pde(m, d, x).To? && Pde(m, d, x).frame == p
  {
    assert PageOpen(0);
    Parts(m, owner, res, d);
    if p in PagesOf(owner, d) {
      assert Backed(m, owner, res, p);
    }
  }

  // ---------------------------------------------------------------- pages between kalloc and their use

  /** A page that is in use for nothing may be given back. */
  lemma UseLost(m: Mem, owner: map<nat, Use>, res: nat, p: nat)
    requires Owned(m, owner, res) && p in owner && owner[p].Lost?
    ensures res <= p < |m.pages| && p !in m.free && Owned(m.(free := [p] + m.free), owner - {p}, res)
  {
    assert p !in m.free && Distinct(m.free) && Backed(m, owner, res, p) by { assert PageOpen(0); }
    var r := m.(free := [p] + m.free);
    forall d: nat | IsDir(owner, d) && d !in {p}
      ensures AfterDrop(m, r, {p}, d)
    {
      Parts(m, owner, res, d);
    }
    OwnFewer(m, r, owner, res, {p});
  }

  /** And it may be written. */
  lemma FillLost(m: Mem, owner: map<nat, Use>, res: nat, p: nat, c: Page)
    requires Owned(m, owner, res) && p in owner && owner[p].Lost?
    ensures p < |m.pages| && Owned(m.(pages := m.pages[p := c]), owner, res)
    ensures forall d: nat :: IsDir(owner, d) ==> SameSpace(m, m.(pages := m.pages[p := c]), d)
  {
    UseLost(m, owner, res, p);
    var u, now := m.(free := [p] + m.free), owner - {p};
    LosePage(u, now, res, c);
    assert Take(u, c) == m.(pages := m.pages[p := c]);
    assert now[p := Lost] == owner;
    forall d: nat | IsDir(owner, d)
      ensures SameSpace(m, m.(pages := m.pages[p := c]), d)
    {
      assert IsDir(now, d) && SameSpace(u, Take(u, c), d);
    }
  }

  /** Nothing but space `d` has changed. */
  ghost predicate Outside(m: Mem, owner: map<nat, Use>, r: Mem, now: map<nat, Use>, d: nat) {
    && Touches(m, r, owner, d)
    && (forall p :: p in owner && Of(owner, p) != d ==> p in now && now[p] == owner[p])
    && (forall p :: p in now && Of(now, p) != d ==> p in owner && now[p] == owner[p])
    && (forall e: nat :: IsDir(owner, e) && e != d ==> SameSpace(m, r, e))
  }

  lemma OutsideTwice(m: Mem, owner: map<nat, Use>, u: Mem, mid: map<nat, Use>, r: Mem, now: map<nat, Use>, d: nat)
    requires Outside(m, owner, u, mid, d) && Outside(u, mid, r, now, d)
    ensures Outside(m, owner, r, now, d)
  {
    forall e: nat | IsDir(owner, e) && e != d
      ensures SameSpace(m, r, e)
    {
      assert IsDir(mid, e) && SameSpace(m, u, e) && SameSpace(u, r, e);
    }
  }

  /** A step that touches only pages of `d` and gives a page to it, or takes one from it. */
  lemma OutsideStep(m: Mem, owner: map<nat, Use>, res: nat, r: Mem, now: map<nat, Use>, d: nat, p: nat)
    requires Owned(m, owner, res) && Touches(m, r, owner, d)
    requires (now == owner && Of(owner, p) == d) || (p !in owner && p in now && now == owner[p := now[p]] && Of(now, p) == d)
          || (p in owner && Of(owner, p) == d && now == owner - {p})
    ensures Outside(m, owner, r, now, d)
  {
    forall e: nat | IsDir(owner, e) && e != d ensures SameSpace(m, r, e) { OthersSame(m, r, owner, res, d, e); }
  }

  // ---------------------------------------------------------------- what a process has

  /** Nothing is mapped from page `v` on. A page below the size of a process may be missing too: allocuvm can leave such a hole. */
  ghost predicate Bare(m: Mem, d: nat, v: nat) {
    forall w: nat :: v <= w < USER ==> Pte(m, d, w) == None
  }

  /** Going up from page `lo`, page `v` is the first to need a table that is not there. */
  ghost predicate Opens(m: Mem, d: nat, lo: nat, v: nat) {
    !Pde(m, d, v / NPT).To? && (v == lo || v % NPT == 0)
  }

  /** The pages it takes to map pages `lo` to `v`: one for each, and one for each table that is not there. */
  ghost function Cost(m: Mem, d: nat, lo: nat, v: nat): (c: nat) {
    if v <= lo then 0 else Cost(m, d, lo, v - 1) + if Opens(m, d, lo, v - 1) then 2 else 1
  }

  lemma {:induction false} CostGrows(m: Mem, d: nat, lo: nat, v: nat, w: nat)
    requires lo <= v <= w
    ensures Cost(m, d, lo, w) >= Cost(m, d, lo, v) + (w - v)
    decreases w
  {
    if v < w { CostGrows(m, d, lo, v, w - 1); }
  }

  /** The tables that pages `lo` to `hi` need and that are not there. */
  ghost function Missing(m: Mem, d: nat, lo: nat, hi: nat): (s: set<nat>) {
    if hi <= lo then {} else set x: nat | lo / NPT <= x <= (hi - 1) / NPT && !Pde(m, d, x).To?
  }

  /** Cost is what it says: the pages and the missing tables. */
  lemma {:induction false} CostCounts(m: Mem, d: nat, lo: nat, hi: nat)
    requires lo <= hi
    ensures Cost(m, d, lo, hi) == hi - lo + |Missing(m, d, lo, hi)|
    decreases hi
  {
    if lo < hi {
      var x, s, t := (hi - 1) / NPT, Missing(m, d, lo, hi - 1), Missing(m, d, lo, hi);
      CostCounts(m, d, lo, hi - 1);
      assert lo / NPT <= x;
      if hi - 1 > lo { assert x == (hi - 2) / NPT + if (hi - 1) % NPT == 0 then 1 else 0; }
      if Opens(m, d, lo, hi - 1) {
        assert x !in s;
        assert t == s + {x};
      } else {
        assert t == s;
      }
    }
  }

  /** The tables of `r` are those of `m` and the ones that pages `lo` to `v` need. */
  ghost predicate Tabled(m: Mem, r: Mem, d: nat, lo: nat, v: nat) {
    forall x: nat :: x < USER / NPT ==> (Pde(r, d, x).To? <==> Pde(m, d, x).To? || (lo < v && lo / NPT <= x <= (v - 1) / NPT))
  }

  lemma TabledAt(m: Mem, r: Mem, d: nat, lo: nat, v: nat)
    requires Tabled(m, r, d, lo, v) && lo <= v < USER
    ensures !Pde(r, d, v / NPT).To? <==> Opens(m, d, lo, v)
  {
    assert v / NPT < USER / NPT;
    if lo < v {
      assert lo / NPT <= v / NPT;
      assert v / NPT <= (v - 1) / NPT <==> v % NPT != 0;
    }
  }

  lemma TabledMore(m: Mem, u: Mem, r: Mem, d: nat, lo: nat, v: nat)
    requires Tabled(m, u, d, lo, v) && lo <= v < USER
    requires Pde(r, d, v / NPT).To? && forall x: nat :: x != v / NPT ==> Pde(r, d, x) == Pde(u, d, x)
    ensures Tabled(m, r, d, lo, v + 1)
  {
    forall x: nat | x < USER / NPT
      ensures Pde(r, d, x).To? <==> Pde(m, d, x).To? || lo / NPT <= x <= v / NPT
    {
      if lo < v { assert (v - 1) / NPT <= v / NPT <= (v - 1) / NPT + 1; }
    }
  }

  /** The first page below `n` that is not mapped, or `n`. */
  ghost function FirstHole(m: Mem, d: nat, n: nat): (h: nat)
    ensures h <= n && (h < n ==> !Pte(m, d, h).To?) && forall v: nat :: v < h ==> Pte(m, d, v).To?
  {
    if n == 0 then 0
    else
      var h := FirstHole(m, d, n - 1);
      if h < n - 1 || !Pte(m, d, n - 1).To? then h else n
  }

  /** The first page from `lo` on that is mapped, or `hi`. */
  ghost function FirstMapped(m: Mem, d: nat, lo: nat, hi: nat): (h: nat)
    requires lo <= hi
    ensures lo <= h <= hi && (h < hi ==> Pte(m, d, h).To?) && forall w: nat :: lo <= w < h ==> !Pte(m, d, w).To?
    decreases hi - lo
  {
    if lo == hi || Pte(m, d, lo).To? then lo else FirstMapped(m, d, lo + 1, hi)
  }

  /** Exactly the first `n` pages are mapped. */
  ghost predicate Exactly(m: Mem, d: nat, n: nat) {
    forall w: nat :: w < USER ==> (Pte(m, d, w).To? <==> w < n)
  }

  /** No table of the user part is there. */
  ghost predicate Bottom(m: Mem, d: nat) {
    forall x: nat :: x < USER / NPT ==> Pde(m, d, x) == None
  }

  /** The pages that the first `n` pages of a new space take. */
  function FreshCost(n: nat): (c: nat) {
    n + (n + NPT - 1) / NPT
  }

  lemma {:induction false} FreshIs(m: Mem, d: nat, n: nat)
    requires Bottom(m, d) && n <= USER
    ensures Cost(m, d, 0, n) == FreshCost(n)
  {
    if n > 0 {
      FreshIs(m, d, n - 1);
      assert Pde(m, d, (n - 1) / NPT) == None;
    }
  }

  /** The free pages are as many as are neither the kernel's nor in use. */
  lemma FreeCount(m: Mem, owner: map<nat, Use>, res: nat)
    requires Owned(m, owner, res) && res <= |m.pages|
    ensures |m.free| + |owner| == |m.pages| - res
  {
    FreeFacts(m, owner, res);
    Complement(m.free, owner.Keys, res, |m.pages|);
    assert |owner| == |owner.Keys|;
  }

  lemma FreeFacts(m: Mem, owner: map<nat, Use>, res: nat)
    requires Owned(m, owner, res)
    ensures Distinct(m.free) && (forall p: nat :: p in m.free <==> res <= p < |m.pages| && p !in owner)
    ensures forall p :: p in owner ==> res <= p < |m.pages|
  {
    assert PageOpen(0);
    forall p | p in owner ensures res <= p < |m.pages| { assert Backed(m, owner, res, p); }
  }

  lemma Complement(free: seq<nat>, used: set<nat>, a: nat, b: nat)
    requires a <= b && Distinct(free) && (forall p: nat :: p in free <==> a <= p < b && p !in used) && forall p :: p in used ==> a <= p < b
    ensures |free| + |used| == b - a
  {
    assert Span(a, b) == Members(free) + used && Members(free) !! used;
  }

  ghost function Span(a: nat, b: nat): (s: set<nat>)
    requires a <= b
    ensures |s| == b - a && forall p :: p in s <==> a <= p < b
  {
    if a == b then {} else Span(a, b - 1) + {b - 1}
  }

  ghost function Members(s: seq<nat>): (r: set<nat>)
    requires Distinct(s)
    ensures |r| == |s| && forall p :: p in r <==> p in s
  {
    if s == [] then {}
    else
      assert s[0] !in s[1..];
      Members(s[1..]) + {s[0]}
  }

  // ---------------------------------------------------------------- the way of deallocuvm

  /**
   deallocuvm going up from page `lo` steps over page `w`: the table of `lo` is missing, so it goes on
   NPT pages at a time, each time to the same place in a table, until it comes to one that is there.
   */
  ghost predicate Skipped(m: Mem, d: nat, lo: nat, w: nat) {
    && lo / NPT < w / NPT && w % NPT < lo % NPT && Pde(m, d, w / NPT).To?
    && forall y: nat :: lo / NPT <= y < w / NPT ==> !Pde(m, d, y).To?
  }

  /** It has come to page `v`: it is still looking for a table, or it will step over nothing any more. */
  ghost predicate Course(m: Mem, d: nat, lo: nat, v: nat) {
    || (v % NPT == lo % NPT && forall y: nat :: lo / NPT <= y < v / NPT ==> !Pde(m, d, y).To?)
    || ((forall w: nat :: w >= v ==> !Skipped(m, d, lo, w)) && (!Pde(m, d, v / NPT).To? ==> v % NPT == 0))
  }

  lemma CourseJump(m: Mem, d: nat, lo: nat, v: nat)
    requires Course(m, d, lo, v) && lo <= v && !Pde(m, d, v / NPT).To?
    ensures Course(m, d, lo, v + NPT)
    ensures forall w: nat :: v <= w < v + NPT ==> Skipped(m, d, lo, w) || Pte(m, d, w) == None
  {
    assert (v + NPT) / NPT == v / NPT + 1 && (v + NPT) % NPT == v % NPT;
    forall w: nat | v <= w < v + NPT
      ensures Skipped(m, d, lo, w) || Pte(m, d, w) == None
    {
      assert w / NPT == v / NPT || (w / NPT == v / NPT + 1 && w % NPT < v % NPT);
      assert lo / NPT <= v / NPT;
    }
  }

  lemma CourseStep(m: Mem, d: nat, lo: nat, v: nat)
    requires Course(m, d, lo, v) && lo <= v && Pde(m, d, v / NPT).To?
    ensures Course(m, d, lo, v + 1) && !Skipped(m, d, lo, v)
  {
    assert lo / NPT <= v / NPT;
    forall w: nat | w >= v + 1
      ensures !Skipped(m, d, lo, w)
    {
      assert w / NPT >= v / NPT;
      if w / NPT == v / NPT { assert w % NPT > v % NPT; }
    }
    assert (v + 1) / NPT == v / NPT || (v + 1) % NPT == 0;
  }

  /** How many mapped pages from `lo` to `v` it does not step over. */
  ghost function Held(m: Mem, d: nat, lo: nat, v: nat): (n: nat) {
    if v <= lo then 0 else Held(m, d, lo, v - 1) + if Pte(m, d, v - 1).To? && !Skipped(m, d, lo, v - 1) then 1 else 0
  }

  lemma {:induction false} HeldSame(m: Mem, d: nat, lo: nat, v: nat, w: nat)
    requires lo <= v <= w && forall x: nat :: v <= x < w ==> Skipped(m, d, lo, x) || Pte(m, d, x) == None
    ensures Held(m, d, lo, w) == Held(m, d, lo, v)
    decreases w
  {
    if v < w { HeldSame(m, d, lo, v, w - 1); }
  }
}
