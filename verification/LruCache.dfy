/**
 The buffer cache: NBUF buffers on a doubly linked ring, most recently used first. The ghost
 fields `cache` and `slot` give its meaning as a map from block number to buffer, in the terms
 of LogMachine: every method is one of that machine's buffer steps, possibly after an eviction.
 */
module LruCache {
  import opened LogFormat
  import opened LogMachine
  import opened Sealing

  const NBUF: nat := MAXOPBLOCKS * 3
  const NODEV: int := -1
  const ROOTDEV: int := 1

  datatype Buf = Buf(dev: int, blockno: nat, busy: bool, valid: bool, dirty: bool, data: Block) {
    predicate Is(no: nat) {
      dev == ROOTDEV && blockno == no
    }
    predicate Recyclable() {
      !busy && !dirty
    }
  }

  /** How one pass of bget ends: with a buffer, with sleep() on a busy one, or in the panic. */
  datatype GetResult = Got(i: nat) | MustSleep(i: nat) | NoBuffers

  /** `c` is a path along next, and backwards along prev. */
  predicate Chain(c: seq<nat>, next: seq<nat>, prev: seq<nat>) {
    && (forall k :: 0 <= k < |c| ==> c[k] < |next| && c[k] < |prev|)
    && (forall k :: 0 <= k < |c| - 1 ==> next[c[k]] == c[k + 1])
    && (forall k :: 0 <= k < |c| - 1 ==> prev[c[k + 1]] == c[k])
  }

  lemma ChainAt(c: seq<nat>, next: seq<nat>, prev: seq<nat>, k: nat)
    requires Chain(c, next, prev) && k < |c| - 1
    ensures next[c[k]] == c[k + 1] && prev[c[k + 1]] == c[k]
  {
  }

  /** `c` starts and ends at the list head, index NBUF, and meets every other index at most once. */
  predicate Loop(c: seq<nat>) {
    && |c| >= 2 && c[0] == c[|c| - 1] == NBUF
    && (forall j :: 0 < j < |c| - 1 ==> c[j] < NBUF)
    && (forall j, k :: 0 < j < k < |c| - 1 ==> c[j] != c[k])
  }

  predicate Ring(c: seq<nat>, next: seq<nat>, prev: seq<nat>) {
    |next| == |prev| == NBUF + 1 && Loop(c) && Chain(c, next, prev)
  }

  function Without(c: seq<nat>, k: nat): (d: seq<nat>)
    requires k < |c|
  {
    c[..k] + c[k + 1..]
  }

  function Behind(c: seq<nat>, b: nat): (d: seq<nat>)
    requires |c| > 0
  {
    [c[0], b] + c[1..]
  }

  /** The ring with its k-th buffer moved behind the head, as brelse leaves it. */
  function ToFront(c: seq<nat>, k: nat): (d: seq<nat>)
    requires 0 < k < |c|
  {
    Behind(Without(c, k), c[k])
  }

  lemma UnlinkAt(c: seq<nat>, k: nat, next: seq<nat>, prev: seq<nat>, j: nat)
    requires Loop(c) && Chain(c, next, prev) && 0 < k < |c| - 1 && j < |c| - 2
    ensures var x := if j < k then c[j] else c[j + 1]; var y := if j + 1 < k then c[j + 1] else c[j + 2];
      && next[c[k - 1] := c[k + 1]][x] == y
      && prev[c[k + 1] := c[k - 1]][y] == x
  {
    ChainAt(c, next, prev, if j < k then j else j + 1);
    if j < k - 1 {
      assert c[j] != c[k - 1] && c[j + 1] != c[k + 1];
    } else if j >= k {
      assert c[j + 1] != c[k - 1] && c[j + 2] != c[k + 1];
    }
  }

  /** Unlinking the k-th buffer keeps the rest a ring. */
  lemma UnlinkRing(c: seq<nat>, k: nat, next: seq<nat>, prev: seq<nat>)
    requires Ring(c, next, prev) && 0 < k < |c| - 1
    ensures next[c[k]] == c[k + 1] && prev[c[k]] == c[k - 1]
    ensures Ring(Without(c, k), next[c[k - 1] := c[k + 1]], prev[c[k + 1] := c[k - 1]])
  {
    ChainAt(c, next, prev, k - 1);
    ChainAt(c, next, prev, k);
    forall j | 0 <= j < |c| - 2
      ensures next[c[k - 1] := c[k + 1]][Without(c, k)[j]] == Without(c, k)[j + 1]
      ensures prev[c[k + 1] := c[k - 1]][Without(c, k)[j + 1]] == Without(c, k)[j]
    {
      UnlinkAt(c, k, next, prev, j);
    }
  }

  /** Linking a new buffer in behind the head. */
  lemma LinkRing(c: seq<nat>, b: nat, next: seq<nat>, prev: seq<nat>)
    requires Ring(c, next, prev) && b < NBUF && b !in c
    ensures next[NBUF] == c[1]
    ensures Ring(Behind(c, b), next[b := c[1]][NBUF := b], prev[b := NBUF][c[1] := b])
  {
    ChainAt(c, next, prev, 0);
    var d := Behind(c, b);
    assert forall j :: 2 <= j < |d| ==> d[j] == c[j - 1];
    forall j | 0 <= j < |d| - 1
      ensures next[b := c[1]][NBUF := b][d[j]] == d[j + 1]
      ensures prev[b := NBUF][c[1] := b][d[j + 1]] == d[j]
    {
      if j >= 2 { ChainAt(c, next, prev, j - 1); }
    }
  }

  lemma BehindMembers(c: seq<nat>, b: nat)
    requires |c| > 0
    ensures forall i: nat :: i in Behind(c, b) <==> i == b || i in c
  {
    assert c == [c[0]] + c[1..];
  }

  /** Every buffer is somewhere on the ring. */
  predicate Complete(c: seq<nat>) {
    forall i :: 0 <= i < NBUF ==> i in c
  }

  lemma InnerIndex(c: seq<nat>, i: nat) returns (j: nat)
    requires Loop(c) && Complete(c) && i < NBUF
    ensures 0 < j < |c| - 1 && c[j] == i
  {
    assert i in c;
    j :| 0 <= j < |c| && c[j] == i;
  }

  lemma ToFrontComplete(c: seq<nat>, k: nat)
    requires Loop(c) && Complete(c) && 0 < k < |c| - 1
    ensures Complete(ToFront(c, k))
  {
    var d := ToFront(c, k);
    forall i | 0 <= i < NBUF
      ensures i in d
    {
      var j := InnerIndex(c, i);
      assert d[if j == k then 1 else if j < k then j + 1 else j] == i;
    }
  }

  /** Block `no` is in no buffer. */
  predicate Absent(bufs: seq<Buf>, no: nat) {
    forall i :: 0 <= i < |bufs| ==> !bufs[i].Is(no)
  }

  /** Buffer `i` is the least recently used one that is neither busy nor dirty. */
  predicate Victim(c: seq<nat>, bufs: seq<Buf>, i: nat)
    requires i < |bufs|
  {
    && bufs[i].Recyclable()
    && exists k :: 0 < k < |c| - 1 && c[k] == i &&
         forall j :: k < j < |c| - 1 ==> c[j] < |bufs| && !bufs[c[j]].Recyclable()
  }

  /** How far into `log` buffer `b` was last released, 0 if never. */
  function LastUse(log: seq<nat>, b: nat): (n: nat)
    ensures n <= |log| && (n > 0 ==> log[n - 1] == b) && forall i :: n <= i < |log| ==> log[i] != b
  {
    if log == [] then 0 else if log[|log| - 1] == b then |log| else LastUse(log[..|log| - 1], b)
  }

  /** From the head on, buffers were released longer and longer ago. */
  ghost predicate ByUse(c: seq<nat>, log: seq<nat>) {
    forall j, k :: 0 < j < k < |c| - 1 ==> LastUse(log, c[j]) >= LastUse(log, c[k])
  }

  lemma ToFrontAt(c: seq<nat>, k: nat, j: nat)
    requires 0 < k < |c| && j < |c|
    ensures |ToFront(c, k)| == |c|
    ensures ToFront(c, k)[j] == if j == 0 then c[0] else if j == 1 then c[k] else if j <= k then c[j - 1] else c[j]
  {
  }

  lemma ToFrontLoop(c: seq<nat>, k: nat)
    requires Loop(c) && 0 < k < |c| - 1
    ensures Loop(ToFront(c, k))
  {
    var d := ToFront(c, k);
    forall j | 0 <= j < |c|
      ensures d[j] == if j == 0 then c[0] else if j == 1 then c[k] else if j <= k then c[j - 1] else c[j]
    {
      ToFrontAt(c, k, j);
    }
  }

  lemma UseMore(log: seq<nat>, b: nat, x: nat)
    ensures LastUse(log + [b], x) == if x == b then |log| + 1 else LastUse(log, x)
  {
    assert (log + [b])[..|log|] == log;
  }

  /** A release keeps the ring in the order of release. */
  lemma ReleaseByUse(c: seq<nat>, k: nat, log: seq<nat>)
    requires Loop(c) && 0 < k < |c| - 1 && ByUse(c, log)
    ensures Loop(ToFront(c, k)) && ByUse(ToFront(c, k), log + [c[k]])
  {
    var d := ToFront(c, k);
    ToFrontLoop(c, k);
    forall i, j | 0 < i < j < |d| - 1
      ensures LastUse(log + [c[k]], d[i]) >= LastUse(log + [c[k]], d[j])
    {
      ToFrontAt(c, k, i);
      ToFrontAt(c, k, j);
      UseMore(log, c[k], d[i]);
      UseMore(log, c[k], d[j]);
      if i > 1 { assert LastUse(log, c[if i <= k then i - 1 else i]) >= LastUse(log, c[if j <= k then j - 1 else j]); }
    }
  }

  /** brelse of buffer `b` as it changes the ring. */
  ghost predicate Releases(c: seq<nat>, b: nat, d: seq<nat>) {
    exists k :: 0 < k < |c| - 1 && c[k] == b && d == ToFront(c, k)
  }

  lemma NextByUse(c: seq<nat>, b: nat, d: seq<nat>, log: seq<nat>)
    requires Loop(c) && ByUse(c, log) && Releases(c, b, d)
    ensures Loop(d) && ByUse(d, log + [b])
  {
    var k :| 0 < k < |c| - 1 && c[k] == b && d == ToFront(c, k);
    ReleaseByUse(c, k, log);
  }

  /** After any releases, from any ring, the buffers released stand in front, the latest first. */
  lemma {:induction false} RingByUse(rings: seq<seq<nat>>, log: seq<nat>)
    requires |rings| == |log| + 1 && Loop(rings[0])
    requires forall i :: 0 <= i < |log| ==> Releases(rings[i], log[i], rings[i + 1])
    ensures Loop(rings[|log|]) && ByUse(rings[|log|], log)
    decreases |log|
  {
    var n := |log|;
    if n > 0 {
      var was := log[..n - 1];
      assert forall i :: 0 <= i < n - 1 ==> Releases(rings[..n][i], was[i], rings[..n][i + 1]);
      RingByUse(rings[..n], was);
      assert Releases(rings[n - 1], log[n - 1], rings[n]);
      NextByUse(rings[n - 1], log[n - 1], rings[n], was);
      assert was + [log[n - 1]] == log;
    }
  }

  /** No buffer bget could recycle was released longer ago than the one it takes. */
  lemma VictimOldest(c: seq<nat>, bufs: seq<Buf>, i: nat, log: seq<nat>, b: nat)
    requires Loop(c) && Complete(c) && ByUse(c, log) && |bufs| == NBUF && i < NBUF && b < NBUF
    requires Victim(c, bufs, i) && bufs[b].Recyclable()
    ensures LastUse(log, i) <= LastUse(log, b)
  {
    var k :| 0 < k < |c| - 1 && c[k] == i && forall j :: k < j < |c| - 1 ==> c[j] < |bufs| && !bufs[c[j]].Recyclable();
    var j := InnerIndex(c, b);
    assert j <= k;
  }

  /**
   What the buffers mean: an unused buffer is idle; a used one is valid, sits in the slot of its
   block number, so no block is cached twice, and agrees with the machine's view of the block.
   */
  ghost predicate Coupled(bufs: seq<Buf>, d: Disk, c: Cache, slot: map<nat, nat>) {
    && |bufs| == NBUF && slot.Keys == c.Keys
    && (forall i :: 0 <= i < NBUF ==>
          || (bufs[i].dev == NODEV && !bufs[i].busy && !bufs[i].dirty && !bufs[i].valid)
          || (bufs[i].dev == ROOTDEV && bufs[i].valid && bufs[i].blockno in slot && slot[bufs[i].blockno] == i))
    && (forall b :: b in slot ==> slot[b] < NBUF && bufs[slot[b]].Is(b) && b < |d|)
    && (forall b :: b in c ==>
          && c[b].data == bufs[slot[b]].data
          && c[b].dirty == bufs[slot[b]].dirty
          && (c[b].holder != Free <==> bufs[slot[b]].busy))
  }

  lemma CoupledUpdate(bufs: seq<Buf>, d: Disk, c: Cache, slot: map<nat, nat>, b: nat, nb: Buf, cb: CBuf, e: Disk)
    requires Coupled(bufs, d, c, slot) && b in slot && |e| == |d|
    requires nb.Is(b) && nb.valid && nb.data == cb.data && nb.dirty == cb.dirty && (nb.busy <==> cb.holder != Free)
    ensures Coupled(bufs[slot[b] := nb], e, c[b := cb], slot)
  {
    var bufs' := bufs[slot[b] := nb];
    assert forall x :: x in slot && x != b ==> slot[x] != slot[b];
  }

  /** The block that buffer `i` gives up when it is recycled, or -1 if it held none. */
  function Evicted(b: Buf): (ev: int) {
    if b.dev == NODEV then -1 else b.blockno
  }

  function Drop<T>(m: map<nat, T>, ev: int): (r: map<nat, T>) {
    if ev >= 0 then m - {ev} else m
  }

  /** The machine's cache after an eviction of `ev` (none if negative) and a Get of block `no`. */
  function Taken(c: Cache, ev: int, no: nat, data: Block, h: Holder): (r: Cache) {
    var e := Drop(c, ev);
    var b := if no in e then e[no] else CBuf(data, false, false, Free);
    e[no := b.(holder := h)]
  }

  function Idle(b: Buf): (r: Buf) {
    b.(dev := NODEV, busy := false, dirty := false, valid := false)
  }

  /** Dropping the block of an idle clean buffer leaves the buffer unused. */
  lemma CoupledEvict(bufs: seq<Buf>, d: Disk, c: Cache, slot: map<nat, nat>, i: nat)
    requires Coupled(bufs, d, c, slot) && i < NBUF && bufs[i].Recyclable()
    ensures var ev := Evicted(bufs[i]);
      && (ev >= 0 ==> ev in c && c[ev].holder == Free && !c[ev].dirty)
      && Coupled(bufs[i := Idle(bufs[i])], d, Drop(c, ev), Drop(slot, ev))
  {
    assert forall b :: b in slot && slot[b] == i ==> bufs[i].Is(b);
  }

  /** An unused buffer takes in an absent block. */
  lemma CoupledAdd(bufs: seq<Buf>, d: Disk, c: Cache, slot: map<nat, nat>, i: nat, no: nat, h: Holder)
    requires Coupled(bufs, d, c, slot) && i < NBUF && bufs[i].dev == NODEV && no < |d| && no !in c && h != Free
    ensures Coupled(bufs[i := Buf(ROOTDEV, no, true, true, false, d[no])], d, c[no := CBuf(d[no], false, false, h)], slot[no := i])
  {
    assert forall b :: b in slot ==> slot[b] != i;
  }

  /** Recycling an idle clean buffer for an absent block is an eviction followed by a Get. */
  lemma CoupledRecycle(bufs: seq<Buf>, d: Disk, c: Cache, slot: map<nat, nat>, i: nat, no: nat, h: Holder)
    requires Coupled(bufs, d, c, slot) && i < NBUF && Absent(bufs, no) && no < |d| && h != Free
    requires bufs[i].Recyclable()
    ensures var ev := Evicted(bufs[i]); var nb := Buf(ROOTDEV, no, true, true, false, d[no]);
      && Coupled(bufs[i := nb], d, Taken(c, ev, no, d[no], h), Drop(slot, ev)[no := i])
      && ev != no && no !in c
      && (ev >= 0 ==> ev in c && c[ev].holder == Free && !c[ev].dirty)
  {
    assert no !in slot;
    CoupledEvict(bufs, d, c, slot, i);
    var ev, idle := Evicted(bufs[i]), bufs[i := Idle(bufs[i])];
    CoupledAdd(idle, d, Drop(c, ev), Drop(slot, ev), i, no, h);
    assert idle[i := Buf(ROOTDEV, no, true, true, false, d[no])] == bufs[i := Buf(ROOTDEV, no, true, true, false, d[no])];
  }

  /** Taking a cached idle buffer is a Get without eviction. */
  lemma CoupledHit(bufs: seq<Buf>, d: Disk, c: Cache, slot: map<nat, nat>, i: nat, no: nat, h: Holder)
    requires Coupled(bufs, d, c, slot) && i < NBUF && bufs[i].Is(no) && !bufs[i].busy && no < |d| && h != Free
    ensures no in slot && slot[no] == i && c[no].holder == Free && bufs[i].valid
    ensures Coupled(bufs[i := bufs[i].(busy := true)], d, Taken(c, -1, no, d[no], h), slot)
  {
    CoupledUpdate(bufs, d, c, slot, no, bufs[i].(busy := true), c[no].(holder := h), d);
  }

  lemma CoupledMiss(bufs: seq<Buf>, d: Disk, c: Cache, slot: map<nat, nat>, no: nat)
    requires Coupled(bufs, d, c, slot)
    ensures Absent(bufs, no) ==> no !in c
    ensures forall i :: 0 <= i < NBUF && bufs[i].Is(no) && bufs[i].busy ==> no in c && c[no].holder != Free
  {
  }

  /** The coupling, sealed. */
  ghost predicate Consistent(bufs: seq<Buf>, d: Disk, c: Cache, slot: map<nat, nat>) {
    && |bufs| == NBUF && slot.Keys == c.Keys
    && forall k: nat {:trigger MapOpen(k)} :: MapOpen(k) ==> Coupled(bufs, d, c, slot)
  }

  lemma ConsistentRecycle(bufs: seq<Buf>, d: Disk, c: Cache, slot: map<nat, nat>, i: nat, no: nat, h: Holder)
    requires Consistent(bufs, d, c, slot) && i < NBUF && Absent(bufs, no) && no < |d| && h != Free
    requires bufs[i].Recyclable()
    ensures var ev := Evicted(bufs[i]); var nb := Buf(ROOTDEV, no, true, true, false, d[no]);
      && Consistent(bufs[i := nb], d, Taken(c, ev, no, d[no], h), Drop(slot, ev)[no := i])
      && ev != no && no !in c
      && (ev >= 0 ==> ev in c && c[ev].holder == Free && !c[ev].dirty)
  {
    assert MapOpen(0);
    CoupledRecycle(bufs, d, c, slot, i, no, h);
  }

  lemma ConsistentHit(bufs: seq<Buf>, d: Disk, c: Cache, slot: map<nat, nat>, i: nat, no: nat, h: Holder)
    requires Consistent(bufs, d, c, slot) && i < NBUF && bufs[i].Is(no) && !bufs[i].busy && no < |d| && h != Free
    ensures no in slot && slot[no] == i && c[no].holder == Free && bufs[i].valid
    ensures Consistent(bufs[i := bufs[i].(busy := true)], d, Taken(c, -1, no, d[no], h), slot)
  {
    assert MapOpen(0);
    CoupledHit(bufs, d, c, slot, i, no, h);
  }

  lemma ConsistentMiss(bufs: seq<Buf>, d: Disk, c: Cache, slot: map<nat, nat>, no: nat)
    requires Consistent(bufs, d, c, slot)
    ensures Absent(bufs, no) ==> no !in c
    ensures forall i :: 0 <= i < NBUF && bufs[i].Is(no) && bufs[i].busy ==> no in c && c[no].holder != Free
  {
    assert MapOpen(0);
    CoupledMiss(bufs, d, c, slot, no);
  }

  class BufferCache {
    const buf: array<Buf>
    const next: array<nat>
    const prev: array<nat>
    var disk: Disk
    ghost var ring: seq<nat>
    ghost var cache: Cache
    ghost var slot: map<nat, nat>

    ghost predicate Linked()
      reads this, next, prev
    {
      next != prev && Ring(ring, next[..], prev[..]) && Complete(ring)
    }

    ghost predicate RingValid()
      reads this, next, prev
    {
      forall k: nat {:trigger RingOpen(k)} :: RingOpen(k) ==> Linked()
    }

    ghost predicate MapValid()
      reads this, buf
    {
      && buf.Length == NBUF && slot.Keys == cache.Keys
      && forall k: nat {:trigger MapOpen(k)} :: MapOpen(k) ==> Coupled(buf[..], disk, cache, slot)
    }

    ghost predicate Valid()
      reads this, buf, next, prev
    {
      RingValid() && MapValid()
    }

    /** What Valid() says of the buffer of a cached block. */
    lemma Holds(no: nat)
      requires Valid() && no in cache
      ensures slot[no] < NBUF && buf[slot[no]].Is(no) && no < |disk|
      ensures buf[slot[no]].data == cache[no].data
      ensures buf[slot[no]].busy <==> cache[no].holder != Free
    {
      assert MapOpen(0);
    }

    /** binit: link the buffers in one by one behind the head. */
    constructor (d: Disk)
      ensures Valid() && disk == d && cache == map[]
      ensures fresh(buf) && fresh(next) && fresh(prev)
    {
      var zero: Block := seq(BWORDS, _ => 0);
      disk := d;
      buf := new Buf[NBUF](_ => Buf(NODEV, 0, false, false, false, zero));
      next := new nat[NBUF + 1](_ => NBUF);
      prev := new nat[NBUF + 1](_ => NBUF);
      cache := map[];
      slot := map[];
      ring := [NBUF, NBUF];
      new;
      for b := 0 to NBUF
        invariant Ring(ring, next[..], prev[..])
        invariant fresh(next) && fresh(prev) && next != prev && buf.Length == NBUF
        invariant disk == d && cache == map[] && slot == map[]
        invariant forall i :: 0 <= i < NBUF ==> buf[i] == Buf(NODEV, 0, false, false, false, zero)
        invariant forall i :: 0 <= i < b ==> i in ring
        invariant forall i :: b <= i < NBUF ==> i !in ring
      {
        ghost var r := ring;
        PushFront(b);
        BehindMembers(r, b);
      }
    }

    /** The four assignments that binit and brelse share: link `b` in behind the head. */
    method PushFront(b: nat)
      requires next != prev && Ring(ring, next[..], prev[..]) && b < NBUF && b !in ring
      modifies this`ring, next, prev
      ensures ring == Behind(old(ring), b) && Ring(ring, next[..], prev[..])
    {
      ghost var n: seq<nat>, p: seq<nat>, r := next[..], prev[..], ring;
      LinkRing(r, b, n, p);
      next[b] := next[NBUF];
      prev[b] := NBUF;
      prev[next[NBUF]] := b;
      next[NBUF] := b;
      ring := Behind(r, b);
      assert next[..] == n[b := r[1]][NBUF := b];
      assert prev[..] == p[b := NBUF][r[1] := b];
    }

    /** The first loop of bget, forward from the most recently used: the buffer of the block, or the head. */
    method FindCached(no: nat) returns (b: nat)
      requires RingValid() && buf.Length == NBUF
      ensures b <= NBUF && (b < NBUF ==> buf[b].Is(no)) && (b == NBUF ==> Absent(buf[..], no))
    {
      assert RingOpen(0);
      ghost var c := ring;
      ChainAt(c, next[..], prev[..], 0);
      b := next[NBUF];
      ghost var k := 1;
      while b != NBUF && !buf[b].Is(no)
        invariant 1 <= k < |c| && b == c[k]
        invariant forall j :: 0 < j < k ==> !buf[c[j]].Is(no)
        decreases |c| - k
      {
        ChainAt(c, next[..], prev[..], k);
        b := next[b];
        k := k + 1;
      }
      if b == NBUF {
        forall i | 0 <= i < NBUF
          ensures !buf[i].Is(no)
        {
          var j := InnerIndex(c, i);
        }
      }
    }

    /** The second loop, backward from the least recently used: the first buffer neither busy nor dirty, or the head. */
    method FindVictim() returns (b: nat)
      requires RingValid() && buf.Length == NBUF
      ensures b <= NBUF && (b < NBUF ==> Victim(ring, buf[..], b))
      ensures b == NBUF ==> forall i :: 0 <= i < NBUF ==> !buf[i].Recyclable()
    {
      assert RingOpen(0);
      ghost var c := ring;
      ChainAt(c, next[..], prev[..], |c| - 2);
      b := prev[NBUF];
      ghost var k := |c| - 2;
      while b != NBUF && (buf[b].busy || buf[b].dirty)
        invariant 0 <= k < |c| - 1 && b == c[k]
        invariant forall j :: k < j < |c| - 1 ==> !buf[c[j]].Recyclable()
        decreases k
      {
        ChainAt(c, next[..], prev[..], k - 1);
        b := prev[b];
        k := k - 1;
      }
      if b == NBUF {
        forall i | 0 <= i < NBUF
          ensures !buf[i].Recyclable()
        {
          var j := InnerIndex(c, i);
        }
      }
    }

    /** One pass of bget under bcache.lock. */
    method Bget(no: nat) returns (r: GetResult)
      requires RingValid() && buf.Length == NBUF
      modifies buf
      ensures r.Got? ==> r.i < NBUF && !old(buf[r.i].busy)
      ensures r.Got? && old(buf[r.i]).Is(no) ==> buf[..] == old(buf[..])[r.i := old(buf[r.i]).(busy := true)]
      ensures r.Got? && !old(buf[r.i]).Is(no) ==>
        && Absent(old(buf[..]), no) && Victim(ring, old(buf[..]), r.i)
        && buf[..] == old(buf[..])[r.i := Buf(ROOTDEV, no, true, false, false, old(buf[r.i]).data)]
      ensures r.MustSleep? ==> r.i < NBUF && buf[r.i].Is(no) && buf[r.i].busy && buf[..] == old(buf[..])
      ensures r.NoBuffers? ==> buf[..] == old(buf[..]) && Absent(buf[..], no)
      ensures r.NoBuffers? ==> forall i :: 0 <= i < NBUF ==> !buf[i].Recyclable()
    {
      var b := FindCached(no);
      if b != NBUF {
        if !buf[b].busy {
          buf[b] := buf[b].(busy := true);
          return Got(b);
        }
        return MustSleep(b);
      }
      b := FindVictim();
      if b != NBUF {
        assert !buf[..][b].Is(no);
        buf[b] := Buf(ROOTDEV, no, true, false, false, buf[b].data);
        return Got(b);
      }
      return NoBuffers;
    }

    /** iderw, by its stated contract: write if dirty, else read. */
    method Iderw(i: nat)
      requires buf.Length == NBUF && i < NBUF && buf[i].busy && buf[i].dev == ROOTDEV && buf[i].blockno < |disk|
      requires buf[i].dirty || !buf[i].valid
      modifies this`disk, buf
      ensures var b := old(buf[i]);
        if b.dirty then
          disk == old(disk)[b.blockno := b.data] && buf[..] == old(buf[..])[i := b.(dirty := false, valid := true)]
        else
          disk == old(disk) && buf[..] == old(buf[..])[i := b.(data := disk[b.blockno], valid := true)]
    {
      if buf[i].dirty {
        disk := disk[buf[i].blockno := buf[i].data];
        buf[i] := buf[i].(dirty := false, valid := true);
      } else {
        buf[i] := buf[i].(data := disk[buf[i].blockno], valid := true);
      }
    }

    /** bread on behalf of `h`; `ev` is the block whose buffer was recycled, or -1. */
    method Bread(no: nat, ghost h: Holder) returns (r: GetResult, ghost ev: int)
      requires Valid() && no < |disk| && h != Free
      modifies this`disk, this`cache, this`slot, buf
      ensures Valid() && disk == old(disk)
      ensures !r.Got? ==> cache == old(cache) && slot == old(slot) && buf[..] == old(buf[..])
      ensures r.MustSleep? ==> no in cache && cache[no].holder != Free
      ensures r.NoBuffers? ==> no !in cache && forall i :: 0 <= i < NBUF ==> !buf[i].Recyclable()
      ensures r.Got? ==> r.i < NBUF && no in slot && slot[no] == r.i
      ensures r.Got? && ev >= 0 ==> ev in old(cache) && old(cache)[ev].holder == Free && !old(cache)[ev].dirty
      ensures r.Got? ==> ev != no && (no in old(cache) ==> old(cache)[no].holder == Free)
      ensures r.Got? ==> cache == Taken(old(cache), ev, no, disk[no], h)
      ensures forall b :: b in slot && b in old(slot) ==> slot[b] == old(slot)[b]
    {
      ghost var bufs, c, s := buf[..], cache, slot;
      assert Consistent(bufs, disk, c, s);
      ev := -1;
      r := Bget(no);
      if r.Got? {
        if bufs[r.i].Is(no) { ConsistentHit(bufs, disk, c, s, r.i, no, h); }
        if !buf[r.i].valid {
          Iderw(r.i);
          ev := Evicted(bufs[r.i]);
          ConsistentRecycle(bufs, disk, c, s, r.i, no, h);
          slot := Drop(s, ev)[no := r.i];
          assert buf[..] == bufs[r.i := Buf(ROOTDEV, no, true, true, false, disk[no])];
        }
        cache := Taken(c, ev, no, disk[no], h);
        assert Consistent(buf[..], disk, cache, slot);
      } else {
        ConsistentMiss(bufs, disk, c, s, no);
      }
    }

    /** memmove into the data of a busy buffer; `t` says whether an operation does it. */
    method Fill(i: nat, data: Block, ghost t: bool)
      requires Valid() && i < NBUF && buf[i].busy
      modifies this`cache, buf
      ensures Valid() && buf[..] == old(buf[..])[i := old(buf[i]).(data := data)]
      ensures var b := buf[i].blockno;
        b in old(cache) && cache == old(cache)[b := old(cache)[b].(data := data, touched := t || old(cache)[b].touched)]
    {
      assert MapOpen(0);
      ghost var bufs, b := buf[..], buf[i].blockno;
      ghost var cb := cache[b].(data := data, touched := t || cache[b].touched);
      CoupledUpdate(bufs, disk, cache, slot, b, bufs[i].(data := data), cb, disk);
      buf[i] := buf[i].(data := data);
      cache := cache[b := cb];
    }

    /** The flag that log_write sets: B_DIRTY keeps the buffer from being recycled. */
    method Pin(i: nat)
      requires Valid() && i < NBUF && buf[i].busy
      modifies this`cache, buf
      ensures Valid() && buf[..] == old(buf[..])[i := old(buf[i]).(dirty := true)]
      ensures var b := buf[i].blockno;
        b in old(cache) && cache == old(cache)[b := old(cache)[b].(dirty := true, touched := false)]
    {
      assert MapOpen(0);
      ghost var bufs, b := buf[..], buf[i].blockno;
      ghost var cb := cache[b].(dirty := true, touched := false);
      CoupledUpdate(bufs, disk, cache, slot, b, bufs[i].(dirty := true), cb, disk);
      buf[i] := buf[i].(dirty := true);
      cache := cache[b := cb];
    }

    method Bwrite(i: nat)
      requires Valid() && i < NBUF && buf[i].busy
      modifies this`disk, this`cache, buf
      ensures Valid() && buf[..] == old(buf[..])[i := old(buf[i]).(dirty := false)]
      ensures var b := buf[i].blockno;
        && b in old(cache) && b < |old(disk)| && disk == old(disk)[b := old(cache)[b].data]
        && cache == old(cache)[b := old(cache)[b].(dirty := false)]
    {
      assert MapOpen(0);
      ghost var bufs, b := buf[..], buf[i].blockno;
      ghost var cb := cache[b].(dirty := false);
      CoupledUpdate(bufs, disk, cache, slot, b, bufs[i].(dirty := false), cb, disk[b := cache[b].data]);
      buf[i] := buf[i].(dirty := true);
      Iderw(i);
      cache := cache[b := cb];
      assert buf[..] == bufs[i := bufs[i].(dirty := false)];
    }

    /** memmove followed by bwrite, as the log code always uses them. */
    method Overwrite(i: nat, data: Block)
      requires Valid() && i < NBUF && buf[i].busy
      modifies this`disk, this`cache, buf
      ensures Valid() && buf[..] == old(buf[..])[i := old(buf[i]).(data := data, dirty := false)]
      ensures var b := buf[i].blockno;
        && b in old(cache) && b < |old(disk)| && disk == old(disk)[b := data]
        && cache == old(cache)[b := old(cache)[b].(data := data, dirty := false)]
    {
      assert MapOpen(0);
      ghost var bufs, b := buf[..], buf[i].blockno;
      ghost var cb := cache[b].(data := data, dirty := false);
      CoupledUpdate(bufs, disk, cache, slot, b, bufs[i].(data := data, dirty := false), cb, disk[b := data]);
      buf[i] := buf[i].(data := data, dirty := true);
      Iderw(i);
      cache := cache[b := cb];
      assert buf[..] == bufs[i := bufs[i].(data := data, dirty := false)];
    }

    /** The pointer half of brelse: unlink the buffer and link it in again behind the head. */
    method Relink(i: nat)
      requires RingValid() && i < NBUF
      modifies this`ring, next, prev
      ensures RingValid()
      ensures Releases(old(ring), i, ring)
    {
      assert RingOpen(0);
      ghost var c := ring;
      ghost var k := InnerIndex(c, i);
      ghost var n: seq<nat>, p: seq<nat> := next[..], prev[..];
      UnlinkRing(c, k, n, p);
      ToFrontComplete(c, k);
      prev[next[i]] := prev[i];
      next[prev[i]] := next[i];
      ring := Without(c, k);
      assert next[..] == n[c[k - 1] := c[k + 1]] && prev[..] == p[c[k + 1] := c[k - 1]];
      PushFront(i);
    }

    /** brelse: back behind the head, and free. */
    method Brelse(i: nat)
      requires Valid() && i < NBUF && buf[i].busy
      modifies this`ring, this`cache, buf, next, prev
      ensures Valid() && buf[..] == old(buf[..])[i := old(buf[i]).(busy := false)]
      ensures Releases(old(ring), i, ring)
      ensures var b := buf[i].blockno;
        b in old(cache) && cache == old(cache)[b := old(cache)[b].(holder := Free)]
    {
      assert MapOpen(0);
      ghost var bufs, b := buf[..], buf[i].blockno;
      Relink(i);
      ghost var cb := cache[b].(holder := Free);
      CoupledUpdate(bufs, disk, cache, slot, b, bufs[i].(busy := false), cb, disk);
      buf[i] := buf[i].(busy := false);
      cache := cache[b := cb];
      assert buf[..] == bufs[i := bufs[i].(busy := false)];
    }
  }
}
