/**
 Which disk blocks the calls of log_write in fs.c name: the bitmap block and the zeroed block in
 balloc, the indirect block in bmap, the data block in writei, the inode's block in iupdate. The
 blocks of a write depend only on where it starts and ends and on the size of the file.
 */
module InodeLog {
  import opened Sealing
  import opened InodeSpec

  const BPB: nat := 4096
  const IPB: nat := 8

  /** A bitmap block, a block of a file or an indirect block, a block of inodes: three disjoint regions of the disk. */
  datatype Logged = BitBlock(n: nat) | FileBlock(b: nat) | InodeBlock(n: nat)

  /** From one bitmap and blocks to the other nothing has changed outside the blocks of `log`. */
  ghost predicate Elsewhere(used: seq<bool>, blocks: seq<Block>, used': seq<bool>, blocks': seq<Block>, log: set<Logged>) {
    && |blocks'| == |blocks| && |used'| == |used|
    && (forall b :: 0 <= b < |blocks| && FileBlock(b) !in log ==> blocks'[b] == blocks[b])
    && (forall b :: 0 <= b < |used| && BitBlock(b / BPB) !in log ==> used'[b] == used[b])
  }

  ghost predicate Confined(used: seq<bool>, blocks: seq<Block>, used': seq<bool>, blocks': seq<Block>, log: set<Logged>) {
    forall k: nat {:trigger ConfinedOpen(k)} :: ConfinedOpen(k) ==> Elsewhere(used, blocks, used', blocks', log)
  }

  lemma ConfinedTwice(fs: Fs, u: Fs, r: Fs, a: set<Logged>, b: set<Logged>)
    requires Confined(fs.used, fs.blocks, u.used, u.blocks, a) && Confined(u.used, u.blocks, r.used, r.blocks, b) && a <= b
    ensures Confined(fs.used, fs.blocks, r.used, r.blocks, b)
  {
    assert ConfinedOpen(0);
    forall c | 0 <= c < |fs.used| && BitBlock(c / BPB) !in b ensures r.used[c] == fs.used[c] { assert BitBlock(c / BPB) !in a; }
  }

  lemma TakeConfined(fs: Fs, b: nat, log: set<Logged>)
    requires b < |fs.used| == |fs.blocks| && BallocLog(b) <= log
    ensures Confined(fs.used, fs.blocks, Take(fs, b).used, Take(fs, b).blocks, log)
  {
  }

  /** One block more that is logged. */
  lemma PutConfined(fs: Fs, u: Fs, b: nat, c: Block, log: set<Logged>)
    requires Confined(fs.used, fs.blocks, u.used, u.blocks, log) && b < |u.blocks|
    ensures Confined(fs.used, fs.blocks, u.used, u.blocks[b := c], log + {FileBlock(b)})
  {
    assert ConfinedOpen(0);
  }

  /** The blocks a file of `size` bytes needs. */
  function Blocks(size: nat): (n: nat) {
    (size + BSIZE - 1) / BSIZE
  }

  /** log_write calls of a balloc that hands out block `b`. */
  function BallocLog(b: nat): (s: set<Logged>) {
    {BitBlock(b / BPB), FileBlock(b)}
  }

  /** log_write calls of bmap at block `k` of file `i`, from `fs` to `r`. */
  function BmapLog(fs: Fs, r: Fs, i: nat, k: nat): (s: set<Logged>)
    requires Shape(fs) && Shape(r) && i < |fs.inodes| == |r.inodes| && k < MAXFILE
  {
    if Addr(fs, i, k) != 0 then {}
    else if k < NDIRECT then BallocLog(Addr(r, i, k))
    else BallocLog(Addr(r, i, k)) + {FileBlock(IndexBlock(r, i))} + if IndexBlock(fs, i) == 0 then BallocLog(IndexBlock(r, i)) else {}
  }

  /** Some block from `lo` to `hi` is new and listed in the indirect block. */
  ghost predicate Lists(fs: Fs, i: nat, lo: nat, hi: nat)
    requires Shape(fs) && i < |fs.inodes| && hi <= MAXFILE
  {
    exists k :: lo <= k < hi && k >= NDIRECT && Addr(fs, i, k) == 0
  }

  /** The blocks `lo` to `hi` of file `i`. */
  ghost function FilesOf(r: Fs, i: nat, lo: nat, hi: nat): (s: set<Logged>)
    requires Shape(r) && i < |r.inodes| && hi <= MAXFILE
    ensures forall l :: l in s ==> l.FileBlock?
  {
    set k | lo <= k < hi :: FileBlock(Addr(r, i, k))
  }

  /** The bitmap blocks of those among them that `fs` does not have. */
  ghost function NewBits(fs: Fs, r: Fs, i: nat, lo: nat, hi: nat): (s: set<Logged>)
    requires Shape(fs) && Shape(r) && i < |fs.inodes| == |r.inodes| && hi <= MAXFILE
    ensures forall l :: l in s ==> l.BitBlock?
  {
    set k | lo <= k < hi && Addr(fs, i, k) == 0 :: BitBlock(Addr(r, i, k) / BPB)
  }

  /** The indirect block, if it lists a new block, and its bitmap block, if it is new itself. */
  ghost function IndexLog(fs: Fs, r: Fs, i: nat, lo: nat, hi: nat): (s: set<Logged>)
    requires Shape(fs) && i < |fs.inodes| && hi <= MAXFILE
    requires Shape(r) && i < |r.inodes|
  {
    if Lists(fs, i, lo, hi) then {FileBlock(IndexBlock(r, i))} else {}
  }

  ghost function IndexBit(fs: Fs, r: Fs, i: nat, lo: nat, hi: nat): (s: set<Logged>)
    requires Shape(fs) && i < |fs.inodes| && hi <= MAXFILE
    requires Shape(r) && i < |r.inodes|
  {
    if Lists(fs, i, lo, hi) && IndexBlock(fs, i) == 0 then {BitBlock(IndexBlock(r, i) / BPB)} else {}
  }

  /** log_write calls of the loop of writei over blocks `lo` to `hi`. */
  ghost function RangeLog(fs: Fs, r: Fs, i: nat, lo: nat, hi: nat): (s: set<Logged>)
    requires Shape(fs) && Shape(r) && i < |fs.inodes| == |r.inodes| && hi <= MAXFILE
  {
    FilesOf(r, i, lo, hi) + IndexLog(fs, r, i, lo, hi) + (NewBits(fs, r, i, lo, hi) + IndexBit(fs, r, i, lo, hi))
  }

  /** From `fs` to `r` file `i` got blocks `lo` to `hi` and kept what it had. */
  ghost predicate Gains(fs: Fs, r: Fs, i: nat, lo: nat, hi: nat)
    requires Shape(fs) && Shape(r) && hi <= MAXFILE
  {
    && i < |fs.inodes| == |r.inodes|
    && (forall k :: 0 <= k < MAXFILE && (k < lo || k >= hi || Addr(fs, i, k) != 0) ==> Addr(r, i, k) == Addr(fs, i, k))
    && (if Lists(fs, i, lo, hi) then IndexBlock(r, i) != 0 else IndexBlock(r, i) == IndexBlock(fs, i))
    && (IndexBlock(fs, i) != 0 ==> IndexBlock(r, i) == IndexBlock(fs, i))
  }

  lemma ListsMore(fs: Fs, i: nat, lo: nat, k: nat)
    requires Shape(fs) && i < |fs.inodes| && lo <= k < MAXFILE
    ensures Lists(fs, i, lo, k + 1) <==> Lists(fs, i, lo, k) || (k >= NDIRECT && Addr(fs, i, k) == 0)
  {
    if Lists(fs, i, lo, k) {
      var m :| lo <= m < k && m >= NDIRECT && Addr(fs, i, m) == 0;
      assert lo <= m < k + 1;
    }
  }

  /** No log_write yet, and one turn of the loop more. */
  lemma RangeNone(fs: Fs, i: nat, lo: nat)
    requires Shape(fs) && i < |fs.inodes| && lo <= MAXFILE
    ensures RangeLog(fs, fs, i, lo, lo) == {} && Gains(fs, fs, i, lo, lo)
  {
  }

  lemma GainsMore(fs: Fs, u: Fs, r: Fs, i: nat, lo: nat, k: nat)
    requires Shape(fs) && Shape(u) && Shape(r) && lo <= k < MAXFILE && Gains(fs, u, i, lo, k) && Gains(u, r, i, k, k + 1)
    ensures Gains(fs, r, i, lo, k + 1)
  {
    ListsMore(fs, i, lo, k);
    ListsMore(u, i, k, k);
    forall m | 0 <= m < MAXFILE && (m < lo || m >= k + 1 || Addr(fs, i, m) != 0)
      ensures Addr(r, i, m) == Addr(fs, i, m)
    {
      assert Addr(u, i, m) == Addr(fs, i, m);
    }
  }

  lemma RangeMore(fs: Fs, u: Fs, r: Fs, i: nat, lo: nat, k: nat)
    requires Shape(fs) && Shape(u) && Shape(r) && lo <= k < MAXFILE && Gains(fs, u, i, lo, k) && Gains(u, r, i, k, k + 1)
    ensures RangeLog(fs, r, i, lo, k + 1) == RangeLog(fs, u, i, lo, k) + BmapLog(u, r, i, k) + {FileBlock(Addr(r, i, k))}
  {
    ListsMore(fs, i, lo, k);
    ListsMore(u, i, k, k);
    assert Addr(u, i, k) == Addr(fs, i, k);
    FilesMore(u, r, i, lo, k);
    BitsMore(fs, u, r, i, lo, k);
    Regroup(FilesOf(u, i, lo, k), FileBlock(Addr(r, i, k)), NewBits(fs, u, i, lo, k), IndexLog(fs, u, i, lo, k), IndexBit(fs, u, i, lo, k),
      NewBits(fs, r, i, lo, k + 1), IndexLog(fs, r, i, lo, k + 1), IndexBit(fs, r, i, lo, k + 1), BmapLog(u, r, i, k));
  }

  lemma Regroup(f: set<Logged>, x: Logged, n: set<Logged>, a: set<Logged>, b: set<Logged>, n': set<Logged>,
                a': set<Logged>, b': set<Logged>, m: set<Logged>)
    requires n <= n' && a <= a' && b <= b' && m <= n' + a' + b' + {x} && n' + a' + b' <= n + a + b + m
    ensures (f + {x}) + a' + (n' + b') == f + a + (n + b) + m + {x}
  {
  }

  lemma FilesMore(u: Fs, r: Fs, i: nat, lo: nat, k: nat)
    requires Shape(u) && Shape(r) && i < |u.inodes| == |r.inodes| && lo <= k < MAXFILE
    requires forall m :: lo <= m < k ==> Addr(r, i, m) == Addr(u, i, m)
    ensures FilesOf(r, i, lo, k + 1) == FilesOf(u, i, lo, k) + {FileBlock(Addr(r, i, k))}
  {
    var x, y := FilesOf(r, i, lo, k + 1), FilesOf(u, i, lo, k);
    forall l | l in x ensures l in y + {FileBlock(Addr(r, i, k))} {
      var m :| lo <= m < k + 1 && l == FileBlock(Addr(r, i, m));
      if m < k { assert l == FileBlock(Addr(u, i, m)); }
    }
    forall l | l in y ensures l in x {
      var m :| lo <= m < k && l == FileBlock(Addr(u, i, m));
      assert lo <= m < k + 1 && l == FileBlock(Addr(r, i, m));
    }
    assert FileBlock(Addr(r, i, k)) in x;
  }

  lemma BitsMore(fs: Fs, u: Fs, r: Fs, i: nat, lo: nat, k: nat)
    requires Shape(fs) && Shape(u) && Shape(r) && i < |fs.inodes| == |u.inodes| == |r.inodes| && lo <= k < MAXFILE
    requires forall m :: lo <= m < k ==> Addr(r, i, m) == Addr(u, i, m)
    ensures NewBits(fs, r, i, lo, k + 1) == NewBits(fs, u, i, lo, k) + if Addr(fs, i, k) == 0 then {BitBlock(Addr(r, i, k) / BPB)} else {}
  {
    var x, y := NewBits(fs, r, i, lo, k + 1), NewBits(fs, u, i, lo, k);
    forall l | l in x ensures l in y + if Addr(fs, i, k) == 0 then {BitBlock(Addr(r, i, k) / BPB)} else {} {
      var m :| lo <= m < k + 1 && Addr(fs, i, m) == 0 && l == BitBlock(Addr(r, i, m) / BPB);
      if m < k { assert l == BitBlock(Addr(u, i, m) / BPB); }
    }
    forall l | l in y ensures l in x {
      var m :| lo <= m < k && Addr(fs, i, m) == 0 && l == BitBlock(Addr(u, i, m) / BPB);
      assert lo <= m < k + 1 && l == BitBlock(Addr(r, i, m) / BPB);
    }
  }

  /** From `fs` to `r` the loop of writei went over blocks `lo` to `hi`, and log_write calls took `was` to `now`. */
  ghost predicate Logs(fs: Fs, r: Fs, i: nat, lo: nat, hi: nat, was: set<Logged>, now: set<Logged>) {
    && Shape(fs) && Shape(r) && hi <= MAXFILE && i < |fs.inodes| == |r.inodes|
    && forall k: nat {:trigger LoggedOpen(k)} :: LoggedOpen(k) ==>
         Gains(fs, r, i, lo, hi) && now == was + RangeLog(fs, r, i, lo, hi)
  }

  lemma LogsNone(fs: Fs, i: nat, lo: nat, was: set<Logged>)
    requires Shape(fs) && i < |fs.inodes| && lo <= MAXFILE
    ensures Logs(fs, fs, i, lo, lo, was, was)
  {
    RangeNone(fs, i, lo);
  }

  /** The same addresses: the same calls. */
  lemma RangeSame(fs: Fs, u: Fs, r: Fs, i: nat, lo: nat, hi: nat)
    requires Shape(fs) && Shape(u) && Shape(r) && i < |fs.inodes| == |u.inodes| == |r.inodes| && hi <= MAXFILE
    requires IndexBlock(r, i) == IndexBlock(u, i) && forall m :: 0 <= m < MAXFILE ==> Addr(r, i, m) == Addr(u, i, m)
    ensures RangeLog(fs, r, i, lo, hi) == RangeLog(fs, u, i, lo, hi)
    ensures Gains(fs, u, i, lo, hi) ==> Gains(fs, r, i, lo, hi)
  {
    assert FilesOf(r, i, lo, hi) == FilesOf(u, i, lo, hi);
    assert NewBits(fs, r, i, lo, hi) == NewBits(fs, u, i, lo, hi);
  }

  /** bmap, and the log_write of the block written. */
  lemma StoreLogs(fs: Fs, u: Fs, r: Fs, i: nat, k: nat, was: set<Logged>, now: set<Logged>)
    requires Shape(fs) && Shape(u) && Shape(r) && k < MAXFILE && Gains(fs, u, i, k, k + 1) && |r.inodes| == |u.inodes|
    requires IndexBlock(r, i) == IndexBlock(u, i) && forall m :: 0 <= m < MAXFILE ==> Addr(r, i, m) == Addr(u, i, m)
    requires now == was + BmapLog(fs, u, i, k) + {FileBlock(Addr(u, i, k))}
    ensures Logs(fs, r, i, k, k + 1, was, now)
  {
    RangeNone(fs, i, k);
    RangeMore(fs, fs, u, i, k, k);
    RangeSame(fs, u, r, i, k, k + 1);
  }

  lemma LogsMore(fs: Fs, u: Fs, r: Fs, i: nat, lo: nat, k: nat, was: set<Logged>, mid: set<Logged>, now: set<Logged>)
    requires lo <= k < MAXFILE && Logs(fs, u, i, lo, k, was, mid) && Logs(u, r, i, k, k + 1, mid, now)
    ensures Logs(fs, r, i, lo, k + 1, was, now)
  {
    assert LoggedOpen(0);
    RangeNone(u, i, k);
    RangeMore(u, u, r, i, k, k);
    RangeMore(fs, u, r, i, lo, k);
    GainsMore(fs, u, r, i, lo, k);
  }

  /** The block after the last one that the first `tot` bytes of a write from `start` reach. */
  function Reach(start: nat, tot: nat): (k: nat) {
    if tot == 0 then start / BSIZE else Blocks(start + tot)
  }

  /** A piece of a write lies in one block, the next one. */
  lemma ReachNext(start: nat, tot: nat, m: nat)
    requires m > 0 && (tot == 0 || (start + tot) % BSIZE == 0) && (start + tot) % BSIZE + m <= BSIZE
    ensures start / BSIZE <= (start + tot) / BSIZE == Reach(start, tot) && Reach(start, tot + m) == (start + tot) / BSIZE + 1
  {
  }

  lemma LogsNext(fs: Fs, u: Fs, r: Fs, i: nat, lo: nat, k: nat, hi: nat, hi': nat, was: set<Logged>, mid: set<Logged>, now: set<Logged>)
    requires lo <= k && hi == k && hi' == k + 1 && Logs(fs, u, i, lo, hi, was, mid) && Logs(u, r, i, k, k + 1, mid, now)
    ensures Logs(fs, r, i, lo, hi', was, now)
  {
    LogsMore(fs, u, r, i, lo, k, was, mid, now);
  }

  /** log_write calls of a writei of `n` bytes at `off` that takes `fs` to `r`. */
  ghost function WriteLog(fs: Fs, r: Fs, i: nat, off: nat, n: nat): (s: set<Logged>)
    requires Shape(fs) && Shape(r) && i < |fs.inodes| == |r.inodes| && off + n <= MAXBYTES
  {
    RangeLog(fs, r, i, off / BSIZE, Reach(off, n)) + if off + n > fs.inodes[i].size then {InodeBlock(i / IPB)} else {}
  }
}
