/**
 filewrite of file.c: a write in pieces, each inside one operation of the log. Whether a piece
 stays within the MAXOPBLOCKS blocks that begin_op reserves for it is decided by the blocks that
 writei, bmap, balloc and iupdate log for it, bitmap, indirect and inode block included.
 */
module FileWrite {
  import opened InodeSpec
  import opened InodeLog
  import opened InodeCode
  import opened Sealing
  import LogFormat

  const MAXOPBLOCKS: nat := LogFormat.MAXOPBLOCKS

  /** The most bytes filewrite hands to one writei, inside one operation. */
  const CHUNK: nat := (LogFormat.LOGSIZE - 1 - 1 - 2) / 2 * 512

  // ---------------------------------------------------------------- the blocks of one writei

  /**
   The distinct blocks a writei of `n` bytes at `off` logs, in a file of `size` bytes: the data blocks;
   a bitmap block if it needs new ones; the indirect block if it lists a new one there; the inode's
   block if the file grows.
   */
  function Cost(off: nat, n: nat, size: nat): (c: nat)
    requires off <= size
  {
    var hi := Reach(off, n);
    (if n == 0 then 0 else hi - off / BSIZE)
    + (if hi > Blocks(size) then 1 else 0)
    + (if hi > Blocks(size) && hi > NDIRECT then 1 else 0)
    + (if off + n > size then 1 else 0)
  }

  /** The data blocks from `lo` to `hi` are as many blocks. */
  lemma {:induction false} FilesCount(fs: Fs, owner: map<nat, Owner>, nmeta: nat, i: nat, lo: nat, hi: nat)
    requires Owned(fs, owner, nmeta) && i < |fs.inodes| && lo <= hi <= MAXFILE
    requires forall k :: lo <= k < hi ==> Addr(fs, i, k) != 0
    ensures |FilesOf(fs, i, lo, hi)| == hi - lo
    decreases hi - lo
  {
    if lo < hi {
      FilesCount(fs, owner, nmeta, i, lo, hi - 1);
      FilesMore(fs, fs, i, lo, hi - 1);
      forall k | lo <= k < hi - 1 ensures Addr(fs, i, k) != Addr(fs, i, hi - 1) { NoSharing(fs, owner, nmeta, i, hi - 1, i, k); }
      assert FileBlock(Addr(fs, i, hi - 1)) !in FilesOf(fs, i, lo, hi - 1);
    }
  }

  /** What is new in a file without holes lies past its end. */
  lemma NewBlocks(fs: Fs, i: nat, lo: nat, hi: nat, n: nat)
    requires Shape(fs) && i < |fs.inodes| && NoHoles(fs, i, n) && lo <= n && hi <= MAXFILE
    ensures forall k :: lo <= k < hi ==> (Addr(fs, i, k) == 0 <==> n <= k)
    ensures Lists(fs, i, lo, hi) <==> hi > n && hi > NDIRECT
  {
    if hi > n && hi > NDIRECT { assert lo <= hi - 1 < hi && Addr(fs, i, hi - 1) == 0; }
  }

  /** The bitmap blocks of the new blocks, those of the indirect block among them. */
  ghost function BitsOf(fs: Fs, r: Fs, i: nat, lo: nat, hi: nat): (s: set<Logged>)
    requires Shape(fs) && Shape(r) && i < |fs.inodes| == |r.inodes| && hi <= MAXFILE
  {
    NewBits(fs, r, i, lo, hi) + IndexBit(fs, r, i, lo, hi)
  }

  /** On a disk whose bitmap is one block there is one bitmap block, or none. */
  lemma BitsCount(fs: Fs, r: Fs, owner: map<nat, Owner>, nmeta: nat, i: nat, lo: nat, hi: nat, n: nat)
    requires Shape(fs) && Owned(r, owner, nmeta) && i < |fs.inodes| == |r.inodes| && lo <= n && lo <= hi <= MAXFILE
    requires NoHoles(fs, i, n) && forall k :: lo <= k < hi ==> Addr(r, i, k) != 0
    ensures |BitsOf(fs, r, i, lo, hi)| >= if hi > n then 1 else 0
    ensures |r.blocks| <= BPB ==> |BitsOf(fs, r, i, lo, hi)| == if hi > n then 1 else 0
  {
    NewBlocks(fs, i, lo, hi, n);
    var s := BitsOf(fs, r, i, lo, hi);
    if hi > n {
      var l := BitBlock(Addr(r, i, hi - 1) / BPB);
      assert lo <= hi - 1 < hi && l in s;
      assert {l} <= s;
      CardSub({l}, s);
      if |r.blocks| <= BPB {
        forall x | x in s
          ensures x == BitBlock(0)
        {
          OneBitmap(fs, r, owner, nmeta, i, lo, hi, x);
        }
        assert s == {BitBlock(0)};
      }
    } else {
      assert s == {};
    }
  }

  lemma OneBitmap(fs: Fs, r: Fs, owner: map<nat, Owner>, nmeta: nat, i: nat, lo: nat, hi: nat, x: Logged)
    requires Shape(fs) && Owned(r, owner, nmeta) && i < |fs.inodes| == |r.inodes| && lo <= hi <= MAXFILE && |r.blocks| <= BPB
    requires (forall k :: lo <= k < hi ==> Addr(r, i, k) != 0) && x in BitsOf(fs, r, i, lo, hi)
    ensures x == BitBlock(0)
  {
    if k :| lo <= k < hi && Addr(fs, i, k) == 0 && x == BitBlock(Addr(r, i, k) / BPB) {
      NoSharing(r, owner, nmeta, i, k, i, if k == 0 then 1 else 0);
    } else {
      IndexInside(r, owner, nmeta, i);
    }
  }

  lemma IndexInside(r: Fs, owner: map<nat, Owner>, nmeta: nat, i: nat)
    requires Owned(r, owner, nmeta) && i < |r.inodes|
    ensures IndexBlock(r, i) < |r.blocks|
  {
    assert OwnOpen(0);
    assert ClaimsIndex(r, owner, i);
    if IndexBlock(r, i) != 0 { assert Backed(r, owner, nmeta, IndexBlock(r, i)); }
  }

  lemma CardSub(a: set<Logged>, b: set<Logged>)
    requires a <= b
    ensures |a| <= |b|
  {
    assert b == a + (b - a);
  }

  /** Blocks of three kinds, the indirect block none of the data blocks: the sizes add up. */
  lemma Kinds(files: set<Logged>, index: set<Logged>, bits: set<Logged>, node: set<Logged>)
    requires (forall l :: l in files ==> l.FileBlock?) && (forall l :: l in index ==> l.FileBlock?) && files !! index
    requires (forall l :: l in bits ==> l.BitBlock?) && (forall l :: l in node ==> l.InodeBlock?)
    ensures |files + index + bits + node| == |files| + |index| + |bits| + |node|
  {
    assert (files + index) !! bits && (files + index + bits) !! node;
  }

  /** How many distinct blocks a writei logs: at least Cost, and exactly that if the bitmap is one block. */
  lemma WriteCount(fs: Fs, r: Fs, owner: map<nat, Owner>, nmeta: nat, i: nat, off: nat, n: nat)
    requires Shape(fs) && Owned(r, owner, nmeta) && i < |fs.inodes| == |r.inodes|
    requires off <= fs.inodes[i].size <= MAXBYTES && off + n <= MAXBYTES && NoHoles(fs, i, Blocks(fs.inodes[i].size))
    requires NoHoles(r, i, Blocks(if off + n > fs.inodes[i].size then off + n else fs.inodes[i].size))
    ensures |WriteLog(fs, r, i, off, n)| >= Cost(off, n, fs.inodes[i].size)
    ensures |r.blocks| <= BPB ==> |WriteLog(fs, r, i, off, n)| == Cost(off, n, fs.inodes[i].size)
  {
    var size, lo, hi := fs.inodes[i].size, off / BSIZE, Reach(off, n);
    Spread(off, n, size);
    NewBlocks(fs, i, lo, hi, Blocks(size));
    FilesCount(r, owner, nmeta, i, lo, hi);
    BitsCount(fs, r, owner, nmeta, i, lo, hi, Blocks(size));
    IndexApart(r, owner, nmeta, i, lo, hi);
    LogParts(fs, r, i, off, n);
  }

  lemma LogParts(fs: Fs, r: Fs, i: nat, off: nat, n: nat)
    requires Shape(fs) && Shape(r) && i < |fs.inodes| == |r.inodes| && off + n <= MAXBYTES
    requires FileBlock(IndexBlock(r, i)) !in FilesOf(r, i, off / BSIZE, Reach(off, n))
    ensures var lo, hi := off / BSIZE, Reach(off, n);
      |WriteLog(fs, r, i, off, n)| == |FilesOf(r, i, lo, hi)| + (if Lists(fs, i, lo, hi) then 1 else 0)
        + |BitsOf(fs, r, i, lo, hi)| + (if off + n > fs.inodes[i].size then 1 else 0)
  {
    var lo, hi := off / BSIZE, Reach(off, n);
    var node: set<Logged> := if off + n > fs.inodes[i].size then {InodeBlock(i / IPB)} else {};
    Kinds(FilesOf(r, i, lo, hi), IndexLog(fs, r, i, lo, hi), BitsOf(fs, r, i, lo, hi), node);
  }

  /** The indirect block is none of the data blocks. */
  lemma IndexApart(r: Fs, owner: map<nat, Owner>, nmeta: nat, i: nat, lo: nat, hi: nat)
    requires Owned(r, owner, nmeta) && i < |r.inodes| && hi <= MAXFILE && forall k :: lo <= k < hi ==> Addr(r, i, k) != 0
    ensures FileBlock(IndexBlock(r, i)) !in FilesOf(r, i, lo, hi)
  {
    forall k | lo <= k < hi ensures Addr(r, i, k) != IndexBlock(r, i) { NoSharing(r, owner, nmeta, i, k, i, if k == 0 then 1 else 0); }
  }

  lemma Spread(off: nat, n: nat, size: nat)
    requires off <= size <= MAXBYTES && off + n <= MAXBYTES
    ensures off / BSIZE <= Blocks(size) && off / BSIZE <= Reach(off, n) <= MAXFILE
    ensures Reach(off, n) <= Blocks(if off + n > size then off + n else size)
  {
  }

  // ---------------------------------------------------------------- what fits

  /** A full piece overruns the reservation wherever it starts, whatever the size of the file. */
  lemma ChunkOverruns(off: nat, n: nat, size: nat)
    requires off <= size && n >= CHUNK
    ensures Cost(off, n, size) > MAXOPBLOCKS
  {
    assert Reach(off, n) - off / BSIZE >= n / BSIZE;
  }

  /**
   Writes of up to 3073 bytes fit wherever they start, and no longer ones do: a write of 3074 bytes at
   the last byte of block 20, the end of the file, logs eight data blocks and the three others.
   */
  lemma SafeExact(n: nat)
    requires n <= MAXBYTES
    ensures (forall off: nat, size: nat :: off <= size <= MAXBYTES && off + n <= MAXBYTES ==> Cost(off, n, size) <= MAXOPBLOCKS)
       <==> n <= 3073
  {
    if n > 3073 {
      var off := if n <= MAXBYTES - 10751 then 10751 else MAXBYTES - n;
      assert off <= off <= MAXBYTES && off + n <= MAXBYTES;
      assert Cost(off, n, off) > MAXOPBLOCKS by { TooLong(off, n); }
    } else {
      forall off: nat, size: nat | off <= size <= MAXBYTES && off + n <= MAXBYTES
        ensures Cost(off, n, size) <= MAXOPBLOCKS
      {
        assert Reach(off, n) - off / BSIZE <= 7;
      }
    }
  }

  lemma TooLong(off: nat, n: nat)
    requires 3073 < n && (off == 10751 || (n > MAXBYTES - 10751 && off == MAXBYTES - n))
    ensures Cost(off, n, off) > MAXOPBLOCKS
  {
    if off == 10751 {
      assert Reach(off, n) >= 28;
    } else {
      assert Reach(off, n) == MAXFILE && off / BSIZE <= 20;
    }
  }

  // ---------------------------------------------------------------- filewrite

  /** Two writes, the second where the first ends, are one. */
  lemma OverlayTwice(c: seq<Byte>, off: nat, a: seq<Byte>, b: seq<Byte>)
    requires off <= |c|
    ensures off + |a| <= |Overlay(c, off, a)| && Overlay(Overlay(c, off, a), off + |a|, b) == Overlay(c, off, a + b)
  {
    OverlayRead(c, off, a);
    var d := Overlay(c, off, a);
    assert d[..off + |a|] == c[..off] + a;
    if off + |a| + |b| < |c| {
      assert d[off + |a| + |b|..] == c[off + |a| + |b|..];
    }
  }

  /** The bytes filewrite gets through: all of them, or the full pieces that end within the largest file. */
  function Through(off: nat, n: nat, size: nat): (d: nat)
    ensures d <= n
  {
    if off > size then 0
    else if off + n <= MAXBYTES then n
    else if off <= MAXBYTES then (MAXBYTES - off) / CHUNK * CHUNK
    else 0
  }

  /**
   The operations of a filewrite all stay within their reservations: nothing is written, or one
   piece that is not full and whose blocks fit.
   */
  predicate KeepsWithin(off: nat, n: nat, size: nat) {
    Through(off, n, size) == 0 || (n < CHUNK && off <= size && Cost(off, n, size) <= MAXOPBLOCKS)
  }

  /** The size of a file of `size` bytes after `done` bytes were written at `off`. */
  function Size(size: nat, off: nat, done: nat): (s: nat) {
    if done > 0 && off + done > size then off + done else size
  }

  /**
   What a writei of `data` at `off` does: the text of the file is overlaid, the other files stay, and
   `count` distinct blocks are logged; `small`: the bitmap is one block.
   */
  ghost predicate OneWrite(m: Fs, r: Fs, i: nat, off: nat, data: seq<Byte>, count: nat, small: bool) {
    forall k: nat {:trigger OnceOpen(k)} :: OnceOpen(k) ==>
      && Shape(m) && Shape(r) && i < |m.inodes| == |r.inodes| && off <= m.inodes[i].size <= MAXBYTES && off + |data| <= MAXBYTES
      && Contents(r, i) == Overlay(Contents(m, i), off, data) && r.inodes[i].size == Size(m.inodes[i].size, off, |data|)
      && (forall j :: 0 <= j < |m.inodes| && j != i ==> r.inodes[j] == m.inodes[j] && Contents(r, j) == Contents(m, j))
      && count >= Cost(off, |data|, m.inodes[i].size) && (small ==> count == Cost(off, |data|, m.inodes[i].size))
  }

  /** What a call of writei on `m` comes to: -1 and no change, or the write; `res` is its result. */
  ghost predicate Called(m: Fs, r: Fs, i: nat, off: nat, data: seq<Byte>, res: int, count: nat, small: bool) {
    && i < |m.inodes| && m.inodes[i].size <= MAXBYTES && res == (if off > m.inodes[i].size || off + |data| > MAXBYTES then -1 else |data|)
    && if res == -1 then r == m && count == 0 else OneWrite(m, r, i, off, data, count, small)
  }

  lemma CalledDone(m: Fs, r: Fs, disk: seq<Inode>, disk': seq<Inode>, owner: map<nat, Owner>, nmeta: nat, i: nat,
                   off: nat, data: seq<Byte>, res: int, log: set<Logged>, size: nat)
    requires Shape(m) && Owned(r, owner, nmeta) && i < |m.inodes| == |disk| == |r.inodes| == |disk'| && |r.blocks| == size
    requires AllTidy(m, disk) && AllTidy(r, disk') && res == if off > m.inodes[i].size || off + |data| > MAXBYTES then -1 else |data|
    requires res == -1 ==> r == m && log == {}
    requires res != -1 ==> Contents(r, i) == Overlay(Contents(m, i), off, data) && log == WriteLog(m, r, i, off, |data|)
    requires res != -1 ==> r.inodes[i].size == if off + |data| > m.inodes[i].size then off + |data| else m.inodes[i].size
    requires forall j :: 0 <= j < |m.inodes| && j != i ==> r.inodes[j] == m.inodes[j] && Contents(r, j) == Contents(m, j)
    ensures Called(m, r, i, off, data, res, |log|, size <= BPB)
  {
    assert Tidy(m, disk, i) && Tidy(r, disk', i);
    if res != -1 { WriteCount(m, r, owner, nmeta, i, off, |data|); }
  }

  /** writei inside one operation: how many distinct blocks it logs. */
  method WriteOp(fs: FileSystem, i: nat, src: seq<Byte>, off: nat) returns (r: int, ok: bool)
    requires fs.Valid() && i < fs.inodes.Length && off < WORD && |src| < WORD
    modifies fs`owner, fs`used, fs`logged, fs.bits, fs.blocks, fs.inodes, fs.dinodes
    ensures ok ==> fs.Valid()
    ensures !ok ==> fs.Sane() && fs.Full()
    ensures ok ==> Called(old(fs.Abs()), fs.Abs(), i, off, src, r, |fs.logged|, fs.size <= BPB)
    ensures Confined(old(fs.used), old(fs.blocks[..]), fs.used, fs.blocks[..], fs.logged)
  {
    ghost var u, disk := fs.Abs(), fs.dinodes[..];
    fs.logged := {};
    r, ok := fs.Writei(i, src, off);
    if ok { CalledDone(u, fs.Abs(), disk, fs.dinodes[..], fs.owner, fs.nmeta, i, off, src, r, fs.logged, fs.size); }
  }

  /** Where the loop of filewrite stands after `done` bytes. */
  ghost predicate Wrote(c: seq<Byte>, now: seq<Byte>, off: nat, src: seq<Byte>, done: nat) {
    && done <= |src| && (done == |src| || done % CHUNK == 0) && |c| <= MAXBYTES
    && (if done == 0 then now == c else off <= |c| && off + done <= MAXBYTES && now == Overlay(c, off, src[..done]))
  }

  lemma NextPiece(n: nat, done: nat, m: nat)
    requires done % CHUNK == 0 && done < n && m == if n - done > CHUNK then CHUNK else n - done
    ensures done + m == n || (done + m) % CHUNK == 0
  {
    assert CHUNK == 6656;
  }

  lemma WroteMore(c: seq<Byte>, u: seq<Byte>, now: seq<Byte>, off: nat, src: seq<Byte>, done: nat, m: nat)
    requires Wrote(c, u, off, src, done) && done + m <= |src| && m > 0 && (done + m == |src| || (done + m) % CHUNK == 0)
    requires off + done <= |u| && off + done + m <= MAXBYTES && now == Overlay(u, off + done, src[done..done + m])
    ensures Wrote(c, now, off, src, done + m)
  {
    if done > 0 {
      OverlayTwice(c, off, src[..done], src[done..done + m]);
      assert src[..done] + src[done..done + m] == src[..done + m];
    } else {
      assert src[0..m] == src[..m];
    }
  }

  /** A piece refused: the rest does not fit, and what was written are the full pieces before it. */
  lemma Refused(c: seq<Byte>, now: seq<Byte>, off: nat, src: seq<Byte>, done: nat, m: nat)
    requires Wrote(c, now, off, src, done) && done < |src| && m == (if |src| - done > CHUNK then CHUNK else |src| - done)
    requires off + done > |now| || off + done + m > MAXBYTES
    ensures done == Through(off, |src|, |c|)
  {
    if done > 0 { OverlayRead(c, off, src[..done]); }
    if off <= |c| { Pieces(off, |src|, done, m); }
  }

  lemma Pieces(off: nat, n: nat, done: nat, m: nat)
    requires off + done <= MAXBYTES && off + done + m > MAXBYTES && done % CHUNK == 0 && done < n
    requires m == if n - done > CHUNK then CHUNK else n - done
    ensures done == (MAXBYTES - off) / CHUNK * CHUNK
  {
    assert CHUNK == 6656;
    assert done == done / CHUNK * CHUNK && done <= MAXBYTES - off < done + CHUNK;
    assert (MAXBYTES - off) / CHUNK == done / CHUNK;
  }

  /** Some operation so far overran its reservation. */
  predicate Overran(off: nat, done: nat, size: nat) {
    done > 0 && (done >= CHUNK || (off <= size && Cost(off, done, size) > MAXOPBLOCKS))
  }

  /** The loop of filewrite has taken `u` to `r`; `small`: the bitmap is one block. */
  ghost predicate Going(u: Fs, r: Fs, i: nat, off: nat, src: seq<Byte>, done: nat, within: bool, small: bool) {
    && Shape(u) && Shape(r) && i < |u.inodes| == |r.inodes|
    && forall k: nat {:trigger PieceOpen(k)} :: PieceOpen(k) && k == done ==>
         && Wrote(Contents(u, i), Contents(r, i), off, src, done)
         && (forall j :: 0 <= j < |u.inodes| && j != i ==> r.inodes[j] == u.inodes[j] && Contents(r, j) == Contents(u, j))
         && r.inodes[i].size == Size(u.inodes[i].size, off, done)
         && (within ==> !Overran(off, done, u.inodes[i].size)) && (small && !within ==> Overran(off, done, u.inodes[i].size))
  }

  lemma GoingIs(u: Fs, r: Fs, i: nat, off: nat, src: seq<Byte>, done: nat, within: bool, small: bool)
    requires Going(u, r, i, off, src, done, within, small)
    ensures Wrote(Contents(u, i), Contents(r, i), off, src, done)
    ensures forall j :: 0 <= j < |u.inodes| && j != i ==> r.inodes[j] == u.inodes[j] && Contents(r, j) == Contents(u, j)
    ensures r.inodes[i].size == Size(u.inodes[i].size, off, done)
    ensures (within ==> !Overran(off, done, u.inodes[i].size)) && (small && !within ==> Overran(off, done, u.inodes[i].size))
  {
    assert PieceOpen(done);
  }

  lemma OverranMore(off: nat, n: nat, done: nat, m: nat, size: nat, now: nat, count: nat, small: bool)
    requires done % CHUNK == 0 && done < n && m == (if n - done > CHUNK then CHUNK else n - done)
    requires off <= size && off + done <= now == Size(size, off, done)
    requires count >= Cost(off + done, m, now) && (small ==> count == Cost(off + done, m, now))
    ensures !Overran(off, done, size) && count <= MAXOPBLOCKS ==> !Overran(off, done + m, size)
    ensures small && (Overran(off, done, size) || count > MAXOPBLOCKS) ==> Overran(off, done + m, size)
  {
    if m == CHUNK { ChunkOverruns(off + done, m, now); }
    assert done == 0 || done >= CHUNK;
  }

  lemma GoingMore(u: Fs, mid: Fs, r: Fs, i: nat, off: nat, src: seq<Byte>, done: nat, m: nat, within: bool, small: bool, count: nat)
    requires Going(u, mid, i, off, src, done, within, small) && u.inodes[i].size <= MAXBYTES
    requires done < |src| && m == (if |src| - done > CHUNK then CHUNK else |src| - done)
    requires OneWrite(mid, r, i, off + done, src[done..done + m], count, small)
    ensures Going(u, r, i, off, src, done + m, within && count <= MAXOPBLOCKS, small)
  {
    assert OnceOpen(0);
    GoingIs(u, mid, i, off, src, done, within, small);
    NextPiece(|src|, done, m);
    WroteMore(Contents(u, i), Contents(mid, i), Contents(r, i), off, src, done, m);
    assert |src[done..done + m]| == m;
    OverranMore(off, |src|, done, m, u.inodes[i].size, mid.inodes[i].size, count, small);
  }

  lemma GoingOn(u: Fs, mid: Fs, i: nat, off: nat, src: seq<Byte>, done: nat, within: bool, small: bool)
    requires Going(u, mid, i, off, src, done, within, small) && off < WORD && done < |src| < 0x8000_0000
    ensures off + done < WORD
  {
    assert Wrote(Contents(u, i), Contents(mid, i), off, src, done) by { assert PieceOpen(done); }
  }

  lemma GoingStuck(u: Fs, mid: Fs, i: nat, off: nat, src: seq<Byte>, done: nat, m: nat, within: bool, small: bool)
    requires Going(u, mid, i, off, src, done, within, small) && u.inodes[i].size <= MAXBYTES && mid.inodes[i].size <= MAXBYTES
    requires done < |src| && m == (if |src| - done > CHUNK then CHUNK else |src| - done)
    requires off + done > mid.inodes[i].size || off + done + m > MAXBYTES
    ensures done == Through(off, |src|, u.inodes[i].size)
  {
    assert Wrote(Contents(u, i), Contents(mid, i), off, src, done) by { assert PieceOpen(done); }
    Refused(Contents(u, i), Contents(mid, i), off, src, done, m);
  }

  lemma GoingNext(u: Fs, mid: Fs, now: Fs, i: nat, off: nat, src: seq<Byte>, done: nat, m: nat, was: bool, r: int,
                  count: nat, small: bool, next: nat, within: bool)
    requires Going(u, mid, i, off, src, done, was, small) && u.inodes[i].size <= MAXBYTES
    requires done < |src| && m == (if |src| - done > CHUNK then CHUNK else |src| - done)
    requires Called(mid, now, i, off + done, src[done..done + m], r, count, small)
    requires next == (if r < 0 then done else done + m) && within == (was && (r < 0 || count <= MAXOPBLOCKS))
    ensures Going(u, now, i, off, src, next, within, small) && next <= |src|
    ensures if r < 0 then next == Through(off, |src|, u.inodes[i].size) else done < next == done + r
  {
    assert |src[done..done + m]| == m;
    if r < 0 {
      GoingStuck(u, mid, i, off, src, done, m, was, small);
    } else {
      GoingMore(u, mid, now, i, off, src, done, m, was, small, count);
    }
  }

  /** The body of the loop of filewrite. */
  method Turn(fs: FileSystem, i: nat, src: seq<Byte>, off: nat, done: nat, ghost u: Fs,
              ghost was: bool) returns (next: nat, r: int, ok: bool, ghost within: bool)
    requires fs.Valid() && i < fs.inodes.Length && off < WORD && |src| < 0x8000_0000 && done < |src|
    requires Going(u, fs.Abs(), i, off, src, done, was, fs.size <= BPB) && u.inodes[i].size <= MAXBYTES
    modifies fs`owner, fs`used, fs`logged, fs.bits, fs.blocks, fs.inodes, fs.dinodes
    ensures ok ==> fs.Valid()
    ensures !ok ==> fs.Sane() && fs.Full()
    ensures ok ==> done <= next <= |src| && Going(u, fs.Abs(), i, off, src, next, within, fs.size <= BPB)
    ensures ok ==> if r < 0 then done == next == Through(off, |src|, u.inodes[i].size) else done < next == done + r
  {
    ghost var mid := fs.Abs();
    var m := if |src| - done > CHUNK then CHUNK else |src| - done;
    GoingOn(u, mid, i, off, src, done, was, fs.size <= BPB);
    r, ok := WriteOp(fs, i, src[done..done + m], off + done);
    next, within := if r < 0 then done else done + m, was && (r < 0 || |fs.logged| <= MAXOPBLOCKS);
    if ok { GoingNext(u, mid, fs.Abs(), i, off, src, done, m, was, r, |fs.logged|, fs.size <= BPB, next, within); }
  }

  /**
   filewrite on an inode: true if no balloc panicked. The file becomes the old text overlaid with the
   bytes that got through, whatever the number of pieces. `within`: every operation stayed within its
   reservation. `f` is f->off.
   */
  method Filewrite(fs: FileSystem, i: nat, src: seq<Byte>, off: nat) returns (r: int, f: nat, ok: bool, ghost within: bool)
    requires fs.Valid() && i < fs.inodes.Length && off < WORD && |src| < 0x8000_0000
    modifies fs`owner, fs`used, fs`logged, fs.bits, fs.blocks, fs.inodes, fs.dinodes
    ensures ok ==> fs.Valid()
    ensures !ok ==> fs.Sane() && fs.Full()
    ensures ok ==> r == (if Through(off, |src|, old(fs.inodes[i].size)) == |src| then |src| else -1)
    ensures ok ==> f == off + Through(off, |src|, old(fs.inodes[i].size))
    ensures ok ==> Wrote(Contents(old(fs.Abs()), i), Contents(fs.Abs(), i), off, src, Through(off, |src|, old(fs.inodes[i].size)))
    ensures ok ==> forall j :: 0 <= j < fs.inodes.Length && j != i ==>
      fs.inodes[j] == old(fs.inodes[j]) && Contents(fs.Abs(), j) == Contents(old(fs.Abs()), j)
    ensures ok && within ==> KeepsWithin(off, |src|, old(fs.inodes[i].size))
    ensures ok && fs.size <= BPB ==> (within <==> KeepsWithin(off, |src|, old(fs.inodes[i].size)))
  {
    ghost var u := fs.Abs();
    var done := 0;
    r, within := 0, true;
    assert Tidy(u, fs.dinodes[..], i);
    while done < |src|
      invariant done <= |src| && fs.Valid() && Going(u, fs.Abs(), i, off, src, done, within, fs.size <= BPB)
      invariant r >= 0
    {
      var next;
      next, r, ok, within := Turn(fs, i, src, off, done, u, within);
      if !ok {
        return r, off, ok, within;
      }
      done := next;
      if r < 0 {
        break;
      }
    }
    WriteEnds(u, fs.Abs(), i, off, src, done, within, fs.size <= BPB, r);
    return if done == |src| then |src| else -1, off + done, true, within;
  }

  /** Some operation overran its reservation, or the whole write is one piece that fits. */
  lemma WithinExact(off: nat, n: nat, done: nat, size: nat)
    requires done == Through(off, n, size) && (done == n || done % CHUNK == 0)
    ensures Overran(off, done, size) <==> !KeepsWithin(off, n, size)
  {
    assert done == n || done == 0 || done >= CHUNK;
  }

  lemma WriteEnds(u: Fs, r: Fs, i: nat, off: nat, src: seq<Byte>, done: nat, within: bool, small: bool, res: int)
    requires Going(u, r, i, off, src, done, within, small) && u.inodes[i].size <= MAXBYTES
    requires if res < 0 then done == Through(off, |src|, u.inodes[i].size) else done == |src|
    ensures done == Through(off, |src|, u.inodes[i].size)
    ensures Wrote(Contents(u, i), Contents(r, i), off, src, done)
    ensures forall j :: 0 <= j < |u.inodes| && j != i ==> r.inodes[j] == u.inodes[j] && Contents(r, j) == Contents(u, j)
    ensures (within ==> KeepsWithin(off, |src|, u.inodes[i].size)) && (small ==> (within <==> KeepsWithin(off, |src|, u.inodes[i].size)))
  {
    var size := u.inodes[i].size;
    assert Wrote(Contents(u, i), Contents(r, i), off, src, done) by { assert PieceOpen(done); }
    assert (within ==> !Overran(off, done, size)) && (small && !within ==> Overran(off, done, size)) by { assert PieceOpen(done); }
    assert forall j :: 0 <= j < |u.inodes| && j != i ==> r.inodes[j] == u.inodes[j] && Contents(r, j) == Contents(u, j) by {
      assert PieceOpen(done);
    }
    WithinExact(off, |src|, done, size);
  }
}
