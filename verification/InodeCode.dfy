/**
 balloc, bfree, bmap, itrunc, readi and writei of fs.c over a bitmap of bytes, an array of blocks,
 the cached inodes and their copies on disk. A panic is a result: `ok` is false, and the contract
 says when. Blocks are read and written in place; the log and the buffer cache are modelled apart.
 */
module InodeCode {
  import opened Sealing
  import opened Bitmap
  import opened InodeSpec
  import opened InodeLog

  /** How much of `left` bytes fits in the block that holds offset `off`. */
  function Piece(off: nat, left: nat): (m: nat)
    ensures off % BSIZE + m <= BSIZE && m <= left && (left > 0 ==> m > 0)
    ensures off < MAXBYTES ==> off / BSIZE < MAXFILE
  {
    if left < BSIZE - off % BSIZE then left else BSIZE - off % BSIZE
  }

  /** File `i` has exactly its first `n` blocks. */
  ghost predicate NoHoles(fs: Fs, i: nat, n: nat)
    requires Shape(fs) && i < |fs.inodes|
  {
    && (forall k :: 0 <= k < MAXFILE ==> (Addr(fs, i, k) != 0 <==> k < n))
    && (IndexBlock(fs, i) != 0 <==> n > NDIRECT)
  }

  /** File `i` has no holes, and its inode on disk is the cached one. */
  ghost predicate Tidy(fs: Fs, disk: seq<Inode>, i: nat)
    requires Shape(fs) && i < |fs.inodes| && i < |disk|
  {
    fs.inodes[i].size <= MAXBYTES && NoHoles(fs, i, Blocks(fs.inodes[i].size)) && disk[i] == fs.inodes[i]
  }

  ghost predicate AllTidy(fs: Fs, disk: seq<Inode>)
    requires Shape(fs) && |disk| == |fs.inodes|
  {
    forall i :: 0 <= i < |fs.inodes| ==> Tidy(fs, disk, i)
  }

  function Unused(): (n: Inode) {
    Inode(seq(NDIRECT + 1, _ => 0), 0)
  }

  lemma NoneMarked(bytes: seq<bv8>, n: nat)
    requires n <= 8 * |bytes| && forall i :: 0 <= i < |bytes| ==> bytes[i] == 0
    ensures Marks(bytes, n) == seq(n, c => c < 0)
  {
    forall c | 0 <= c < n ensures !Bit(bytes, c) { assert bytes[c / 8] == 0; }
  }

  /** The empty image owns nothing and has no holes. */
  lemma EmptyImage(fs: Fs, nmeta: nat)
    requires 0 < nmeta <= |fs.used| == |fs.blocks| < WORD && fs.used == seq(|fs.used|, c => c < nmeta)
    requires forall i :: 0 <= i < |fs.inodes| ==> fs.inodes[i] == Unused()
    ensures Owned(fs, map[], nmeta) && forall i :: 0 <= i < |fs.inodes| ==> NoHoles(fs, i, 0)
  {
    assert Shape(fs);
    forall b | 0 <= b < |fs.used| ensures Marked(fs, map[], nmeta, b) { assert fs.used[b] == (b < nmeta); }
    assert Ownership(fs, map[], nmeta);
  }

  class FileSystem {
    const size: nat
    const nmeta: nat
    const bits: array<bv8>
    const blocks: array<Block>
    const inodes: array<Inode>
    const dinodes: array<Inode>
    ghost var owner: map<nat, Owner>
    ghost var used: seq<bool>
    /** The blocks named in calls of log_write. */
    ghost var logged: set<Logged>

    ghost function Abs(): (fs: Fs)
      reads this, blocks, inodes
    {
      Fs(used, blocks[..], inodes[..])
    }

    /** `used` is what the bitmap says. */
    ghost predicate BitsOk()
      reads this, bits
    {
      && |used| == size <= 8 * bits.Length
      && forall k: nat {:trigger BitsOpen(k)} :: BitsOpen(k) ==> used == Marks(bits[..], size)
    }

    ghost predicate Apart() {
      && bits as object !in {blocks as object, inodes as object, dinodes as object}
      && blocks as object !in {inodes as object, dinodes as object} && inodes != dinodes
    }

    /** Ownership alone, which holds between any two steps. */
    ghost predicate Sane()
      reads this, bits, blocks, inodes
    {
      && BitsOk() && blocks.Length == size && inodes.Length == dinodes.Length && Apart()
      && Owned(Abs(), owner, nmeta)
    }

    ghost predicate Valid()
      reads this, bits, blocks, inodes, dinodes
    {
      Sane() && AllTidy(Abs(), dinodes[..])
    }

    /** An image as mkfs lays it out before it adds files: the metadata blocks marked, all else free. */
    constructor (size: nat, nmeta: nat, ninodes: nat)
      requires 0 < nmeta <= size < WORD
      ensures Valid() && this.size == size && this.nmeta == nmeta && inodes.Length == ninodes
      ensures owner == map[] && forall i :: 0 <= i < ninodes ==> inodes[i].size == 0
      ensures fresh(bits) && fresh(blocks) && fresh(inodes) && fresh(dinodes)
    {
      this.size, this.nmeta := size, nmeta;
      bits := new bv8[(size + 7) / 8](_ => 0);
      blocks := new Block[size](_ => Zero());
      inodes := new Inode[ninodes](_ => Unused());
      dinodes := new Inode[ninodes](_ => Unused());
      owner, used, logged := map[], seq(size, c => c < 0), {};
      new;
      NoneMarked(bits[..], size);
      MarkMeta();
      EmptyImage(Abs(), nmeta);
      forall i | 0 <= i < inodes.Length ensures Tidy(Abs(), dinodes[..], i) { assert inodes[i] == Unused(); }
    }

    /** balloc of mkfs: the first blocks are in use. */
    method MarkMeta()
      requires nmeta <= size && BitsOk() && used == seq(size, c => c < 0)
      modifies `used, bits
      ensures BitsOk() && used == seq(size, c => c < nmeta)
    {
      for b := 0 to nmeta
        invariant BitsOk() && used == seq(size, c => c < b)
      {
        SetBit(b);
      }
    }

    method TestBit(b: nat) returns (r: bool)
      requires BitsOk() && b < size
      ensures r == used[b]
    {
      assert BitsOpen(0);
      r := bits[b / 8] & Mask(b % 8) != 0;
    }

    method SetBit(b: nat)
      requires BitsOk() && b < size
      modifies `used, bits
      ensures BitsOk() && used == old(used)[b := true]
    {
      assert BitsOpen(0);
      MarkSet(bits[..], size, b);
      bits[b / 8] := bits[b / 8] | Mask(b % 8);
      used := used[b := true];
    }

    method ClearBit(b: nat)
      requires BitsOk() && b < size
      modifies `used, bits
      ensures BitsOk() && used == old(used)[b := false]
    {
      assert BitsOpen(0);
      MarkClear(bits[..], size, b);
      bits[b / 8] := bits[b / 8] & !Mask(b % 8);
      used := used[b := false];
    }

    /** balloc: the lowest free block, marked and zeroed; panics when every block is in use. */
    method Balloc() returns (b: nat, ok: bool)
      requires Sane()
      modifies `used, `logged, bits, blocks
      ensures BitsOk() && (ok <==> exists c :: 0 <= c < size && !old(Abs()).used[c])
      ensures ok ==> b < size && !old(Abs()).used[b] && (forall c :: 0 <= c < b ==> old(Abs()).used[c])
      ensures ok ==> Abs() == Take(old(Abs()), b) && logged == old(logged) + BallocLog(b)
      ensures !ok ==> Abs() == old(Abs()) && logged == old(logged)
    {
      ghost var fs := Abs();
      b := 0;
      while b < size
        invariant BitsOk() && Abs() == fs && logged == old(logged) && forall c :: 0 <= c < b && c < size ==> fs.used[c]
      {
        var bi := 0;
        while bi < BPB && b + bi < size
          invariant 0 <= bi <= BPB && BitsOk() && Abs() == fs && logged == old(logged)
          invariant forall c :: 0 <= c < b + bi && c < size ==> fs.used[c]
        {
          var taken := TestBit(b + bi);
          if !taken {
            SetBit(b + bi);
            blocks[b + bi] := Zero();
            logged := logged + BallocLog(b + bi);
            assert blocks[..] == fs.blocks[b + bi := Zero()];
            return b + bi, true;
          }
          bi := bi + 1;
        }
        b := b + BPB;
      }
      return 0, false;
    }

    /** bfree: clears the bit; panics if it is clear already. */
    method Bfree(b: nat) returns (ok: bool)
      requires BitsOk() && b < size && Apart()
      modifies `used, `logged, bits
      ensures BitsOk() && ok == old(used)[b]
      ensures Abs() == if ok then Unmark(old(Abs()), b) else old(Abs())
    {
      ok := TestBit(b);
      if ok {
        ClearBit(b);
        logged := logged + {BitBlock(b / BPB)};
      }
    }

    ghost predicate Full()
      requires |used| == size
      reads this
    {
      forall b :: 0 <= b < size ==> used[b]
    }

    /** The direct half of bmap. */
    method BmapDirect(i: nat, bn: nat) returns (addr: nat, ok: bool)
      requires Sane() && i < inodes.Length && bn < NDIRECT
      modifies `owner, `used, `logged, bits, blocks, inodes
      ensures Sane() && (!ok ==> Full())
      ensures ok ==> addr == Addr(Abs(), i, bn) != 0 && SameBytes(old(Abs()), Abs()) && OnlyNew(old(Abs()), Abs(), i, bn)
      ensures Addr(old(Abs()), i, bn) != 0 ==> ok && Abs() == old(Abs())
      ensures ok ==> logged == old(logged) + if Addr(old(Abs()), i, bn) == 0 then BallocLog(addr) else {}
      ensures old(logged) <= logged && Confined(old(used), old(blocks[..]), used, blocks[..], logged)
    {
      ghost var fs := Abs();
      assert AddrsOk(inodes[i]);
      addr := inodes[i].addrs[bn];
      if addr == 0 {
        addr, ok := Balloc();
        if !ok {
          return;
        }
        TakeConfined(fs, addr, logged);
        LinkDirect(fs, owner, nmeta, i, bn, addr);
        inodes[i] := inodes[i].(addrs := inodes[i].addrs[bn := addr]);
        owner := owner[addr := Data(i, bn)];
        assert Abs() == SetAddr(Take(fs, addr), i, bn, addr);
      }
      ok := true;
    }

    /** bmap making sure of the indirect block. */
    method BmapIndex(i: nat) returns (addr: nat, ok: bool)
      requires Sane() && i < inodes.Length
      modifies `owner, `used, `logged, bits, blocks, inodes
      ensures Sane() && (!ok ==> Full())
      ensures ok ==> addr == IndexBlock(Abs(), i) != 0 && SameBytes(old(Abs()), Abs())
      ensures ok ==> forall k :: NDIRECT <= k < MAXFILE ==> OnlyNew(old(Abs()), Abs(), i, k) && Addr(Abs(), i, k) == Addr(old(Abs()), i, k)
      ensures IndexBlock(old(Abs()), i) != 0 ==> ok && Abs() == old(Abs())
      ensures ok ==> logged == old(logged) + if IndexBlock(old(Abs()), i) == 0 then BallocLog(addr) else {}
      ensures old(logged) <= logged && Confined(old(used), old(blocks[..]), used, blocks[..], logged)
    {
      ghost var fs := Abs();
      assert AddrsOk(inodes[i]);
      addr := inodes[i].addrs[NDIRECT];
      if addr == 0 {
        addr, ok := Balloc();
        if !ok {
          return;
        }
        TakeConfined(fs, addr, logged);
        LinkIndex(fs, owner, nmeta, i, addr);
        inodes[i] := inodes[i].(addrs := inodes[i].addrs[NDIRECT := addr]);
        owner := owner[addr := Index(i)];
        assert Abs() == SetAddr(Take(fs, addr), i, NDIRECT, addr);
      }
      ok := true;
    }

    /** bmap at an entry of the indirect block `a`. */
    method BmapWord(i: nat, a: nat, bn: nat) returns (addr: nat, ok: bool)
      requires Sane() && i < inodes.Length && NDIRECT <= bn < MAXFILE && a == IndexBlock(Abs(), i) != 0
      modifies `owner, `used, `logged, bits, blocks
      ensures Sane() && (!ok ==> Full()) && IndexBlock(Abs(), i) == a
      ensures ok ==> addr == Addr(Abs(), i, bn) != 0 && SameBytes(old(Abs()), Abs()) && OnlyNew(old(Abs()), Abs(), i, bn)
      ensures Addr(old(Abs()), i, bn) != 0 ==> ok && Abs() == old(Abs())
      ensures ok ==> logged == old(logged) + if Addr(old(Abs()), i, bn) == 0 then BallocLog(addr) + {FileBlock(a)} else {}
      ensures old(logged) <= logged && Confined(old(used), old(blocks[..]), used, blocks[..], logged)
    {
      ghost var fs := Abs();
      assert a < size by { assert OwnOpen(0); assert ClaimsIndex(fs, owner, i) && Backed(fs, owner, nmeta, a); }
      addr := Word(blocks[a], bn - NDIRECT);
      if addr == 0 {
        addr, ok := Balloc();
        if !ok {
          return;
        }
        TakeConfined(fs, addr, logged);
        LinkWord(fs, owner, nmeta, i, bn, addr);
        PutConfined(fs, Abs(), a, PutWord(blocks[a], bn - NDIRECT, addr), logged);
        blocks[a] := PutWord(blocks[a], bn - NDIRECT, addr);
        logged := logged + {FileBlock(a)};
        owner := owner[addr := Data(i, bn)];
        assert Abs() == SetWord(Take(fs, addr), a, bn - NDIRECT, addr);
      }
      ok := true;
    }

    /**
     bmap: the address of block `bn` of file `i`, allocated if it is not there. Panics beyond
     MAXFILE, or when it has to allocate and the disk is full.
     */
    method Bmap(i: nat, bn: nat) returns (addr: nat, ok: bool)
      requires Sane() && i < inodes.Length
      modifies `owner, `used, `logged, bits, blocks, inodes
      ensures Sane() && (!ok ==> bn >= MAXFILE || Full())
      ensures ok ==> bn < MAXFILE && addr == Addr(Abs(), i, bn) != 0 && SameBytes(old(Abs()), Abs()) && OnlyNew(old(Abs()), Abs(), i, bn)
      ensures bn < MAXFILE && Addr(old(Abs()), i, bn) != 0 ==> ok && Abs() == old(Abs())
      ensures ok ==> logged == old(logged) + BmapLog(old(Abs()), Abs(), i, bn) && Gains(old(Abs()), Abs(), i, bn, bn + 1)
      ensures old(logged) <= logged && Confined(old(used), old(blocks[..]), used, blocks[..], logged)
    {
      if bn < NDIRECT {
        ghost var fs := Abs();
        addr, ok := BmapDirect(i, bn);
        if ok { NewGains(fs, Abs(), i, bn); }
        return;
      }
      if bn - NDIRECT < NINDIRECT {
        ghost var fs := Abs();
        addr, ok := BmapIndex(i);
        if !ok {
          return;
        }
        ghost var u, mid := Abs(), logged;
        addr, ok := BmapWord(i, addr, bn);
        ConfinedTwice(fs, u, Abs(), mid, logged);
        if ok {
          OnlyNewTwice(fs, u, Abs(), i, bn);
          NewGains(fs, Abs(), i, bn);
        }
        return;
      }
      return 0, false;
    }

    /** The memmove and log_write of writei, into block `k` of file `i`. */
    method StoreBlock(i: nat, k: nat, b: nat, o: nat, data: seq<Byte>)
      requires Sane() && i < inodes.Length && k < MAXFILE && b == Addr(Abs(), i, k) != 0 && o + |data| <= BSIZE
      modifies `logged, blocks
      ensures Sane() && Written(old(Abs()), Abs(), i, k * BSIZE + o, data) && logged == old(logged) + {FileBlock(b)}
      ensures Confined(old(used), old(blocks[..]), used, blocks[..], logged)
      ensures forall j, m :: 0 <= j < inodes.Length && 0 <= m < MAXFILE ==> Addr(Abs(), j, m) == Addr(old(Abs()), j, m)
    {
      ghost var u := Abs();
      StoreOk(u, owner, nmeta, i, k, o, data);
      PutConfined(u, u, b, Patch(blocks[b], o, data), logged);
      blocks[b] := Patch(blocks[b], o, data);
      logged := logged + {FileBlock(b)};
      assert Abs() == Store(u, b, o, data);
    }

    /** What one turn of the loop in writei does: bmap, copy into the block, log it. */
    method WriteChunk(i: nat, off: nat, data: seq<Byte>) returns (ok: bool)
      requires Sane() && i < inodes.Length && 0 < |data| && off % BSIZE + |data| <= BSIZE
      modifies `owner, `used, `logged, bits, blocks, inodes
      ensures Sane() && (!ok ==> off / BSIZE >= MAXFILE || Full())
      ensures ok ==> Chunk(old(Abs()), Abs(), i, off, data)
      ensures off / BSIZE < MAXFILE && Addr(old(Abs()), i, off / BSIZE) != 0 ==> ok
      ensures ok ==> Logs(old(Abs()), Abs(), i, off / BSIZE, off / BSIZE + 1, old(logged), logged)
      ensures old(logged) <= logged && Confined(old(used), old(blocks[..]), used, blocks[..], logged)
    {
      ghost var fs := Abs();
      var k := off / BSIZE;
      var b;
      b, ok := Bmap(i, k);
      if !ok {
        return;
      }
      ghost var u, mid := Abs(), logged;
      StoreBlock(i, k, b, off % BSIZE, data);
      ConfinedTwice(fs, u, Abs(), mid, logged);
      assert k * BSIZE + off % BSIZE == off;
      ChunkDone(fs, u, Abs(), i, off, data, old(logged), logged);
    }

    /** The body of that loop, after `tot` bytes of a write that began in state `fs`. */
    method WritePiece(i: nat, src: seq<Byte>, start: nat, tot: nat, ghost fs: Fs, ghost was: set<Logged>) returns (next: nat, ok: bool)
      requires Sane() && i < inodes.Length == |fs.inodes| && start + |src| <= MAXBYTES && tot < |src|
      requires Stands(fs, Abs(), i, start, src, tot, was, logged)
      modifies `owner, `used, `logged, bits, blocks, inodes
      ensures Sane() && tot < next <= |src| && (!ok ==> Full() && start + tot >= fs.inodes[i].size)
      ensures ok ==> Stands(fs, Abs(), i, start, src, next, was, logged)
      ensures !ok ==> was <= logged && Confined(fs.used, fs.blocks, used, blocks[..], logged)
    {
      ghost var u, mid := Abs(), logged;
      var m := Piece(start + tot, |src| - tot);
      next := tot + m;
      StandsPresent(fs, u, i, start, src, tot, was, mid);
      ok := WriteChunk(i, start + tot, src[tot..tot + m]);
      StandsConfined(fs, u, i, start, src, tot, was, mid);
      ConfinedTwice(fs, u, Abs(), mid, logged);
      if ok { MoreStands(fs, u, Abs(), i, start, src, tot, m, was, mid, logged); }
    }

    /** The loop of writei. */
    method WriteLoop(i: nat, src: seq<Byte>, start: nat) returns (ok: bool)
      requires Sane() && i < inodes.Length && start + |src| <= MAXBYTES && Progress(Abs(), Abs(), i, start, src, 0)
      modifies `owner, `used, `logged, bits, blocks, inodes
      ensures Sane() && (!ok ==> Full() && start + |src| > old(inodes[i].size))
      ensures ok ==> Stands(old(Abs()), Abs(), i, start, src, |src|, old(logged), logged)
      ensures old(logged) <= logged && Confined(old(used), old(blocks[..]), used, blocks[..], logged)
    {
      ghost var fs := Abs();
      var tot := 0;
      StandsStart(fs, i, start, src, logged);
      while tot < |src|
        invariant 0 <= tot <= |src| && Sane() && Stands(fs, Abs(), i, start, src, tot, old(logged), logged)
      {
        tot, ok := WritePiece(i, src, start, tot, fs, old(logged));
        if !ok {
          return;
        }
      }
      StandsConfined(fs, Abs(), i, start, src, tot, old(logged), logged);
      StandsAll(fs, Abs(), i, start, src, tot, old(logged), logged);
      ok := true;
    }

    /** iupdate: the cached inode is copied to disk. */
    method Iupdate(i: nat)
      requires i < inodes.Length == dinodes.Length && inodes != dinodes
      modifies `logged, dinodes
      ensures dinodes[..] == old(dinodes[..])[i := inodes[i]] && logged == old(logged) + {InodeBlock(i / IPB)}
    {
      logged := logged + {InodeBlock(i / IPB)};
      dinodes[i] := inodes[i];
    }

    /**
     writei: refuses a start beyond the end, a range that wraps and one beyond the largest file;
     otherwise the file reads as if `src` had been laid over it at `off`, no other file changes,
     and the inode on disk agrees with the cached one. Panics only when the disk is full.
     */
    method Writei(i: nat, src: seq<Byte>, off: nat) returns (r: int, ok: bool)
      requires Valid() && i < inodes.Length && off < WORD && |src| < WORD
      modifies `owner, `used, `logged, bits, blocks, inodes, dinodes
      ensures ok ==> Valid()
      ensures !ok ==> Sane() && Full() && off + |src| > old(inodes[i].size)
      ensures ok ==> r == if off > old(inodes[i].size) || off + |src| > MAXBYTES then -1 else |src|
      ensures ok && r == -1 ==> Abs() == old(Abs())
      ensures ok && r != -1 ==> off <= |Contents(old(Abs()), i)| && Contents(Abs(), i) == Overlay(Contents(old(Abs()), i), off, src)
      ensures ok ==> forall j :: 0 <= j < inodes.Length && j != i ==>
        inodes[j] == old(inodes[j]) && Contents(Abs(), j) == Contents(old(Abs()), j)
      ensures ok ==> logged == old(logged) + if r == -1 then {} else WriteLog(old(Abs()), Abs(), i, off, |src|)
      ensures old(logged) <= logged && Confined(old(used), old(blocks[..]), used, blocks[..], logged)
      ensures forall j :: 0 <= j < inodes.Length && InodeBlock(j / IPB) !in logged ==> dinodes[j] == old(dinodes[j])
      ensures ok && r != -1 ==> inodes[i].size == if off + |src| > old(inodes[i].size) then off + |src| else old(inodes[i].size)
    {
      ghost var fs, disk := Abs(), dinodes[..];
      if off > inodes[i].size || (off + |src|) % WORD < off {
        return -1, true;
      }
      if off + |src| > MAXBYTES {
        return -1, true;
      }
      assert Tidy(fs, disk, i);
      NoProgress(fs, i, off, src);
      ok := WriteLoop(i, src, off);
      r := |src|;
      if !ok {
        return;
      }
      var end := off + |src|;
      ghost var u, mid := Abs(), logged;
      LoopDone(fs, u, i, off, src, old(logged), mid);
      if |src| > 0 && end > inodes[i].size {
        inodes[i] := inodes[i].(size := end);
        Iupdate(i);
      }
      WriteDone(fs, disk, u, Abs(), dinodes[..], owner, nmeta, i, off, src, old(logged), mid);
    }

    /** bmap at a block that is there. */
    method Peek(i: nat, bn: nat) returns (addr: nat)
      requires Sane() && i < inodes.Length && bn < MAXFILE && Addr(Abs(), i, bn) != 0
      modifies `owner, `used, `logged, bits, blocks, inodes
      ensures Sane() && Abs() == old(Abs()) && logged == old(logged) && addr == Addr(Abs(), i, bn) < size
    {
      var ok;
      NoSharing(Abs(), owner, nmeta, i, bn, i, if bn == 0 then 1 else 0);
      addr, ok := Bmap(i, bn);
      // The panics of bmap and balloc cannot happen.
      assert ok;
    }

    /**
     readi: refuses a start beyond the end and a range that wraps; otherwise the bytes of the file
     from `off`, cut at its end. A file without holes is read without allocating anything.
     */
    method Readi(i: nat, off: nat, n: nat) returns (dst: seq<Byte>, r: int, ok: bool)
      requires Valid() && i < inodes.Length && off < WORD && n < WORD
      modifies `owner, `used, `logged, bits, blocks, inodes
      ensures ok && Valid() && Abs() == old(Abs()) && logged == old(logged)
      ensures r == -1 <==> off > inodes[i].size || off + n >= WORD
      ensures r == -1 ==> dst == []
      ensures r != -1 ==> r == (if off + n > inodes[i].size then inodes[i].size - off else n)
      ensures r != -1 ==> off + r <= |Contents(Abs(), i)| && dst == Contents(Abs(), i)[off..off + r]
    {
      ghost var fs := Abs();
      assert Tidy(fs, dinodes[..], i);
      if off > inodes[i].size || (off + n) % WORD < off {
        return [], -1, true;
      }
      var len := if off + n > inodes[i].size then inodes[i].size - off else n;
      dst := ReadLoop(i, off, len, Contents(fs, i));
      return dst, len, true;
    }

    /** The loop of readi. `c` is the text of the file. */
    method ReadLoop(i: nat, off: nat, len: nat, ghost c: seq<Byte>) returns (dst: seq<Byte>)
      requires Sane() && i < inodes.Length && off + len <= |c| && IsText(Abs(), i, c)
      modifies `owner, `used, `logged, bits, blocks, inodes
      ensures Sane() && Abs() == old(Abs()) && logged == old(logged) && dst == c[off..off + len]
    {
      ghost var fs := Abs();
      var tot, at := 0, off;
      dst := [];
      while tot < len
        invariant 0 <= tot <= len && at == off + tot && Sane() && Abs() == fs && logged == old(logged) && dst == c[off..off + tot]
      {
        var m := Piece(at, len - tot);
        ReadChunk(fs, owner, nmeta, i, c, at, m);
        var b := Peek(i, at / BSIZE);
        dst := dst + blocks[b][at % BSIZE..at % BSIZE + m];
        Slices(c, off, off + tot, off + tot + m);
        tot, at := tot + m, at + m;
      }
    }

    /** The first loop of itrunc, over the direct blocks. */
    method TruncDirect(i: nat)
      requires Sane() && i < inodes.Length
      modifies `owner, `used, `logged, bits, inodes
      ensures Sane() && Dropped(old(owner), owner, i, NDIRECT) && SparesOthers(old(Abs()), Abs(), i)
      ensures forall k :: 0 <= k < MAXFILE ==> Addr(Abs(), i, k) == if k < NDIRECT then 0 else Addr(old(Abs()), i, k)
      ensures IndexBlock(Abs(), i) == IndexBlock(old(Abs()), i)
    {
      ghost var fs, was := Abs(), owner;
      for k := 0 to NDIRECT
        invariant Sane() && Dropped(was, owner, i, k) && SparesOthers(fs, Abs(), i) && IndexBlock(Abs(), i) == IndexBlock(fs, i)
        invariant forall m :: 0 <= m < MAXFILE ==> Addr(Abs(), i, m) == if m < k then 0 else Addr(fs, i, m)
      {
        ghost var u := Abs();
        assert AddrsOk(inodes[i]);
        var b := inodes[i].addrs[k];
        assert b == Addr(u, i, k);
        if b != 0 {
          DropDirect(u, owner, nmeta, i, k);
          var ok := Bfree(b);
          // The panic "freeing free block" cannot happen.
          assert ok;
          inodes[i] := inodes[i].(addrs := inodes[i].addrs[k := 0]);
          assert Abs() == SetAddr(Unmark(u, b), i, k, 0);
          DropsOn(was, owner, nmeta, u, i, k);
          owner := owner - {b};
        } else {
          DropsNone(was, owner, nmeta, u, i, k);
        }
      }
    }

    /** The second loop of itrunc, over the entries of the indirect block `a`. */
    method FreeEntries(i: nat, a: nat)
      requires Sane() && i < inodes.Length && a == IndexBlock(Abs(), i) && 0 < a < size
      modifies `used, `logged, bits
      ensures BitsOk() && Abs() == FreeListed(old(Abs()), owner, i, MAXFILE)
    {
      ghost var fs := Abs();
      assert FreeListed(fs, owner, i, NDIRECT).used == fs.used;
      for j := 0 to NINDIRECT
        invariant BitsOk() && Abs() == FreeListed(fs, owner, i, NDIRECT + j)
      {
        FreeNext(fs, owner, nmeta, i, NDIRECT + j);
        var b := Word(blocks[a], j);
        assert b == Addr(fs, i, NDIRECT + j);
        if b != 0 {
          var ok := Bfree(b);
          assert ok;
        }
      }
    }

    /** itrunc from the indirect block on. */
    method TruncIndirect(i: nat)
      requires Sane() && i < inodes.Length && forall k :: 0 <= k < NDIRECT ==> Addr(Abs(), i, k) == 0
      modifies `owner, `used, `logged, bits, inodes
      ensures Sane() && AllGone(old(owner), owner, i) && SparesOthers(old(Abs()), Abs(), i)
      ensures NoHoles(Abs(), i, 0)
    {
      ghost var fs, was := Abs(), owner;
      assert AddrsOk(inodes[i]);
      var a := inodes[i].addrs[NDIRECT];
      if a == 0 {
        NothingListed(fs, owner, nmeta, i);
        return;
      }
      ghost var gone := DropIndex(fs, owner, nmeta, i);
      FreeEntries(i, a);
      var ok := Bfree(a);
      assert ok;
      inodes[i] := inodes[i].(addrs := inodes[i].addrs[NDIRECT := 0]);
      assert Abs() == SetAddr(Unmark(FreeListed(fs, was, i, MAXFILE), a), i, NDIRECT, 0);
      AllListed(fs, was, nmeta, i, gone);
      owner := owner - gone;
    }

    /**
     itrunc: the file is empty, its data and indirect blocks are free, no other block is, and no
     other file has changed.
     */
    method Itrunc(i: nat)
      requires Valid() && i < inodes.Length
      modifies `owner, `used, `logged, bits, inodes, dinodes
      ensures Valid() && inodes[i].size == 0 && Contents(Abs(), i) == [] && AllGone(old(owner), owner, i)
      ensures forall b :: 0 <= b < size ==>
        (Abs().used[b] <==> old(Abs()).used[b] && !(b in old(owner) && old(owner)[b].i == i))
      ensures forall j :: 0 <= j < inodes.Length && j != i ==>
        inodes[j] == old(inodes[j]) && Contents(Abs(), j) == Contents(old(Abs()), j)
    {
      ghost var fs, was, disk := Abs(), owner, dinodes[..];
      TruncDirect(i);
      ghost var u, mid := Abs(), owner;
      TruncIndirect(i);
      ghost var v := Abs();
      inodes[i] := inodes[i].(size := 0);
      SizeOnly(v, Abs(), owner, nmeta, i);
      Iupdate(i);
      GoneTwice(was, mid, owner, i);
      TruncTidy(fs, disk, u, v, Abs(), dinodes[..], i);
      GoneMarks(fs, was, Abs(), owner, nmeta, i);
    }
  }

  lemma Slices(c: seq<Byte>, a: nat, b: nat, e: nat)
    requires a <= b <= e <= |c|
    ensures c[a..b] + c[b..e] == c[a..e]
  {
  }

  /** What one turn of that loop does. */
  ghost predicate Chunk(fs: Fs, r: Fs, i: nat, off: nat, data: seq<Byte>) {
    && Shape(fs) && Shape(r) && i < |fs.inodes| && off / BSIZE < MAXFILE
    && forall k: nat {:trigger ChunkOpen(k)} :: ChunkOpen(k) ==>
         Written(fs, r, i, off, data) && Extends(fs, r, i, off / BSIZE)
  }

  lemma ChunkDone(fs: Fs, u: Fs, r: Fs, i: nat, off: nat, data: seq<Byte>, was: set<Logged>, now: set<Logged>)
    requires Shape(fs) && Shape(u) && Shape(r) && off / BSIZE < MAXFILE && r.inodes == u.inodes
    requires OnlyNew(fs, u, i, off / BSIZE) && SameBytes(fs, u) && Addr(u, i, off / BSIZE) != 0
    requires Addr(fs, i, off / BSIZE) != 0 ==> u == fs
    requires Written(u, r, i, off, data)
    requires forall j, m :: 0 <= j < |u.inodes| && 0 <= m < MAXFILE ==> Addr(r, j, m) == Addr(u, j, m)
    requires Gains(fs, u, i, off / BSIZE, off / BSIZE + 1)
    requires now == was + BmapLog(fs, u, i, off / BSIZE) + {FileBlock(Addr(u, i, off / BSIZE))}
    ensures Chunk(fs, r, i, off, data) && Logs(fs, r, i, off / BSIZE, off / BSIZE + 1, was, now)
  {
    StoreExtends(fs, u, r, i, off, data);
    StoreLogs(fs, u, r, i, off / BSIZE, was, now);
  }

  /** Where the loop of writei stands after `tot` bytes. */
  ghost predicate Progress(fs: Fs, r: Fs, i: nat, start: nat, src: seq<Byte>, tot: nat) {
    && Shape(fs) && Shape(r) && tot <= |src|
    && forall k: nat {:trigger WrittenOpen(k)} :: WrittenOpen(k) && k == tot ==>
         Written(fs, r, i, start, src[..tot]) && Grown(fs, r, i, start + tot)
  }

  /** And what it has logged. */
  ghost predicate Stands(fs: Fs, r: Fs, i: nat, start: nat, src: seq<Byte>, tot: nat, was: set<Logged>, now: set<Logged>) {
    forall k: nat {:trigger StandOpen(k)} :: StandOpen(k) && k == tot ==>
      && Progress(fs, r, i, start, src, tot) && Logs(fs, r, i, start / BSIZE, Reach(start, tot), was, now)
      && (tot == 0 || tot == |src| || (start + tot) % BSIZE == 0)
      && was <= now && Confined(fs.used, fs.blocks, r.used, r.blocks, now)
  }

  lemma StandsConfined(fs: Fs, r: Fs, i: nat, start: nat, src: seq<Byte>, tot: nat, was: set<Logged>, now: set<Logged>)
    requires Stands(fs, r, i, start, src, tot, was, now)
    ensures was <= now && Confined(fs.used, fs.blocks, r.used, r.blocks, now)
  {
    assert StandOpen(tot);
  }

  lemma StandsAll(fs: Fs, r: Fs, i: nat, start: nat, src: seq<Byte>, tot: nat, was: set<Logged>, now: set<Logged>)
    requires Stands(fs, r, i, start, src, tot, was, now) && tot == |src|
    ensures Stands(fs, r, i, start, src, |src|, was, now)
  {
  }

  lemma PieceEnds(off: nat, left: nat)
    ensures Piece(off, left) == left || (off + Piece(off, left)) % BSIZE == 0
  {
  }

  lemma StandsStart(fs: Fs, i: nat, start: nat, src: seq<Byte>, was: set<Logged>)
    requires Progress(fs, fs, i, start, src, 0) && i < |fs.inodes| && start <= MAXBYTES
    ensures Stands(fs, fs, i, start, src, 0, was, was)
  {
    LogsNone(fs, i, start / BSIZE, was);
  }

  lemma StandsPresent(fs: Fs, u: Fs, i: nat, start: nat, src: seq<Byte>, tot: nat, was: set<Logged>, now: set<Logged>)
    requires Stands(fs, u, i, start, src, tot, was, now) && Shape(u) && i < |fs.inodes| == |u.inodes| && start + tot < MAXBYTES
    ensures start + tot < fs.inodes[i].size ==> Addr(u, i, (start + tot) / BSIZE) != 0
  {
    assert StandOpen(tot);
    ProgressPresent(fs, u, i, start, src, tot);
  }

  lemma MoreStands(fs: Fs, u: Fs, r: Fs, i: nat, start: nat, src: seq<Byte>, tot: nat, m: nat, was: set<Logged>,
                   mid: set<Logged>, now: set<Logged>)
    requires tot < |src| && Stands(fs, u, i, start, src, tot, was, mid) && m == Piece(start + tot, |src| - tot)
    requires Chunk(u, r, i, start + tot, src[tot..tot + m]) && Logs(u, r, i, (start + tot) / BSIZE, (start + tot) / BSIZE + 1, mid, now)
    requires was <= now && Confined(fs.used, fs.blocks, r.used, r.blocks, now)
    ensures Stands(fs, r, i, start, src, tot + m, was, now)
  {
    assert Progress(fs, u, i, start, src, tot) && Logs(fs, u, i, start / BSIZE, Reach(start, tot), was, mid)
      && (tot == 0 || (start + tot) % BSIZE == 0) by { assert StandOpen(tot); }
    PieceEnds(start + tot, |src| - tot);
    MoreProgress(fs, u, r, i, start, src, tot, m);
    ReachNext(start, tot, m);
    LogsNext(fs, u, r, i, start / BSIZE, (start + tot) / BSIZE, Reach(start, tot), Reach(start, tot + m), was, mid, now);
  }

  lemma LoopDone(fs: Fs, u: Fs, i: nat, off: nat, src: seq<Byte>, was: set<Logged>, mid: set<Logged>)
    requires Stands(fs, u, i, off, src, |src|, was, mid) && Shape(fs) && i < |fs.inodes|
    ensures Shape(u) && |u.inodes| == |fs.inodes| && u.inodes[i].size == fs.inodes[i].size
  {
    assert StandOpen(|src|);
    AllProgress(fs, u, i, off, src);
  }

  /** All that writei promises, once the size and the inode on disk are set. */
  lemma WriteDone(fs: Fs, disk: seq<Inode>, u: Fs, r: Fs, disk': seq<Inode>, owner: map<nat, Owner>, nmeta: nat, i: nat,
                  off: nat, src: seq<Byte>, was: set<Logged>, mid: set<Logged>)
    requires Stands(fs, u, i, off, src, |src|, was, mid) && Shape(fs)
    requires |disk| == |disk'| == |fs.inodes| && i < |fs.inodes| && AllTidy(fs, disk)
    requires Owned(u, owner, nmeta) && off <= fs.inodes[i].size && off + |src| <= MAXBYTES && i < |u.inodes|
    requires var end := off + |src|;
      r == if |src| > 0 && end > u.inodes[i].size then u.(inodes := u.inodes[i := u.inodes[i].(size := end)]) else u
    requires disk' == if off + |src| > fs.inodes[i].size then disk[i := r.inodes[i]] else disk
    ensures Owned(r, owner, nmeta) && |r.inodes| == |fs.inodes| && AllTidy(r, disk')
    ensures Contents(r, i) == Overlay(Contents(fs, i), off, src)
    ensures forall j :: 0 <= j < |fs.inodes| && j != i ==> r.inodes[j] == fs.inodes[j] && Contents(r, j) == Contents(fs, j)
    ensures r.inodes[i].size == if off + |src| > fs.inodes[i].size then off + |src| else fs.inodes[i].size
    ensures mid + (if off + |src| > fs.inodes[i].size then {InodeBlock(i / IPB)} else {}) == was + WriteLog(fs, r, i, off, |src|)
  {
    assert Progress(fs, u, i, off, src, |src|) && Logs(fs, u, i, off / BSIZE, Reach(off, |src|), was, mid) by { assert StandOpen(|src|); }
    AllProgress(fs, u, i, off, src);
    Resize(fs, u, r, owner, nmeta, i, off, src);
    StaysTidy(fs, disk, r, disk', i, off, src);
    assert Resized(fs, r, i, off, src, i);
    SizedLog(fs, u, r, i, off, |src|, was, mid);
  }

  lemma NoProgress(fs: Fs, i: nat, start: nat, src: seq<Byte>)
    requires Shape(fs) && i < |fs.inodes| && NoHoles(fs, i, Blocks(fs.inodes[i].size)) && start <= fs.inodes[i].size
    ensures Progress(fs, fs, i, start, src, 0)
  {
  }

  lemma MoreProgress(fs: Fs, u: Fs, r: Fs, i: nat, start: nat, src: seq<Byte>, tot: nat, m: nat)
    requires Progress(fs, u, i, start, src, tot) && tot + m <= |src|
    requires 0 < m && (start + tot) % BSIZE + m <= BSIZE && Chunk(u, r, i, start + tot, src[tot..tot + m])
    ensures Progress(fs, r, i, start, src, tot + m)
  {
    assert Written(u, r, i, start + tot, src[tot..tot + m]) && Extends(u, r, i, (start + tot) / BSIZE) by { assert ChunkOpen(0); }
    MoreWritten(fs, u, r, i, start, src, tot, m);
    MoreGrown(fs, u, r, i, start, src, tot, m);
  }

  lemma MoreWritten(fs: Fs, u: Fs, r: Fs, i: nat, start: nat, src: seq<Byte>, tot: nat, m: nat)
    requires Progress(fs, u, i, start, src, tot) && tot + m <= |src| && Shape(r)
    requires Written(u, r, i, start + tot, src[tot..tot + m])
    ensures Written(fs, r, i, start, src[..tot + m])
  {
    assert Written(fs, u, i, start, src[..tot]) by { assert WrittenOpen(tot); }
    WrittenTwice(fs, u, r, i, start, src[..tot], src[tot..tot + m]);
    assert src[..tot] + src[tot..tot + m] == src[..tot + m];
  }

  lemma MoreGrown(fs: Fs, u: Fs, r: Fs, i: nat, start: nat, src: seq<Byte>, tot: nat, m: nat)
    requires Progress(fs, u, i, start, src, tot) && Shape(r)
    requires 0 < m && (start + tot) % BSIZE + m <= BSIZE && (start + tot) / BSIZE < MAXFILE
    requires Extends(u, r, i, (start + tot) / BSIZE)
    ensures Grown(fs, r, i, start + tot + m)
  {
    var off := start + tot;
    assert Grown(fs, u, i, off) by { assert WrittenOpen(tot); }
    GrowsOn(fs, u, r, i, off, m);
    GrownTo(fs, r, i, off + m, start + tot + m);
  }

  lemma GrownTo(fs: Fs, r: Fs, i: nat, off: nat, off': nat)
    requires Shape(fs) && Shape(r) && Grown(fs, r, i, off) && off == off'
    ensures Grown(fs, r, i, off')
  {
  }

  /** What the file had when the loop began it still has. */
  lemma ProgressPresent(fs: Fs, u: Fs, i: nat, start: nat, src: seq<Byte>, tot: nat)
    requires Progress(fs, u, i, start, src, tot) && i < |fs.inodes| && |u.inodes| == |fs.inodes| && start + tot < MAXBYTES
    ensures start + tot < fs.inodes[i].size ==> Addr(u, i, (start + tot) / BSIZE) != 0
  {
    assert Grown(fs, u, i, start + tot) by { assert WrittenOpen(tot); }
    assert start + tot < fs.inodes[i].size ==> (start + tot) / BSIZE < Blocks(fs.inodes[i].size);
  }

  lemma AllProgress(fs: Fs, r: Fs, i: nat, start: nat, src: seq<Byte>)
    requires Progress(fs, r, i, start, src, |src|)
    ensures Written(fs, r, i, start, src) && Grown(fs, r, i, start + |src|)
  {
    assert WrittenOpen(|src|);
    assert src[..|src|] == src;
  }

  /** The new size changes no address; iupdate logs the inode's block. */
  lemma SizedLog(fs: Fs, u: Fs, r: Fs, i: nat, off: nat, n: nat, was: set<Logged>, mid: set<Logged>)
    requires Logs(fs, u, i, off / BSIZE, Reach(off, n), was, mid) && Shape(r) && |r.inodes| == |u.inodes| && off + n <= MAXBYTES
    requires r.blocks == u.blocks && r.inodes[i].addrs == u.inodes[i].addrs
    ensures mid + (if off + n > fs.inodes[i].size then {InodeBlock(i / IPB)} else {}) == was + WriteLog(fs, r, i, off, n)
  {
    assert LoggedOpen(0);
    RangeSame(fs, u, r, i, off / BSIZE, Reach(off, n));
  }

  lemma NewGains(fs: Fs, r: Fs, i: nat, k: nat)
    requires Shape(fs) && Shape(r) && k < MAXFILE && OnlyNew(fs, r, i, k) && Addr(r, i, k) != 0 && (Addr(fs, i, k) != 0 ==> r == fs)
    ensures Gains(fs, r, i, k, k + 1)
  {
    ListsMore(fs, i, k, k);
    assert k >= NDIRECT && IndexBlock(fs, i) == 0 ==> Addr(fs, i, k) == 0;
  }

  lemma OnlyNewTwice(fs: Fs, u: Fs, r: Fs, i: nat, k: nat)
    requires Shape(fs) && Shape(u) && Shape(r) && OnlyNew(fs, u, i, k) && OnlyNew(u, r, i, k)
    requires SameBytes(fs, u) && SameBytes(u, r)
    ensures OnlyNew(fs, r, i, k) && SameBytes(fs, r)
  {
    forall j, m | 0 <= j < |fs.inodes| && 0 <= m < MAXFILE && (j, m) != (i, k)
      ensures Addr(r, j, m) == Addr(fs, j, m)
    {
      assert Addr(u, j, m) == Addr(fs, j, m);
    }
    forall j, o | 0 <= j < |fs.inodes| && 0 <= o < MAXBYTES
      ensures ByteAt(r, j, o) == ByteAt(fs, j, o)
    {
      assert ByteAt(u, j, o) == ByteAt(fs, j, o);
    }
  }

  /** Between `fs` and `r` block `bn` of file `i` was made sure of; all other files have the blocks they had. */
  ghost predicate Extends(fs: Fs, r: Fs, i: nat, bn: nat)
    requires Shape(fs) && Shape(r)
  {
    && |r.inodes| == |fs.inodes| && i < |fs.inodes| && bn < MAXFILE
    && (forall j :: 0 <= j < |fs.inodes| ==> r.inodes[j].size == fs.inodes[j].size && (j != i ==> r.inodes[j] == fs.inodes[j]))
    && (forall j, n: nat :: 0 <= j < |fs.inodes| && j != i && NoHoles(fs, j, n) ==> NoHoles(r, j, n))
    && (forall n: nat :: bn <= n && NoHoles(fs, i, n) ==> NoHoles(r, i, if n > bn then n else bn + 1))
    && (Addr(fs, i, bn) != 0 ==> r.inodes[i] == fs.inodes[i])
  }

  lemma StoreExtends(fs: Fs, u: Fs, r: Fs, i: nat, off: nat, data: seq<Byte>)
    requires Shape(fs) && Shape(u) && Shape(r) && off / BSIZE < MAXFILE && r.inodes == u.inodes
    requires OnlyNew(fs, u, i, off / BSIZE) && SameBytes(fs, u) && Addr(u, i, off / BSIZE) != 0
    requires Addr(fs, i, off / BSIZE) != 0 ==> u == fs
    requires Written(u, r, i, off, data)
    requires forall j, m :: 0 <= j < |u.inodes| && 0 <= m < MAXFILE ==> Addr(r, j, m) == Addr(u, j, m)
    ensures Written(fs, r, i, off, data) && Extends(fs, r, i, off / BSIZE)
  {
    forall j, o | 0 <= j < |fs.inodes| && 0 <= o < MAXBYTES
      ensures ByteAt(r, j, o) == if j == i && off <= o < off + |data| then data[o - off] else ByteAt(fs, j, o)
    {
      assert ByteAt(u, j, o) == ByteAt(fs, j, o);
    }
    forall j, n: nat | 0 <= j < |fs.inodes| && j != i && NoHoles(fs, j, n)
      ensures NoHoles(r, j, n)
    {
      SameHoles(fs, u, r, i, off / BSIZE, j, n);
    }
    forall n: nat | off / BSIZE <= n && NoHoles(fs, i, n)
      ensures NoHoles(r, i, if n > off / BSIZE then n else off / BSIZE + 1)
    {
      FillHole(fs, u, r, i, off / BSIZE, n);
    }
  }

  lemma SameHoles(fs: Fs, u: Fs, r: Fs, i: nat, bn: nat, j: nat, n: nat)
    requires Shape(fs) && Shape(u) && Shape(r) && OnlyNew(fs, u, i, bn) && r.inodes == u.inodes
    requires forall j, m :: 0 <= j < |u.inodes| && 0 <= m < MAXFILE ==> Addr(r, j, m) == Addr(u, j, m)
    requires j < |fs.inodes| && j != i && NoHoles(fs, j, n)
    ensures NoHoles(r, j, n)
  {
    forall k | 0 <= k < MAXFILE
      ensures Addr(r, j, k) != 0 <==> k < n
    {
      assert Addr(r, j, k) == Addr(u, j, k) == Addr(fs, j, k);
    }
  }

  lemma FillHole(fs: Fs, u: Fs, r: Fs, i: nat, bn: nat, n: nat)
    requires Shape(fs) && Shape(u) && Shape(r) && OnlyNew(fs, u, i, bn) && r.inodes == u.inodes && bn < MAXFILE
    requires forall j, m :: 0 <= j < |u.inodes| && 0 <= m < MAXFILE ==> Addr(r, j, m) == Addr(u, j, m)
    requires Addr(u, i, bn) != 0 && bn <= n && NoHoles(fs, i, n)
    ensures NoHoles(r, i, if n > bn then n else bn + 1)
  {
    forall k | 0 <= k < MAXFILE
      ensures Addr(r, i, k) != 0 <==> k < (if n > bn then n else bn + 1)
    {
      assert Addr(r, i, k) == Addr(u, i, k);
      if k != bn { assert Addr(u, i, k) == Addr(fs, i, k); }
    }
    assert IndexBlock(r, i) == IndexBlock(u, i);
  }

  /** Two adjacent writes are one. */
  lemma WrittenTwice(fs: Fs, u: Fs, r: Fs, i: nat, off: nat, a: seq<Byte>, b: seq<Byte>)
    requires Shape(fs) && Shape(u) && Shape(r) && Written(fs, u, i, off, a) && Written(u, r, i, off + |a|, b)
    ensures Written(fs, r, i, off, a + b)
  {
    forall j, o | 0 <= j < |fs.inodes| && 0 <= o < MAXBYTES
      ensures ByteAt(r, j, o) == if j == i && off <= o < off + |a + b| then (a + b)[o - off] else ByteAt(fs, j, o)
    {
      assert ByteAt(u, j, o) == if j == i && off <= o < off + |a| then a[o - off] else ByteAt(fs, j, o);
    }
  }

  /** File `i` has been written up to `off`: it has the blocks for that, and its inode is as it was if it had them before. */
  ghost predicate Grown(fs: Fs, r: Fs, i: nat, off: nat)
    requires Shape(fs) && Shape(r)
  {
    && |r.inodes| == |fs.inodes| && i < |fs.inodes|
    && (forall j :: 0 <= j < |fs.inodes| ==> r.inodes[j].size == fs.inodes[j].size && (j != i ==> r.inodes[j] == fs.inodes[j]))
    && (forall j, n: nat :: 0 <= j < |fs.inodes| && j != i && NoHoles(fs, j, n) ==> NoHoles(r, j, n))
    && NoHoles(r, i, Blocks(if off > fs.inodes[i].size then off else fs.inodes[i].size))
    && (off <= fs.inodes[i].size ==> r.inodes[i] == fs.inodes[i])
  }

  lemma BlocksGrow(off: nat, m: nat, size: nat)
    requires 0 < m && off % BSIZE + m <= BSIZE
    ensures var n := Blocks(if off > size then off else size);
      && off / BSIZE <= n && (off < size ==> off / BSIZE < n)
      && Blocks(if off + m > size then off + m else size) == if n > off / BSIZE then n else off / BSIZE + 1
  {
  }

  lemma GrowsOn(fs: Fs, u: Fs, r: Fs, i: nat, off: nat, m: nat)
    requires Shape(fs) && Shape(u) && Shape(r) && Grown(fs, u, i, off) && off / BSIZE < MAXFILE && Extends(u, r, i, off / BSIZE)
    requires 0 < m && off % BSIZE + m <= BSIZE
    ensures Grown(fs, r, i, off + m)
  {
    var size := fs.inodes[i].size;
    BlocksGrow(off, m, size);
    forall j, n: nat | 0 <= j < |fs.inodes| && j != i && NoHoles(fs, j, n) ensures NoHoles(r, j, n) { assert NoHoles(u, j, n); }
    assert off < size ==> Addr(u, i, off / BSIZE) != 0;
  }

  /** `c` with `d` laid over it at `off`. */
  function Overlay(c: seq<Byte>, off: nat, d: seq<Byte>): (r: seq<Byte>)
    requires off <= |c|
  {
    c[..off] + d + if off + |d| < |c| then c[off + |d|..] else []
  }

  /** What writei leaves of file `j`. */
  ghost predicate Resized(fs: Fs, r: Fs, i: nat, off: nat, src: seq<Byte>, j: nat)
    requires Shape(fs) && Shape(r) && j < |fs.inodes| && i < |fs.inodes| == |r.inodes|
  {
    && (j != i ==> r.inodes[j] == fs.inodes[j])
    && (r.inodes[i].size == if off + |src| > fs.inodes[i].size then off + |src| else fs.inodes[i].size)
    && (off + |src| <= fs.inodes[i].size ==> r.inodes[i] == fs.inodes[i])
    && (NoHoles(fs, j, Blocks(fs.inodes[j].size)) ==> NoHoles(r, j, Blocks(r.inodes[j].size)))
    && (fs.inodes[j].size <= MAXBYTES && off <= fs.inodes[i].size && off + |src| <= MAXBYTES ==>
          && r.inodes[j].size <= MAXBYTES
          && Contents(r, j) == if j == i then Overlay(Contents(fs, i), off, src) else Contents(fs, j))
  }

  lemma Resize(fs: Fs, u: Fs, r: Fs, owner: map<nat, Owner>, nmeta: nat, i: nat, off: nat, src: seq<Byte>)
    requires Shape(fs) && Owned(u, owner, nmeta) && i < |fs.inodes| && off <= fs.inodes[i].size
    requires Written(fs, u, i, off, src) && Grown(fs, u, i, off + |src|)
    requires var end := off + |src|;
      r == if |src| > 0 && end > u.inodes[i].size then u.(inodes := u.inodes[i := u.inodes[i].(size := end)]) else u
    ensures Owned(r, owner, nmeta) && |r.inodes| == |fs.inodes|
    ensures forall j :: 0 <= j < |fs.inodes| ==> Resized(fs, r, i, off, src, j)
  {
    SizeOnly(u, r, owner, nmeta, i);
    forall j | 0 <= j < |fs.inodes|
      ensures Resized(fs, r, i, off, src, j)
    {
      ResizedOne(fs, u, r, i, off, src, j);
    }
  }

  /** The size of a file does not matter to who owns what. */
  lemma SizeOnly(u: Fs, r: Fs, owner: map<nat, Owner>, nmeta: nat, i: nat)
    requires Owned(u, owner, nmeta) && i < |u.inodes| == |r.inodes| && r.used == u.used && r.blocks == u.blocks
    requires forall j :: 0 <= j < |u.inodes| ==> r.inodes[j].addrs == u.inodes[j].addrs
    ensures Owned(r, owner, nmeta)
    ensures forall j, k :: 0 <= j < |u.inodes| && 0 <= k < MAXFILE ==> Addr(r, j, k) == Addr(u, j, k)
    ensures forall j :: 0 <= j < |u.inodes| ==> IndexBlock(r, j) == IndexBlock(u, j)
    ensures forall j, o :: 0 <= j < |u.inodes| && 0 <= o < MAXBYTES ==> ByteAt(r, j, o) == ByteAt(u, j, o)
  {
    assert OwnOpen(0);
    forall j | 0 <= j < |r.inodes| ensures AddrsOk(r.inodes[j]) { assert AddrsOk(u.inodes[j]); }
    assert Shape(r);
    forall j, m | 0 <= j < |r.inodes| && 0 <= m < MAXFILE ensures Claims(r, owner, j, m) { assert Claims(u, owner, j, m); }
    forall j | 0 <= j < |r.inodes| ensures ClaimsIndex(r, owner, j) { assert ClaimsIndex(u, owner, j); }
    forall x | x in owner ensures Backed(r, owner, nmeta, x) { assert Backed(u, owner, nmeta, x); }
    forall x | 0 <= x < |r.used| ensures Marked(r, owner, nmeta, x) { assert Marked(u, owner, nmeta, x); }
    assert Ownership(r, owner, nmeta);
  }

  /** writei leaves every file tidy: it wrote the inode back if it grew the file, and else did not change it. */
  lemma StaysTidy(fs: Fs, disk: seq<Inode>, r: Fs, disk': seq<Inode>, i: nat, off: nat, src: seq<Byte>)
    requires Shape(fs) && Shape(r) && |disk| == |disk'| == |fs.inodes| == |r.inodes| && i < |fs.inodes| && AllTidy(fs, disk)
    requires off <= fs.inodes[i].size && off + |src| <= MAXBYTES
    requires forall j :: 0 <= j < |fs.inodes| ==> Resized(fs, r, i, off, src, j)
    requires disk' == if off + |src| > fs.inodes[i].size then disk[i := r.inodes[i]] else disk
    ensures AllTidy(r, disk')
    ensures Contents(r, i) == Overlay(Contents(fs, i), off, src)
    ensures forall j :: 0 <= j < |fs.inodes| && j != i ==> r.inodes[j] == fs.inodes[j] && Contents(r, j) == Contents(fs, j)
  {
    forall j | 0 <= j < |fs.inodes|
      ensures Tidy(r, disk', j) && (j != i ==> r.inodes[j] == fs.inodes[j])
      ensures Contents(r, j) == if j == i then Overlay(Contents(fs, i), off, src) else Contents(fs, j)
    {
      assert Resized(fs, r, i, off, src, j) && Tidy(fs, disk, j) && Tidy(fs, disk, i);
    }
  }

  lemma ResizedOne(fs: Fs, u: Fs, r: Fs, i: nat, off: nat, src: seq<Byte>, j: nat)
    requires Shape(fs) && Shape(u) && Shape(r) && i < |fs.inodes| && off <= fs.inodes[i].size && j < |fs.inodes|
    requires Written(fs, u, i, off, src) && Grown(fs, u, i, off + |src|)
    requires var end := off + |src|;
      r == if |src| > 0 && end > u.inodes[i].size then u.(inodes := u.inodes[i := u.inodes[i].(size := end)]) else u
    requires forall j, k :: 0 <= j < |u.inodes| && 0 <= k < MAXFILE ==> Addr(r, j, k) == Addr(u, j, k)
    requires forall j :: 0 <= j < |u.inodes| ==> IndexBlock(r, j) == IndexBlock(u, j)
    requires forall j, o :: 0 <= j < |u.inodes| && 0 <= o < MAXBYTES ==> ByteAt(r, j, o) == ByteAt(u, j, o)
    ensures Resized(fs, r, i, off, src, j)
  {
    if fs.inodes[j].size <= MAXBYTES && off + |src| <= MAXBYTES { ResizedText(fs, u, r, i, off, src, j); }
  }

  /** And its text. */
  lemma ResizedText(fs: Fs, u: Fs, r: Fs, i: nat, off: nat, src: seq<Byte>, j: nat)
    requires Shape(fs) && Shape(u) && Shape(r) && i < |fs.inodes| && off <= fs.inodes[i].size && j < |fs.inodes| == |r.inodes| == |u.inodes|
    requires Written(fs, u, i, off, src) && fs.inodes[j].size <= MAXBYTES && off + |src| <= MAXBYTES
    requires r.inodes[j].size == if j == i && off + |src| > fs.inodes[i].size then off + |src| else fs.inodes[j].size
    requires forall j, o :: 0 <= j < |u.inodes| && 0 <= o < MAXBYTES ==> ByteAt(r, j, o) == ByteAt(u, j, o)
    ensures Contents(r, j) ==
      if j == i then (if off <= |Contents(fs, i)| then Overlay(Contents(fs, i), off, src) else []) else Contents(fs, j)
  {
    var c := Contents(r, j);
    forall o | 0 <= o < |c|
      ensures c[o] == ByteAt(u, j, o)
    {
    }
    if j == i { assert c == Overlay(Contents(fs, i), off, src); } else { assert c == Contents(fs, j); }
  }

  /** A file without holes has a block for every byte below its size. */
  lemma PresentBelow(fs: Fs, i: nat, off: nat)
    requires Shape(fs) && i < |fs.inodes| && off < fs.inodes[i].size <= MAXBYTES && NoHoles(fs, i, Blocks(fs.inodes[i].size))
    ensures off / BSIZE < MAXFILE && Addr(fs, i, off / BSIZE) != 0
  {
    assert off / BSIZE < Blocks(fs.inodes[i].size);
  }

  /** `c` is what file `i`, which has no holes, holds. */
  ghost predicate IsText(fs: Fs, i: nat, c: seq<Byte>) {
    && Shape(fs) && i < |fs.inodes| && |c| == fs.inodes[i].size <= MAXBYTES
    && forall k: nat {:trigger TextOpen(k)} :: TextOpen(k) ==>
         c == Contents(fs, i) && NoHoles(fs, i, Blocks(fs.inodes[i].size))
  }

  /** A piece of one block is a piece of the file. */
  lemma ReadChunk(fs: Fs, owner: map<nat, Owner>, nmeta: nat, i: nat, c: seq<Byte>, off: nat, m: nat)
    requires Owned(fs, owner, nmeta) && IsText(fs, i, c) && off + m <= |c| && off % BSIZE + m <= BSIZE && m > 0
    ensures off / BSIZE < MAXFILE && Addr(fs, i, off / BSIZE) != 0
    ensures var b := Addr(fs, i, off / BSIZE);
      b < |fs.blocks| && fs.blocks[b][off % BSIZE..off % BSIZE + m] == c[off..off + m]
  {
    assert TextOpen(0);
    PresentBelow(fs, i, off);
    var k := off / BSIZE;
    var b := Addr(fs, i, k);
    NoSharing(fs, owner, nmeta, i, k, i, if k == 0 then 1 else 0);
    var piece, part := fs.blocks[b][off % BSIZE..off % BSIZE + m], c[off..off + m];
    forall x | 0 <= x < m
      ensures piece[x] == part[x]
    {
      assert (off + x) / BSIZE == k && (off + x) % BSIZE == off % BSIZE + x;
    }
  }

  /** What was written is read back. */
  lemma OverlayRead(c: seq<Byte>, off: nat, d: seq<Byte>)
    requires off <= |c|
    ensures off + |d| <= |Overlay(c, off, d)| && Overlay(c, off, d)[off..off + |d|] == d
    ensures Overlay(c, off, d)[..off] == c[..off]
    ensures off + |d| < |c| ==> Overlay(c, off, d)[off + |d|..] == c[off + |d|..]
    ensures |Overlay(c, off, d)| == if off + |d| > |c| then off + |d| else |c|
  {
  }

  /** The owners left once file `i` has lost its data blocks below `k`. */
  ghost predicate Dropped(was: map<nat, Owner>, now: map<nat, Owner>, i: nat, k: nat) {
    && (forall b :: b in now ==> b in was && now[b] == was[b])
    && (forall b :: b in was ==> (b in now <==> !Before(was[b], i, k)))
  }

  /** No other file is touched. */
  ghost predicate SparesOthers(fs: Fs, r: Fs, i: nat)
    requires Shape(fs) && Shape(r)
  {
    && |r.inodes| == |fs.inodes| && i < |fs.inodes|
    && (forall j :: 0 <= j < |fs.inodes| && j != i ==> r.inodes[j] == fs.inodes[j])
    && (forall j, k :: 0 <= j < |fs.inodes| && 0 <= k < MAXFILE && j != i ==> Addr(r, j, k) == Addr(fs, j, k))
    && (forall j, o :: 0 <= j < |fs.inodes| && 0 <= o < MAXBYTES && j != i ==> ByteAt(r, j, o) == ByteAt(fs, j, o))
  }

  lemma DropsOn(was: map<nat, Owner>, now: map<nat, Owner>, nmeta: nat, fs: Fs, i: nat, k: nat)
    requires Owned(fs, now, nmeta) && Dropped(was, now, i, k) && i < |fs.inodes| && k < NDIRECT && Addr(fs, i, k) != 0
    ensures Dropped(was, now - {Addr(fs, i, k)}, i, k + 1)
  {
    assert OwnOpen(0);
    assert Claims(fs, now, i, k);
    forall b | b in now && now[b] == Data(i, k) ensures b == Addr(fs, i, k) { assert Backed(fs, now, nmeta, b); }
  }

  lemma DropsNone(was: map<nat, Owner>, now: map<nat, Owner>, nmeta: nat, fs: Fs, i: nat, k: nat)
    requires Owned(fs, now, nmeta) && Dropped(was, now, i, k) && i < |fs.inodes| && k < MAXFILE && Addr(fs, i, k) == 0
    ensures Dropped(was, now, i, k + 1)
  {
    assert OwnOpen(0);
    forall b | b in now ensures now[b] != Data(i, k) { assert Backed(fs, now, nmeta, b); }
  }

  /** File `i` owns nothing any more; the others own what they did. */
  ghost predicate AllGone(was: map<nat, Owner>, now: map<nat, Owner>, i: nat) {
    && (forall b :: b in now ==> b in was && now[b] == was[b])
    && (forall b :: b in was ==> (b in now <==> was[b].i != i))
  }

  lemma NothingListed(fs: Fs, owner: map<nat, Owner>, nmeta: nat, i: nat)
    requires Owned(fs, owner, nmeta) && i < |fs.inodes| && IndexBlock(fs, i) == 0
    requires forall k :: 0 <= k < NDIRECT ==> Addr(fs, i, k) == 0
    ensures AllGone(owner, owner, i) && NoHoles(fs, i, 0)
  {
    assert OwnOpen(0);
    forall b | b in owner ensures owner[b].i != i { assert Backed(fs, owner, nmeta, b); }
  }

  lemma AllListed(fs: Fs, owner: map<nat, Owner>, nmeta: nat, i: nat, gone: set<nat>)
    requires Owned(fs, owner, nmeta) && i < |fs.inodes| && forall k :: 0 <= k < NDIRECT ==> Addr(fs, i, k) == 0
    requires forall b :: b in gone <==> b in owner && owner[b].i == i && (owner[b].Index? || owner[b].k >= NDIRECT)
    ensures AllGone(owner, owner - gone, i)
  {
    assert OwnOpen(0);
    forall b | b in owner && owner[b].i == i ensures b in gone { assert Backed(fs, owner, nmeta, b); }
  }

  lemma GoneTwice(was: map<nat, Owner>, mid: map<nat, Owner>, now: map<nat, Owner>, i: nat)
    requires Dropped(was, mid, i, NDIRECT) && AllGone(mid, now, i)
    ensures AllGone(was, now, i)
  {
  }

  lemma GoneMarks(fs: Fs, was: map<nat, Owner>, r: Fs, now: map<nat, Owner>, nmeta: nat, i: nat)
    requires Owned(fs, was, nmeta) && Owned(r, now, nmeta) && AllGone(was, now, i) && |r.used| == |fs.used|
    ensures forall b :: 0 <= b < |fs.used| ==> (r.used[b] <==> fs.used[b] && !(b in was && was[b].i == i))
  {
    assert OwnOpen(0);
    forall b | 0 <= b < |fs.used|
      ensures r.used[b] <==> fs.used[b] && !(b in was && was[b].i == i)
    {
      assert Marked(fs, was, nmeta, b) && Marked(r, now, nmeta, b);
      assert b in was ==> Backed(fs, was, nmeta, b);
    }
  }

  lemma TruncTidy(fs: Fs, disk: seq<Inode>, u: Fs, v: Fs, r: Fs, disk': seq<Inode>, i: nat)
    requires Shape(fs) && Shape(u) && Shape(v) && Shape(r) && i < |fs.inodes| == |disk| && AllTidy(fs, disk)
    requires SparesOthers(fs, u, i) && SparesOthers(u, v, i) && NoHoles(v, i, 0)
    requires |r.inodes| == |v.inodes| && r == v.(inodes := v.inodes[i := v.inodes[i].(size := 0)]) && disk' == disk[i := r.inodes[i]]
    requires forall j, k :: 0 <= j < |v.inodes| && 0 <= k < MAXFILE ==> Addr(r, j, k) == Addr(v, j, k)
    requires forall j :: 0 <= j < |v.inodes| ==> IndexBlock(r, j) == IndexBlock(v, j)
    requires forall j, o :: 0 <= j < |v.inodes| && 0 <= o < MAXBYTES ==> ByteAt(r, j, o) == ByteAt(v, j, o)
    ensures AllTidy(r, disk') && Contents(r, i) == []
    ensures forall j :: 0 <= j < |fs.inodes| && j != i ==> r.inodes[j] == fs.inodes[j] && Contents(r, j) == Contents(fs, j)
  {
    forall j | 0 <= j < |fs.inodes| && j != i
      ensures Tidy(r, disk', j) && r.inodes[j] == fs.inodes[j] && Contents(r, j) == Contents(fs, j)
    {
      assert Tidy(fs, disk, j) && r.inodes[j] == v.inodes[j] == u.inodes[j] == fs.inodes[j];
      forall k | 0 <= k < MAXFILE
        ensures Addr(r, j, k) == Addr(fs, j, k)
      {
        assert Addr(r, j, k) == Addr(v, j, k) == Addr(u, j, k);
      }
      forall o | 0 <= o < MAXBYTES
        ensures ByteAt(r, j, o) == ByteAt(fs, j, o)
      {
        assert ByteAt(r, j, o) == ByteAt(v, j, o) == ByteAt(u, j, o);
      }
    }
    assert Tidy(r, disk', i);
  }
}
