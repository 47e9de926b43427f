/**
 The block and inode layer of fs.c on values: which inode owns which block, and the bytes of a
 file. A hole reads as zeros, and blocks are handed out zeroed, so allocation changes no file.
 */
module InodeSpec {
  import opened Sealing

  const BSIZE: nat := 512
  const NDIRECT: nat := 10
  const NINDIRECT: nat := 128
  const MAXFILE: nat := 138
  const MAXBYTES: nat := 70656
  const WORD: nat := 0x1_0000_0000

  type Byte = x: nat | x < 256
  type Block = b: seq<Byte> | |b| == BSIZE witness seq(BSIZE, _ => 0)

  function Zero(): (b: Block) {
    seq(BSIZE, _ => 0)
  }

  /** Entry `i` of a block read as an array of little-endian words. */
  function Word(b: Block, i: nat): (v: nat)
    requires i < NINDIRECT
    ensures v < WORD
  {
    var w0: nat, w1: nat, w2: nat, w3: nat := b[4 * i], b[4 * i + 1], b[4 * i + 2], b[4 * i + 3];
    w0 + 256 * w1 + 65536 * w2 + 16777216 * w3
  }

  function PutWord(b: Block, i: nat, v: nat): (r: Block)
    requires i < NINDIRECT && v < WORD
  {
    b[4 * i := v % 256][4 * i + 1 := v / 256 % 256][4 * i + 2 := v / 65536 % 256][4 * i + 3 := v / 16777216]
  }

  lemma WordPut(b: Block, i: nat, v: nat, j: nat)
    requires i < NINDIRECT && v < WORD && j < NINDIRECT
    ensures Word(PutWord(b, i, v), j) == if i == j then v else Word(b, j)
  {
    if i == j { Digits(v); }
  }

  lemma Digits(v: nat)
    requires v < WORD
    ensures v == v % 256 + 256 * (v / 256 % 256) + 65536 * (v / 65536 % 256) + 16777216 * (v / 16777216)
  {
    assert v / 65536 == v / 256 / 256 && v / 16777216 == v / 65536 / 256;
  }

  lemma ZeroWords(i: nat)
    requires i < NINDIRECT
    ensures Word(Zero(), i) == 0
  {
  }

  datatype Inode = Inode(addrs: seq<nat>, size: nat)

  datatype Fs = Fs(used: seq<bool>, blocks: seq<Block>, inodes: seq<Inode>)

  /** Block `k` of file `i`, or the indirect block of file `i`. */
  datatype Owner = Data(i: nat, k: nat) | Index(i: nat)

  predicate AddrsOk(n: Inode) {
    |n.addrs| == NDIRECT + 1
  }

  predicate Shape(fs: Fs) {
    |fs.used| == |fs.blocks| < WORD && forall i :: 0 <= i < |fs.inodes| ==> AddrsOk(fs.inodes[i])
  }

  /** The address of block `k` of file `i`, 0 if there is none. */
  function Addr(fs: Fs, i: nat, k: nat): (b: nat)
    requires Shape(fs) && i < |fs.inodes| && k < MAXFILE
  {
    assert AddrsOk(fs.inodes[i]);
    var a := fs.inodes[i].addrs;
    if k < NDIRECT then a[k]
    else if a[NDIRECT] == 0 || a[NDIRECT] >= |fs.blocks| then 0
    else Word(fs.blocks[a[NDIRECT]], k - NDIRECT)
  }

  function IndexBlock(fs: Fs, i: nat): (b: nat)
    requires Shape(fs) && i < |fs.inodes|
  {
    assert AddrsOk(fs.inodes[i]);
    fs.inodes[i].addrs[NDIRECT]
  }

  function ByteAt(fs: Fs, i: nat, o: nat): (x: Byte)
    requires Shape(fs) && i < |fs.inodes| && o < MAXBYTES
  {
    var b := Addr(fs, i, o / BSIZE);
    if b == 0 || b >= |fs.blocks| then 0 else fs.blocks[b][o % BSIZE]
  }

  /** The file as it is read: the first `size` bytes. */
  function Contents(fs: Fs, i: nat): (s: seq<Byte>)
    requires Shape(fs) && i < |fs.inodes|
    ensures fs.inodes[i].size <= MAXBYTES ==> |s| == fs.inodes[i].size
  {
    var n := if fs.inodes[i].size <= MAXBYTES then fs.inodes[i].size else MAXBYTES;
    seq(n, o requires 0 <= o < n => ByteAt(fs, i, o))
  }

  // ---------------------------------------------------------------- ownership

  ghost predicate Claims(fs: Fs, owner: map<nat, Owner>, i: nat, k: nat)
    requires Shape(fs) && i < |fs.inodes| && k < MAXFILE
  {
    Addr(fs, i, k) != 0 ==> Addr(fs, i, k) in owner && owner[Addr(fs, i, k)] == Data(i, k)
  }

  ghost predicate ClaimsIndex(fs: Fs, owner: map<nat, Owner>, i: nat)
    requires Shape(fs) && i < |fs.inodes|
  {
    IndexBlock(fs, i) != 0 ==> IndexBlock(fs, i) in owner && owner[IndexBlock(fs, i)] == Index(i)
  }

  /** An owned block is where its owner says, and no metadata. */
  ghost predicate Backed(fs: Fs, owner: map<nat, Owner>, nmeta: nat, b: nat)
    requires Shape(fs) && b in owner
  {
    && nmeta <= b < |fs.blocks| && owner[b].i < |fs.inodes|
    && match owner[b]
       case Data(i, k) => k < MAXFILE && Addr(fs, i, k) == b
       case Index(i) => IndexBlock(fs, i) == b
  }

  /** The bitmap: set for the metadata and for the owned blocks, clear for all others. */
  ghost predicate Marked(fs: Fs, owner: map<nat, Owner>, nmeta: nat, b: nat)
    requires b < |fs.used|
  {
    fs.used[b] <==> b < nmeta || b in owner
  }

  ghost predicate Ownership(fs: Fs, owner: map<nat, Owner>, nmeta: nat)
    requires Shape(fs)
  {
    && (forall i, k :: 0 <= i < |fs.inodes| && 0 <= k < MAXFILE ==> Claims(fs, owner, i, k))
    && (forall i :: 0 <= i < |fs.inodes| ==> ClaimsIndex(fs, owner, i))
    && (forall b :: b in owner ==> Backed(fs, owner, nmeta, b))
    && (forall b :: 0 <= b < |fs.used| ==> Marked(fs, owner, nmeta, b))
  }

  /** No block belongs to two files or twice to one, and the bitmap says exactly who is owned. */
  ghost predicate Owned(fs: Fs, owner: map<nat, Owner>, nmeta: nat) {
    && Shape(fs) && 0 < nmeta <= |fs.blocks|
    && forall k: nat {:trigger OwnOpen(k)} :: OwnOpen(k) ==> Ownership(fs, owner, nmeta)
  }

  /** Two different places in files never share a block. */
  lemma NoSharing(fs: Fs, owner: map<nat, Owner>, nmeta: nat, i: nat, k: nat, j: nat, m: nat)
    requires Owned(fs, owner, nmeta) && i < |fs.inodes| && j < |fs.inodes| && k < MAXFILE && m < MAXFILE
    requires Addr(fs, i, k) != 0 && (i, k) != (j, m)
    ensures Addr(fs, i, k) != Addr(fs, j, m) && Addr(fs, i, k) != IndexBlock(fs, j)
    ensures nmeta <= Addr(fs, i, k) < |fs.blocks| && fs.used[Addr(fs, i, k)]
  {
    assert OwnOpen(0);
    assert Claims(fs, owner, i, k) && Claims(fs, owner, j, m) && ClaimsIndex(fs, owner, j);
    assert Backed(fs, owner, nmeta, Addr(fs, i, k)) && Marked(fs, owner, nmeta, Addr(fs, i, k));
  }

  // ---------------------------------------------------------------- the steps

  /** balloc: mark and zero. */
  function Take(fs: Fs, b: nat): (r: Fs)
    requires b < |fs.used| && b < |fs.blocks|
  {
    fs.(used := fs.used[b := true], blocks := fs.blocks[b := Zero()])
  }

  function SetAddr(fs: Fs, i: nat, k: nat, b: nat): (r: Fs)
    requires i < |fs.inodes| && k < |fs.inodes[i].addrs|
  {
    fs.(inodes := fs.inodes[i := fs.inodes[i].(addrs := fs.inodes[i].addrs[k := b])])
  }

  function SetWord(fs: Fs, a: nat, k: nat, b: nat): (r: Fs)
    requires a < |fs.blocks| && k < NINDIRECT && b < WORD
  {
    fs.(blocks := fs.blocks[a := PutWord(fs.blocks[a], k, b)])
  }

  /** Every file reads the same in both. */
  ghost predicate SameBytes(fs: Fs, r: Fs)
    requires Shape(fs) && Shape(r)
  {
    && |r.inodes| == |fs.inodes|
    && forall i, o :: 0 <= i < |fs.inodes| && 0 <= o < MAXBYTES ==> ByteAt(r, i, o) == ByteAt(fs, i, o)
  }

  /** A free block is nobody's, so taking it changes no address. */
  lemma TakeAddrs(fs: Fs, owner: map<nat, Owner>, nmeta: nat, b: nat)
    requires Owned(fs, owner, nmeta) && b < |fs.used| && !fs.used[b]
    ensures b !in owner && b >= nmeta && Shape(Take(fs, b))
    ensures forall j, m :: 0 <= j < |fs.inodes| && 0 <= m < MAXFILE ==> Addr(Take(fs, b), j, m) == Addr(fs, j, m) != b
    ensures forall j :: 0 <= j < |fs.inodes| ==> IndexBlock(fs, j) != b
  {
    assert OwnOpen(0);
    assert Marked(fs, owner, nmeta, b);
    forall j | 0 <= j < |fs.inodes| ensures IndexBlock(fs, j) != b { assert ClaimsIndex(fs, owner, j); }
    forall j, m | 0 <= j < |fs.inodes| && 0 <= m < MAXFILE
      ensures Addr(Take(fs, b), j, m) == Addr(fs, j, m) != b
    {
      assert Claims(fs, owner, j, m) && IndexBlock(fs, j) != b;
    }
  }

  /** The same addresses, and the same data wherever they point: every file reads the same. */
  lemma SameAddrs(fs: Fs, r: Fs, b: nat)
    requires Shape(fs) && Shape(r) && |r.inodes| == |fs.inodes| && |r.blocks| == |fs.blocks| && b < |fs.blocks|
    requires forall j, m :: 0 <= j < |fs.inodes| && 0 <= m < MAXFILE ==>
      Addr(r, j, m) == Addr(fs, j, m) || (Addr(fs, j, m) == 0 && Addr(r, j, m) == b && r.blocks[b] == Zero())
    requires forall j, m :: 0 <= j < |fs.inodes| && 0 <= m < MAXFILE && 0 < Addr(fs, j, m) < |fs.blocks| ==>
      r.blocks[Addr(fs, j, m)] == fs.blocks[Addr(fs, j, m)]
    ensures SameBytes(fs, r)
  {
    forall j, o | 0 <= j < |fs.inodes| && 0 <= o < MAXBYTES
      ensures ByteAt(r, j, o) == ByteAt(fs, j, o)
    {
      var m := o / BSIZE;
      assert Addr(r, j, m) == Addr(fs, j, m) || (Addr(fs, j, m) == 0 && Addr(r, j, m) == b);
    }
  }

  /** One block more, with one address that names it: ownership as before plus that block. */
  lemma OwnOneMore(fs: Fs, r: Fs, owner: map<nat, Owner>, nmeta: nat, b: nat, o: Owner)
    requires Owned(fs, owner, nmeta) && Shape(r) && |r.inodes| == |fs.inodes| && |r.blocks| == |fs.blocks|
    requires nmeta <= b < |fs.blocks| && b !in owner && o.i < |fs.inodes| && (o.Data? ==> o.k < MAXFILE) && r.used == fs.used[b := true]
    requires forall j, m :: 0 <= j < |fs.inodes| && 0 <= m < MAXFILE ==>
      Addr(r, j, m) == if o == Data(j, m) then b else Addr(fs, j, m)
    requires forall j :: 0 <= j < |fs.inodes| ==> IndexBlock(r, j) == if o == Index(j) then b else IndexBlock(fs, j)
    requires if o.Data? then Addr(fs, o.i, o.k) == 0 else IndexBlock(fs, o.i) == 0
    ensures Owned(r, owner[b := o], nmeta)
  {
    assert OwnOpen(0);
    var owner' := owner[b := o];
    forall j, m | 0 <= j < |r.inodes| && 0 <= m < MAXFILE ensures Claims(r, owner', j, m) { assert Claims(fs, owner, j, m); }
    forall j | 0 <= j < |r.inodes| ensures ClaimsIndex(r, owner', j) { assert ClaimsIndex(fs, owner, j); }
    forall x | x in owner'
      ensures Backed(r, owner', nmeta, x)
    {
      if x != b { assert Backed(fs, owner, nmeta, x); }
    }
    forall x | 0 <= x < |r.used| ensures Marked(r, owner', nmeta, x) { assert Marked(fs, owner, nmeta, x); }
    assert Ownership(r, owner', nmeta);
  }

  /** Nothing but address `k` of file `i`, and its indirect block if it had none, has changed. */
  ghost predicate OnlyNew(fs: Fs, r: Fs, i: nat, k: nat)
    requires Shape(fs) && Shape(r)
  {
    && |r.inodes| == |fs.inodes| && i < |fs.inodes|
    && (forall j, m :: 0 <= j < |fs.inodes| && 0 <= m < MAXFILE && (j, m) != (i, k) ==> Addr(r, j, m) == Addr(fs, j, m))
    && (forall j :: 0 <= j < |fs.inodes| && j != i ==> IndexBlock(r, j) == IndexBlock(fs, j))
    && (IndexBlock(r, i) == IndexBlock(fs, i) || (IndexBlock(fs, i) == 0 && IndexBlock(r, i) != 0 && k >= NDIRECT))
    && (forall j :: 0 <= j < |fs.inodes| ==> r.inodes[j].size == fs.inodes[j].size && (j != i ==> r.inodes[j] == fs.inodes[j]))
  }

  /** bmap at a direct block that is not there yet. */
  lemma LinkDirect(fs: Fs, owner: map<nat, Owner>, nmeta: nat, i: nat, k: nat, b: nat)
    requires Owned(fs, owner, nmeta) && i < |fs.inodes| && k < NDIRECT && Addr(fs, i, k) == 0 && b < |fs.used| && !fs.used[b]
    ensures AddrsOk(fs.inodes[i])
    ensures var r := SetAddr(Take(fs, b), i, k, b);
      Owned(r, owner[b := Data(i, k)], nmeta) && SameBytes(fs, r) && b != 0 && Addr(r, i, k) == b && OnlyNew(fs, r, i, k)
  {
    assert AddrsOk(fs.inodes[i]);
    var t, r := Take(fs, b), SetAddr(Take(fs, b), i, k, b);
    TakeAddrs(fs, owner, nmeta, b);
    assert forall j :: 0 <= j < |r.inodes| ==> AddrsOk(r.inodes[j]) by {
      assert forall j :: 0 <= j < |fs.inodes| ==> AddrsOk(fs.inodes[j]);
    }
    forall j, m | 0 <= j < |fs.inodes| && 0 <= m < MAXFILE
      ensures Addr(r, j, m) == if (i, k) == (j, m) then b else Addr(fs, j, m)
    {
      assert Addr(t, j, m) == Addr(fs, j, m);
    }
    OwnOneMore(fs, r, owner, nmeta, b, Data(i, k));
    SameAddrs(fs, r, b);
  }

  /** bmap where the indirect block is not there yet. */
  lemma LinkIndex(fs: Fs, owner: map<nat, Owner>, nmeta: nat, i: nat, b: nat)
    requires Owned(fs, owner, nmeta) && i < |fs.inodes| && IndexBlock(fs, i) == 0 && b < |fs.used| && !fs.used[b]
    ensures AddrsOk(fs.inodes[i])
    ensures var r := SetAddr(Take(fs, b), i, NDIRECT, b);
      && Owned(r, owner[b := Index(i)], nmeta) && SameBytes(fs, r) && b != 0 && IndexBlock(r, i) == b
      && (forall k :: NDIRECT <= k < MAXFILE ==> Addr(r, i, k) == 0 && OnlyNew(fs, r, i, k))
  {
    assert AddrsOk(fs.inodes[i]);
    var t, r := Take(fs, b), SetAddr(Take(fs, b), i, NDIRECT, b);
    TakeAddrs(fs, owner, nmeta, b);
    assert forall j :: 0 <= j < |r.inodes| ==> AddrsOk(r.inodes[j]) by {
      assert forall j :: 0 <= j < |fs.inodes| ==> AddrsOk(fs.inodes[j]);
    }
    forall j, m | 0 <= j < |fs.inodes| && 0 <= m < MAXFILE
      ensures Addr(r, j, m) == Addr(fs, j, m)
    {
      assert Addr(t, j, m) == Addr(fs, j, m);
      if j == i && m >= NDIRECT { ZeroWords(m - NDIRECT); }
    }
    OwnOneMore(fs, r, owner, nmeta, b, Index(i));
    SameAddrs(fs, r, b);
  }

  /** bmap at an entry of the indirect block that is not there yet. */
  lemma LinkWord(fs: Fs, owner: map<nat, Owner>, nmeta: nat, i: nat, k: nat, b: nat)
    requires Owned(fs, owner, nmeta) && i < |fs.inodes| && NDIRECT <= k < MAXFILE && Addr(fs, i, k) == 0
    requires 0 < IndexBlock(fs, i) && b < |fs.used| && !fs.used[b]
    ensures IndexBlock(fs, i) < |fs.blocks|
    ensures var r := SetWord(Take(fs, b), IndexBlock(fs, i), k - NDIRECT, b);
      Owned(r, owner[b := Data(i, k)], nmeta) && SameBytes(fs, r) && b != 0 && Addr(r, i, k) == b && OnlyNew(fs, r, i, k)
  {
    assert OwnOpen(0);
    var a := IndexBlock(fs, i);
    assert ClaimsIndex(fs, owner, i) && Backed(fs, owner, nmeta, a);
    var t := Take(fs, b);
    var r := SetWord(t, a, k - NDIRECT, b);
    TakeAddrs(fs, owner, nmeta, b);
    forall j, m | 0 <= j < |fs.inodes| && 0 <= m < MAXFILE
      ensures Addr(r, j, m) == if (i, k) == (j, m) then b else Addr(fs, j, m)
      ensures Addr(fs, j, m) != a
    {
      assert Addr(t, j, m) == Addr(fs, j, m);
      assert ClaimsIndex(fs, owner, j) && Claims(fs, owner, j, m);
      if j == i && m >= NDIRECT { WordPut(t.blocks[a], k - NDIRECT, b, m - NDIRECT); }
    }
    OwnOneMore(fs, r, owner, nmeta, b, Data(i, k));
    SameAddrs(fs, r, b);
  }

  function Patch(b: Block, off: nat, data: seq<Byte>): (r: Block)
    requires off + |data| <= BSIZE
  {
    b[..off] + data + b[off + |data|..]
  }

  function Store(fs: Fs, b: nat, off: nat, data: seq<Byte>): (r: Fs)
    requires b < |fs.blocks| && off + |data| <= BSIZE
  {
    fs.(blocks := fs.blocks[b := Patch(fs.blocks[b], off, data)])
  }

  /** From `fs` to `r` file `i` has `data` at `off`, and nothing else reads differently. */
  ghost predicate Written(fs: Fs, r: Fs, i: nat, off: nat, data: seq<Byte>)
    requires Shape(fs) && Shape(r)
  {
    && |r.inodes| == |fs.inodes|
    && forall j, o :: 0 <= j < |fs.inodes| && 0 <= o < MAXBYTES ==>
         ByteAt(r, j, o) == if j == i && off <= o < off + |data| then data[o - off] else ByteAt(fs, j, o)
  }

  /** Writing into a data block leaves all addresses alone and changes one file, in one range. */
  lemma StoreOk(fs: Fs, owner: map<nat, Owner>, nmeta: nat, i: nat, k: nat, off: nat, data: seq<Byte>)
    requires Owned(fs, owner, nmeta) && i < |fs.inodes| && k < MAXFILE && Addr(fs, i, k) != 0 && off + |data| <= BSIZE
    ensures Addr(fs, i, k) < |fs.blocks|
    ensures var r := Store(fs, Addr(fs, i, k), off, data);
      && Owned(r, owner, nmeta) && Written(fs, r, i, k * BSIZE + off, data)
      && (forall j, m :: 0 <= j < |fs.inodes| && 0 <= m < MAXFILE ==> Addr(r, j, m) == Addr(fs, j, m))
  {
    var b := Addr(fs, i, k);
    NoSharing(fs, owner, nmeta, i, k, i, if k == 0 then 1 else 0);
    var r := Store(fs, b, off, data);
    forall j, m | 0 <= j < |fs.inodes| && 0 <= m < MAXFILE
      ensures Addr(r, j, m) == Addr(fs, j, m) && ((j, m) != (i, k) ==> Addr(fs, j, m) != b)
    {
      if (j, m) != (i, k) { NoSharing(fs, owner, nmeta, i, k, j, m); }
    }
    assert Owned(r, owner, nmeta) by { SameOwners(fs, r, owner, nmeta); }
    forall j, o | 0 <= j < |fs.inodes| && 0 <= o < MAXBYTES
      ensures ByteAt(r, j, o) ==
        if j == i && k * BSIZE + off <= o < k * BSIZE + off + |data| then data[o - (k * BSIZE + off)] else ByteAt(fs, j, o)
    {
      assert Addr(r, j, o / BSIZE) == Addr(fs, j, o / BSIZE);
    }
  }

  lemma SameOwners(fs: Fs, r: Fs, owner: map<nat, Owner>, nmeta: nat)
    requires Owned(fs, owner, nmeta) && r.used == fs.used && r.inodes == fs.inodes && |r.blocks| == |fs.blocks|
    requires forall j, m :: 0 <= j < |fs.inodes| && 0 <= m < MAXFILE ==> Addr(r, j, m) == Addr(fs, j, m)
    ensures Owned(r, owner, nmeta)
  {
    assert OwnOpen(0);
    forall j, m | 0 <= j < |r.inodes| && 0 <= m < MAXFILE ensures Claims(r, owner, j, m) { assert Claims(fs, owner, j, m); }
    forall j | 0 <= j < |r.inodes| ensures ClaimsIndex(r, owner, j) { assert ClaimsIndex(fs, owner, j); }
    forall x | x in owner ensures Backed(r, owner, nmeta, x) { assert Backed(fs, owner, nmeta, x); }
    forall x | 0 <= x < |r.used| ensures Marked(r, owner, nmeta, x) { assert Marked(fs, owner, nmeta, x); }
    assert Ownership(r, owner, nmeta);
  }

  // ---------------------------------------------------------------- giving blocks back

  /** The blocks in `gone` are freed and no longer named. */
  lemma OwnFewer(fs: Fs, r: Fs, owner: map<nat, Owner>, nmeta: nat, gone: set<nat>)
    requires Owned(fs, owner, nmeta) && Shape(r) && |r.inodes| == |fs.inodes| && r.blocks == fs.blocks
    requires forall b :: b in gone ==> b in owner
    requires forall b :: 0 <= b < |fs.used| ==> (r.used[b] <==> fs.used[b] && b !in gone)
    requires forall j, m :: 0 <= j < |fs.inodes| && 0 <= m < MAXFILE ==>
      Addr(r, j, m) == if Addr(fs, j, m) in gone then 0 else Addr(fs, j, m)
    requires forall j :: 0 <= j < |fs.inodes| ==> IndexBlock(r, j) == if IndexBlock(fs, j) in gone then 0 else IndexBlock(fs, j)
    ensures Owned(r, owner - gone, nmeta)
    ensures forall j, o :: 0 <= j < |fs.inodes| && 0 <= o < MAXBYTES ==>
      ByteAt(r, j, o) == if Addr(fs, j, o / BSIZE) in gone then 0 else ByteAt(fs, j, o)
  {
    assert OwnOpen(0);
    var owner' := owner - gone;
    forall j, m | 0 <= j < |r.inodes| && 0 <= m < MAXFILE ensures Claims(r, owner', j, m) { assert Claims(fs, owner, j, m); }
    forall j | 0 <= j < |r.inodes| ensures ClaimsIndex(r, owner', j) { assert ClaimsIndex(fs, owner, j); }
    forall x | x in owner' ensures Backed(r, owner', nmeta, x) { assert Backed(fs, owner, nmeta, x); }
    forall x | 0 <= x < |r.used|
      ensures Marked(r, owner', nmeta, x)
    {
      assert Marked(fs, owner, nmeta, x);
      assert x in gone ==> Backed(fs, owner, nmeta, x);
    }
    assert Ownership(r, owner', nmeta);
    forall j, o | 0 <= j < |fs.inodes| && 0 <= o < MAXBYTES
      ensures ByteAt(r, j, o) == if Addr(fs, j, o / BSIZE) in gone then 0 else ByteAt(fs, j, o)
    {
      assert Addr(r, j, o / BSIZE) == if Addr(fs, j, o / BSIZE) in gone then 0 else Addr(fs, j, o / BSIZE);
    }
  }

  /** Below a number of blocks, what itrunc has dropped of file `i`. */
  predicate Before(o: Owner, i: nat, k: nat) {
    o.Data? && o.i == i && o.k < k
  }

  function Unmark(fs: Fs, b: nat): (r: Fs)
    requires b < |fs.used|
  {
    fs.(used := fs.used[b := false])
  }

  /** itrunc at one direct block. */
  lemma DropDirect(fs: Fs, owner: map<nat, Owner>, nmeta: nat, i: nat, k: nat)
    requires Owned(fs, owner, nmeta) && i < |fs.inodes| && k < NDIRECT && Addr(fs, i, k) != 0
    ensures var b := Addr(fs, i, k); b < |fs.used| && fs.used[b] && b in owner && owner[b] == Data(i, k) && AddrsOk(fs.inodes[i])
    ensures var b := Addr(fs, i, k); var r := SetAddr(Unmark(fs, b), i, k, 0);
      && Owned(r, owner - {b}, nmeta)
      && (forall m :: 0 <= m < MAXFILE ==> Addr(r, i, m) == if m == k then 0 else Addr(fs, i, m))
      && (forall j, o :: 0 <= j < |fs.inodes| && 0 <= o < MAXBYTES && j != i ==> ByteAt(r, j, o) == ByteAt(fs, j, o))
  {
    var b := Addr(fs, i, k);
    NoSharing(fs, owner, nmeta, i, k, i, k + 1);
    assert b in owner && owner[b] == Data(i, k) by { assert OwnOpen(0); assert Claims(fs, owner, i, k); }
    assert AddrsOk(fs.inodes[i]);
    var r := SetAddr(Unmark(fs, b), i, k, 0);
    assert forall j :: 0 <= j < |r.inodes| ==> AddrsOk(r.inodes[j]) by {
      assert forall j :: 0 <= j < |fs.inodes| ==> AddrsOk(fs.inodes[j]);
    }
    forall j, m | 0 <= j < |fs.inodes| && 0 <= m < MAXFILE
      ensures Addr(r, j, m) == if Addr(fs, j, m) in {b} then 0 else Addr(fs, j, m)
      ensures (j, m) != (i, k) ==> Addr(fs, j, m) != b
    {
      if (j, m) != (i, k) { NoSharing(fs, owner, nmeta, i, k, j, m); }
    }
    forall j | 0 <= j < |fs.inodes|
      ensures IndexBlock(r, j) == if IndexBlock(fs, j) in {b} then 0 else IndexBlock(fs, j)
    {
      NoSharing(fs, owner, nmeta, i, k, j, if (i, k) == (j, 0) then 1 else 0);
    }
    OwnFewer(fs, r, owner, nmeta, {b});
  }

  /** The indirect block of file `i` and the blocks it lists up to entry `k`. */
  predicate Listed(o: Owner, i: nat, k: nat) {
    o.Data? && o.i == i && NDIRECT <= o.k < k
  }

  /** The bitmap after itrunc has freed the entries of the indirect block below `k`. */
  ghost function FreeListed(fs: Fs, owner: map<nat, Owner>, i: nat, k: nat): (r: Fs) {
    fs.(used := seq(|fs.used|, b requires 0 <= b < |fs.used| => fs.used[b] && !(b in owner && Listed(owner[b], i, k))))
  }

  lemma FreeNext(fs: Fs, owner: map<nat, Owner>, nmeta: nat, i: nat, k: nat)
    requires Owned(fs, owner, nmeta) && i < |fs.inodes| && NDIRECT <= k < MAXFILE
    ensures var b := Addr(fs, i, k);
      && b < |fs.used|
      && (b == 0 ==> FreeListed(fs, owner, i, k + 1) == FreeListed(fs, owner, i, k))
      && (b != 0 ==> FreeListed(fs, owner, i, k).used[b] && FreeListed(fs, owner, i, k + 1) == Unmark(FreeListed(fs, owner, i, k), b))
  {
    assert OwnOpen(0);
    var b := Addr(fs, i, k);
    assert Claims(fs, owner, i, k);
    assert b != 0 ==> Backed(fs, owner, nmeta, b) && Marked(fs, owner, nmeta, b);
    forall x | 0 <= x < |fs.used| && x in owner
      ensures Listed(owner[x], i, k + 1) <==> Listed(owner[x], i, k) || (x == b != 0)
    {
      assert Backed(fs, owner, nmeta, x);
    }
    assert b == 0 ==> FreeListed(fs, owner, i, k + 1).used == FreeListed(fs, owner, i, k).used;
    assert b != 0 ==> FreeListed(fs, owner, i, k + 1).used == FreeListed(fs, owner, i, k).used[b := false];
  }

  /** itrunc once the listed blocks are freed: the indirect block goes too. */
  lemma DropIndex(fs: Fs, owner: map<nat, Owner>, nmeta: nat, i: nat) returns (gone: set<nat>)
    requires Owned(fs, owner, nmeta) && i < |fs.inodes| && IndexBlock(fs, i) != 0
    ensures var a := IndexBlock(fs, i); var u := FreeListed(fs, owner, i, MAXFILE);
      && a < |fs.used| && u.used[a] && AddrsOk(fs.inodes[i])
      && (forall b :: b in gone <==> b in owner && owner[b].i == i && (owner[b].Index? || owner[b].k >= NDIRECT))
    ensures var a := IndexBlock(fs, i); var r := SetAddr(Unmark(FreeListed(fs, owner, i, MAXFILE), a), i, NDIRECT, 0);
      && Owned(r, owner - gone, nmeta)
      && (forall m :: 0 <= m < MAXFILE ==> Addr(r, i, m) == if m < NDIRECT then Addr(fs, i, m) else 0)
      && (forall j, o :: 0 <= j < |fs.inodes| && 0 <= o < MAXBYTES && j != i ==> ByteAt(r, j, o) == ByteAt(fs, j, o))
  {
    gone := set b | b in owner && owner[b].i == i && (owner[b].Index? || owner[b].k >= NDIRECT);
    IndexFacts(fs, owner, nmeta, i);
    var r := SetAddr(Unmark(FreeListed(fs, owner, i, MAXFILE), IndexBlock(fs, i)), i, NDIRECT, 0);
    assert forall j :: 0 <= j < |r.inodes| ==> AddrsOk(r.inodes[j]) by {
      assert forall j :: 0 <= j < |fs.inodes| ==> AddrsOk(fs.inodes[j]);
    }
    IndexMarks(fs, owner, nmeta, i, gone, r);
    forall j, m | 0 <= j < |fs.inodes| && 0 <= m < MAXFILE
      ensures Addr(r, j, m) == if Addr(fs, j, m) in gone then 0 else Addr(fs, j, m)
      ensures (j != i || m < NDIRECT) ==> Addr(fs, j, m) !in gone
    {
      IndexGone(fs, owner, nmeta, i, gone, j, m);
    }
    forall j | 0 <= j < |fs.inodes|
      ensures IndexBlock(r, j) == if IndexBlock(fs, j) in gone then 0 else IndexBlock(fs, j)
    {
      IndexGone(fs, owner, nmeta, i, gone, j, 0);
    }
    OwnFewer(fs, r, owner, nmeta, gone);
  }

  lemma IndexFacts(fs: Fs, owner: map<nat, Owner>, nmeta: nat, i: nat)
    requires Owned(fs, owner, nmeta) && i < |fs.inodes| && IndexBlock(fs, i) != 0
    ensures var a := IndexBlock(fs, i);
      && a < |fs.used| && fs.used[a] && a in owner && owner[a] == Index(i) && AddrsOk(fs.inodes[i]) && 0 !in owner
      && FreeListed(fs, owner, i, MAXFILE).used[a]
  {
    assert OwnOpen(0);
    var a := IndexBlock(fs, i);
    assert ClaimsIndex(fs, owner, i) && Backed(fs, owner, nmeta, a) && Marked(fs, owner, nmeta, a) && AddrsOk(fs.inodes[i]);
    assert 0 in owner ==> Backed(fs, owner, nmeta, 0);
  }

  lemma IndexMarks(fs: Fs, owner: map<nat, Owner>, nmeta: nat, i: nat, gone: set<nat>, r: Fs)
    requires Owned(fs, owner, nmeta) && i < |fs.inodes| && IndexBlock(fs, i) < |fs.used| && AddrsOk(fs.inodes[i])
    requires r == SetAddr(Unmark(FreeListed(fs, owner, i, MAXFILE), IndexBlock(fs, i)), i, NDIRECT, 0)
    requires IndexBlock(fs, i) in owner && owner[IndexBlock(fs, i)] == Index(i)
    requires forall b :: b in gone <==> b in owner && owner[b].i == i && (owner[b].Index? || owner[b].k >= NDIRECT)
    ensures |r.used| == |fs.used| && forall b :: 0 <= b < |fs.used| ==> (r.used[b] <==> fs.used[b] && b !in gone)
  {
    assert OwnOpen(0);
    forall b | 0 <= b < |fs.used|
      ensures r.used[b] <==> fs.used[b] && b !in gone
    {
      assert b in owner ==> Backed(fs, owner, nmeta, b);
    }
  }

  /** Which addresses name a block that goes. */
  lemma IndexGone(fs: Fs, owner: map<nat, Owner>, nmeta: nat, i: nat, gone: set<nat>, j: nat, m: nat)
    requires Owned(fs, owner, nmeta) && i < |fs.inodes| && j < |fs.inodes| && m < MAXFILE
    requires forall b :: b in gone <==> b in owner && owner[b].i == i && (owner[b].Index? || owner[b].k >= NDIRECT)
    ensures Addr(fs, j, m) != 0 ==> (Addr(fs, j, m) in gone <==> j == i && m >= NDIRECT)
    ensures IndexBlock(fs, j) != 0 ==> (IndexBlock(fs, j) in gone <==> j == i)
    ensures 0 !in gone
  {
    assert OwnOpen(0);
    assert Claims(fs, owner, j, m) && ClaimsIndex(fs, owner, j);
    assert 0 !in owner by { assert forall b :: b in owner ==> Backed(fs, owner, nmeta, b); }
  }
}
