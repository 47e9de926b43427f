/**
 The log under the file system: what a disk image holds of the bitmap, the inodes and the file
 blocks, and what a crash anywhere in a call such as writei leaves of the files.
 */
module CrashFiles {
  import opened Sealing
  import Bitmap
  import opened InodeSpec
  import opened InodeLog
  import opened InodeCode
  import F = LogFormat
  import opened LogMachine

  /** struct superblock: the log, then the inodes, then the bitmap, then the file blocks. */
  datatype Super = Super(log: F.Layout, ninodes: nat, inodestart: nat, bmapstart: nat, nmeta: nat) {

    predicate Ok() {
      && log.Ok() && log.start + log.size <= inodestart && inodestart + ninodes / IPB + 1 <= bmapstart
      && bmapstart + log.nblocks / BPB + 1 <= nmeta <= log.nblocks
    }

    /** A block of the three regions. */
    predicate Has(l: Logged) {
      match l
      case BitBlock(n) => n <= log.nblocks / BPB
      case InodeBlock(n) => n <= ninodes / IPB
      case FileBlock(b) => nmeta <= b < log.nblocks
    }

    // BBLOCK and IBLOCK.
    function At(l: Logged): (b: nat) {
      match l
      case BitBlock(n) => bmapstart + n
      case InodeBlock(n) => inodestart + n
      case FileBlock(b) => b
    }
  }

  /** No two of them lie on the same disk block, and none in the log. */
  lemma Regions(sb: Super, l: Logged, m: Logged)
    requires sb.Ok() && sb.Has(l) && sb.Has(m)
    ensures sb.log.Home(sb.At(l)) && (sb.At(l) == sb.At(m) <==> l == m)
  {
  }

  // ---------------------------------------------------------------- reading an image

  /** A block as bytes, each word little-endian. */
  function Bytes(b: F.Block): (r: Block) {
    seq(BSIZE, j requires 0 <= j < BSIZE => ByteOf(b[j / 4], j % 4))
  }

  function ByteOf(w: F.Word, k: nat): (x: Byte)
    requires k < 4
  {
    if k == 0 then w % 256 else if k == 1 then w / 256 % 256 else if k == 2 then w / 65536 % 256 else w / 16777216
  }

  function BitOf(b: F.Block, c: nat): (r: bool)
    requires c < BPB
  {
    Bitmap.Has(Bytes(b)[c / 8] as bv8, c % 8)
  }

  /** Inode `k` of a block of struct dinode, sixteen words each: the size, then the addresses. */
  function InodeOf(b: F.Block, k: nat): (n: Inode)
    requires k < IPB
  {
    Inode(seq(NDIRECT + 1, j requires 0 <= j <= NDIRECT => b[16 * k + 5 + j]), b[16 * k + 4])
  }

  function FileBlockOf(sb: Super, d: F.Disk, b: nat): (r: Block)
    requires b < |d|
  {
    if b < sb.nmeta then Zero() else Bytes(d[b])
  }

  /** The file system in an image. */
  function Decode(sb: Super, d: F.Disk): (fs: Fs)
    requires sb.Ok() && |d| == sb.log.nblocks
    ensures Shape(fs) && |fs.inodes| == sb.ninodes
  {
    Fs(seq(|d|, c requires 0 <= c < |d| => BitOf(d[sb.bmapstart + c / BPB], c % BPB)),
       seq(|d|, b requires 0 <= b < |d| => FileBlockOf(sb, d, b)),
       seq(sb.ninodes, i requires 0 <= i < sb.ninodes => InodeOf(d[sb.inodestart + i / IPB], i % IPB)))
  }

  /** Block `x` has what `fs`, with `disk` its inodes on disk, keeps in block `l`. */
  ghost predicate Shows(x: F.Block, l: Logged, fs: Fs, disk: seq<Inode>) {
    match l
    case BitBlock(n) => forall c :: 0 <= c < |fs.used| && c / BPB == n ==> BitOf(x, c % BPB) == fs.used[c]
    case InodeBlock(n) => forall i :: 0 <= i < |disk| && i / IPB == n ==> InodeOf(x, i % IPB) == disk[i]
    case FileBlock(b) => b < |fs.blocks| && Bytes(x) == fs.blocks[b]
  }

  ghost predicate Image(sb: Super, d: F.Disk, fs: Fs, disk: seq<Inode>)
    requires sb.Ok() && |d| == sb.log.nblocks
  {
    && |fs.used| == |fs.blocks| == |d| && |disk| == sb.ninodes
    && forall l :: sb.Has(l) ==> Shows(d[sb.At(l)], l, fs, disk)
  }

  /** Such an image reads back as the file system, metadata blocks aside. */
  lemma ImageDecodes(sb: Super, d: F.Disk, fs: Fs, disk: seq<Inode>)
    requires sb.Ok() && |d| == sb.log.nblocks && Image(sb, d, fs, disk)
    ensures var g := Decode(sb, d); g.used == fs.used && g.inodes == disk && forall b :: sb.nmeta <= b < |d| ==> g.blocks[b] == fs.blocks[b]
  {
    forall c | 0 <= c < |d| ensures Decode(sb, d).used[c] == fs.used[c] {
      assert sb.Has(BitBlock(c / BPB));
    }
    forall i | 0 <= i < sb.ninodes ensures Decode(sb, d).inodes[i] == disk[i] {
      assert sb.Has(InodeBlock(i / IPB));
    }
    forall b | sb.nmeta <= b < |d| ensures Decode(sb, d).blocks[b] == fs.blocks[b] {
      assert sb.Has(FileBlock(b));
    }
  }

  /** Two file systems alike but for metadata blocks have the same blocks in the same files. */
  lemma SameAddr(g: Fs, fs: Fs, owner: map<nat, Owner>, nmeta: nat, i: nat, k: nat)
    requires Shape(g) && Owned(fs, owner, nmeta) && |g.blocks| == |fs.blocks| && i < |g.inodes| && i < |fs.inodes| && k < MAXFILE
    requires g.inodes[i] == fs.inodes[i] && forall b :: nmeta <= b < |fs.blocks| ==> g.blocks[b] == fs.blocks[b]
    ensures Addr(g, i, k) == Addr(fs, i, k) && (Addr(fs, i, k) == 0 || nmeta <= Addr(fs, i, k) < |fs.blocks|)
  {
    assert OwnOpen(0);
    assert ClaimsIndex(fs, owner, i) && Claims(fs, owner, i, k);
    assert IndexBlock(fs, i) != 0 ==> Backed(fs, owner, nmeta, IndexBlock(fs, i));
    assert Addr(fs, i, k) != 0 ==> Backed(fs, owner, nmeta, Addr(fs, i, k));
  }

  lemma SameText(g: Fs, fs: Fs, owner: map<nat, Owner>, nmeta: nat, i: nat)
    requires Shape(g) && Owned(fs, owner, nmeta) && |g.blocks| == |fs.blocks| && i < |g.inodes| && i < |fs.inodes|
    requires g.inodes[i] == fs.inodes[i] && forall b :: nmeta <= b < |fs.blocks| ==> g.blocks[b] == fs.blocks[b]
    ensures Contents(g, i) == Contents(fs, i)
  {
    forall o | 0 <= o < MAXBYTES ensures ByteAt(g, i, o) == ByteAt(fs, i, o) { SameAddr(g, fs, owner, nmeta, i, o / BSIZE); }
  }

  /** Every file of a valid file system reads the same in its image. */
  lemma ImageContents(sb: Super, d: F.Disk, fs: Fs, disk: seq<Inode>, owner: map<nat, Owner>, i: nat)
    requires sb.Ok() && |d| == sb.log.nblocks && Image(sb, d, fs, disk)
    requires Owned(fs, owner, sb.nmeta) && |fs.inodes| == |disk| && AllTidy(fs, disk) && i < |disk|
    ensures Contents(Decode(sb, d), i) == Contents(fs, i)
  {
    ImageDecodes(sb, d, fs, disk);
    assert Tidy(fs, disk, i);
    SameText(Decode(sb, d), fs, owner, sb.nmeta, i);
  }

  // ---------------------------------------------------------------- an operation

  /** The last contents a run gives each block. */
  function Written(steps: seq<Step>): (w: map<nat, F.Block>) {
    if steps == [] then map[]
    else if Last(steps).Modify? then Written(Init(steps))[Last(steps).b := Last(steps).data]
    else Written(Init(steps))
  }

  /** Without a crash current contents are the old ones and what was written. */
  lemma {:induction false} CurrentWritten(a: Spec, steps: seq<Step>, i: nat)
    requires i <= |steps| && SpecRun(a, steps) && SpecRun(a, steps[..i])
    requires forall m :: i <= m < |steps| ==> !steps[m].Crash?
    ensures var old', new', w := SpecExec(a, steps[..i]).current, SpecExec(a, steps).current, Written(steps[i..]);
      |old'| == |new'| && forall b :: 0 <= b < |old'| ==> new'[b] == if b in w then w[b] else old'[b]
    decreases |steps|
  {
    if i == |steps| {
      assert steps[..i] == steps && steps[i..] == [];
    } else {
      assert Init(steps)[..i] == steps[..i] && Init(steps)[i..] == Init(steps[i..]) && Last(steps) == Last(steps[i..]);
      CurrentWritten(a, Init(steps), i);
    }
  }

  /** From one file system to the other nothing has changed outside the blocks of `log`. */
  ghost predicate Within(fs: Fs, disk: seq<Inode>, fs': Fs, disk': seq<Inode>, log: set<Logged>) {
    && Confined(fs.used, fs.blocks, fs'.used, fs'.blocks, log) && |disk'| == |disk|
    && forall i :: 0 <= i < |disk| && InodeBlock(i / IPB) !in log ==> disk'[i] == disk[i]
  }

  /** The writes `w` are those of the blocks of `log`, and leave in them what `fs` has there. */
  ghost predicate Carries(sb: Super, w: map<nat, F.Block>, fs: Fs, disk: seq<Inode>, log: set<Logged>) {
    && (forall l :: l in log ==> sb.Has(l) && sb.At(l) in w && Shows(w[sb.At(l)], l, fs, disk))
    && forall b :: b in w ==> exists l :: l in log && sb.At(l) == b
  }

  /** Writing the logged blocks is enough: the image then is that of the new file system. */
  lemma CarriesAll(sb: Super, d: F.Disk, d': F.Disk, w: map<nat, F.Block>, fs: Fs, disk: seq<Inode>, fs': Fs,
                   disk': seq<Inode>, log: set<Logged>)
    requires sb.Ok() && |d| == |d'| == sb.log.nblocks && Image(sb, d, fs, disk) && Within(fs, disk, fs', disk', log)
    requires Carries(sb, w, fs', disk', log) && forall b :: 0 <= b < |d| ==> d'[b] == if b in w then w[b] else d[b]
    ensures Image(sb, d', fs', disk')
  {
    assert ConfinedOpen(0);
    forall l | sb.Has(l) ensures Shows(d'[sb.At(l)], l, fs', disk') {
      Regions(sb, l, l);
      if l !in log {
        forall m | m in log ensures sb.At(m) != sb.At(l) { Regions(sb, l, m); }
        assert Shows(d[sb.At(l)], l, fs, disk);
      }
    }
  }

  lemma SameHome(sb: Super, d: F.Disk, d': F.Disk, fs: Fs, disk: seq<Inode>)
    requires sb.Ok() && |d| == |d'| == sb.log.nblocks && Image(sb, d, fs, disk) && forall b :: sb.log.Home(b) ==> d'[b] == d[b]
    ensures Image(sb, d', fs, disk)
  {
    forall l | sb.Has(l) ensures Shows(d'[sb.At(l)], l, fs, disk) { Regions(sb, l, l); }
  }

  /** The current contents when step `i` comes. */
  ghost function Before(sb: Super, d: F.Disk, steps: seq<Step>, i: nat): (r: F.Disk)
    requires sb.Ok() && |d| == sb.log.nblocks && F.HeaderOk(sb.log, d) && i <= |steps| && SpecRun(BootSpec(sb.log, d), steps[..i])
  {
    SpecExec(BootSpec(sb.log, d), steps[..i]).current
  }

  ghost predicate Ended(sb: Super, d: F.Disk, steps: seq<Step>, op: nat)
    requires sb.Ok() && |d| == sb.log.nblocks && F.HeaderOk(sb.log, d) && SpecRun(BootSpec(sb.log, d), steps)
  {
    op !in SpecExec(BootSpec(sb.log, d), steps).active
  }

  /** A run from power-on in which `op` begins at step `i`, with no other operation open, and none begins after it. */
  ghost predicate Alone(sb: Super, d: F.Disk, steps: seq<Step>, i: nat, op: nat)
    requires sb.Ok()
  {
    && |d| == sb.log.nblocks && F.HeaderOk(sb.log, d) && Run(sb.log, Boot(d), steps) && OnlyOp(steps, i, op)
    && Run(sb.log, Boot(d), steps[..i]) && Exec(sb.log, Boot(d), steps[..i]).ops == map[]
    && SpecRun(BootSpec(sb.log, d), steps) && SpecRun(BootSpec(sb.log, d), steps[..i])
  }

  /**
   A crash anywhere in or after an operation that runs alone and carries `fs` to `fs'`: the image that
   recovery yields is that of `fs`, or the operation has ended and it is that of `fs'`.
   */
  lemma ImageOldOrNew(sb: Super, d: F.Disk, steps: seq<Step>, i: nat, op: nat, fs: Fs, disk: seq<Inode>, fs': Fs,
                      disk': seq<Inode>, log: set<Logged>)
    requires sb.Ok() && Alone(sb, d, steps, i, op)
    requires |Before(sb, d, steps, i)| == |d| && Image(sb, Before(sb, d, steps, i), fs, disk) && Within(fs, disk, fs', disk', log)
    requires Ended(sb, d, steps, op) ==> Carries(sb, Written(steps[i..]), fs', disk', log)
    ensures F.HeaderOk(sb.log, Exec(sb.log, Boot(d), steps).disk)
    ensures var got := F.Recovered(sb.log, Exec(sb.log, Boot(d), steps).disk);
      |got| == sb.log.nblocks && (Image(sb, got, fs, disk) || (Ended(sb, d, steps, op) && Image(sb, got, fs', disk')))
  {
    var a := BootSpec(sb.log, d);
    OldOrNew(sb.log, d, steps, i, op);
    CurrentWritten(a, steps, i);
    var old', new' := SpecExec(a, steps[..i]).current, SpecExec(a, steps).current;
    var got := F.Recovered(sb.log, Exec(sb.log, Boot(d), steps).disk);
    if forall b :: sb.log.Home(b) ==> got[b] == old'[b] {
      SameHome(sb, old', got, fs, disk);
    } else {
      CarriesAll(sb, old', new', Written(steps[i..]), fs, disk, fs', disk', log);
      SameHome(sb, new', got, fs', disk');
    }
  }

  /** What recovery makes of the disk a crash at the end of the run leaves. */
  ghost function Survives(sb: Super, d: F.Disk, steps: seq<Step>): (r: Fs)
    requires sb.Ok() && |d| == sb.log.nblocks && F.HeaderOk(sb.log, d) && Run(sb.log, Boot(d), steps)
    ensures Shape(r) && |r.inodes| == sb.ninodes
  {
    BootInv(sb.log, d);
    RunRefines(sb.log, Boot(d), BootSpec(sb.log, d), steps);
    Decode(sb, F.Recovered(sb.log, Exec(sb.log, Boot(d), steps).disk))
  }

  ghost predicate SameFiles(r: Fs, fs: Fs)
    requires Shape(r) && Shape(fs)
  {
    |r.inodes| == |fs.inodes| && forall i :: 0 <= i < |fs.inodes| ==> Contents(r, i) == Contents(fs, i)
  }

  /**
   The operation goes from `fs` to `fs'`: it starts on an image of `fs`, and if it ends it has written
   the blocks of `log` as `fs'` has them.
   */
  ghost predicate Performs(sb: Super, d: F.Disk, steps: seq<Step>, i: nat, op: nat, fs: Fs, disk: seq<Inode>, fs': Fs,
                           disk': seq<Inode>, log: set<Logged>)
    requires sb.Ok()
  {
    && Alone(sb, d, steps, i, op)
    && |Before(sb, d, steps, i)| == |d| && Image(sb, Before(sb, d, steps, i), fs, disk)
    && (Ended(sb, d, steps, op) ==> Carries(sb, Written(steps[i..]), fs', disk', log))
  }

  /** After a crash every file is as it was, or every file is as the operation left it. */
  lemma FilesOldOrNew(sb: Super, d: F.Disk, steps: seq<Step>, i: nat, op: nat, fs: Fs, disk: seq<Inode>, owner: map<nat, Owner>,
                      fs': Fs, disk': seq<Inode>, owner': map<nat, Owner>, log: set<Logged>)
    requires sb.Ok() && Performs(sb, d, steps, i, op, fs, disk, fs', disk', log) && Within(fs, disk, fs', disk', log)
    requires Owned(fs, owner, sb.nmeta) && |fs.inodes| == |disk| && AllTidy(fs, disk)
    requires Owned(fs', owner', sb.nmeta) && |fs'.inodes| == |disk'| && AllTidy(fs', disk')
    ensures SameFiles(Survives(sb, d, steps), fs) || (Ended(sb, d, steps, op) && SameFiles(Survives(sb, d, steps), fs'))
  {
    ImageOldOrNew(sb, d, steps, i, op, fs, disk, fs', disk', log);
    var got := F.Recovered(sb.log, Exec(sb.log, Boot(d), steps).disk);
    if Image(sb, got, fs, disk) {
      forall j | 0 <= j < |fs.inodes|
        ensures Contents(Decode(sb, got), j) == Contents(fs, j)
      {
        ImageContents(sb, got, fs, disk, owner, j);
      }
    } else {
      forall j | 0 <= j < |fs'.inodes|
        ensures Contents(Decode(sb, got), j) == Contents(fs', j)
      {
        ImageContents(sb, got, fs', disk', owner', j);
      }
    }
  }

  /**
   The files after a crash in a writei of `src` at `off` of file `i`, which returns `r`: old, or the
   operation has ended and that one is new.
   */
  ghost predicate OldOrWritten(got: Fs, fs: Fs, i: nat, off: nat, src: seq<Byte>, r: int, ended: bool)
    requires Shape(got) && Shape(fs) && i < |fs.inodes|
  {
    || SameFiles(got, fs)
    || (&& r != -1 && ended && |got.inodes| == |fs.inodes|
        && off <= |Contents(fs, i)| && Contents(got, i) == Overlay(Contents(fs, i), off, src)
        && forall j :: 0 <= j < |fs.inodes| && j != i ==> Contents(got, j) == Contents(fs, j))
  }

  lemma AtomicWrite(sb: Super, d: F.Disk, fs: Fs, disk: seq<Inode>, owner: map<nat, Owner>, fs': Fs, disk': seq<Inode>,
                    owner': map<nat, Owner>, log: set<Logged>,
                    i: nat, off: nat, src: seq<Byte>, r: int)
    requires sb.Ok() && Within(fs, disk, fs', disk', log) && i < |fs.inodes| == |disk|
    requires Owned(fs, owner, sb.nmeta) && AllTidy(fs, disk)
    requires Owned(fs', owner', sb.nmeta) && |fs'.inodes| == |disk'| && AllTidy(fs', disk')
    requires if r == -1 then fs' == fs else off <= |Contents(fs, i)| && Contents(fs', i) == Overlay(Contents(fs, i), off, src)
    requires forall j :: 0 <= j < |fs.inodes| && j != i ==> Contents(fs', j) == Contents(fs, j)
    ensures forall steps: seq<Step>, at: nat, op: nat :: Performs(sb, d, steps, at, op, fs, disk, fs', disk', log) ==>
      OldOrWritten(Survives(sb, d, steps), fs, i, off, src, r, Ended(sb, d, steps, op))
  {
    forall steps: seq<Step>, at: nat, op: nat | Performs(sb, d, steps, at, op, fs, disk, fs', disk', log)
      ensures OldOrWritten(Survives(sb, d, steps), fs, i, off, src, r, Ended(sb, d, steps, op))
    {
      FilesOldOrNew(sb, d, steps, at, op, fs, disk, owner, fs', disk', owner', log);
    }
  }

  /**
   writei as one operation: a crash anywhere in it or in the commit after it leaves every file as it
   was, or the file written with the new bytes in place and every other as it was.
   */
  method WriteAtomic(f: FileSystem, i: nat, src: seq<Byte>, off: nat, ghost sb: Super, ghost d: F.Disk) returns (r: int, ok: bool)
    requires f.Valid() && i < f.inodes.Length && off < WORD && |src| < WORD
    requires sb.Ok() && f.nmeta == sb.nmeta
    modifies f`owner, f`used, f`logged, f.bits, f.blocks, f.inodes, f.dinodes
    ensures ok ==> f.Valid()
    ensures ok ==> forall steps: seq<Step>, at: nat, op: nat ::
      Performs(sb, d, steps, at, op, old(f.Abs()), old(f.dinodes[..]), f.Abs(), f.dinodes[..], f.logged) ==>
        OldOrWritten(Survives(sb, d, steps), old(f.Abs()), i, off, src, r, Ended(sb, d, steps, op))
  {
    f.logged := {};
    ghost var fs, disk, owner := f.Abs(), f.dinodes[..], f.owner;
    r, ok := f.Writei(i, src, off);
    if ok {
      AtomicWrite(sb, d, fs, disk, owner, f.Abs(), f.dinodes[..], f.owner, f.logged, i, off, src, r);
    }
  }
}
