/**
 Directories of fs.c: files of sixteen-byte entries, read and written through readi and writei.
 A directory is a finite map from names, cut at DIRSIZ bytes, to inode numbers.
 */
module DirCode {
  import opened InodeSpec
  import opened InodeCode

  const DIRSIZ: nat := 14
  const ENTRY: nat := 16

  /** A C string, without its NUL, of any length. */
  type Name = n: seq<Byte> | forall i :: 0 <= i < |n| ==> n[i] != 0

  /** As much of a name as an entry holds. */
  function Cut(n: Name): (c: Name) {
    if |n| <= DIRSIZ then n else n[..DIRSIZ]
  }

  /** An entry; inum 0 means it is free. */
  datatype Dirent = Dirent(inum: nat, name: seq<Byte>)

  // ---------------------------------------------------------------- the format

  /** The bytes of a C string. */
  function Upto0(s: seq<Byte>): (n: seq<Byte>) {
    if s == [] || s[0] == 0 then [] else [s[0]] + Upto0(s[1..])
  }

  function Decode(b: seq<Byte>): (e: Dirent)
    requires |b| == ENTRY
  {
    var lo: nat, hi: nat := b[0], b[1];
    Dirent(lo + 256 * hi, Upto0(b[2..]))
  }

  /** The name field of an entry. */
  function Field(n: Name): (b: seq<Byte>)
    ensures |b| == DIRSIZ
  {
    Cut(n) + seq(DIRSIZ - |Cut(n)|, _ => 0)
  }

  function Encode(inum: nat, n: Name): (b: seq<Byte>)
    requires inum < 65536
    ensures |b| == ENTRY
  {
    [inum % 256, inum / 256] + Field(n)
  }

  lemma {:induction false} Upto0Pad(n: seq<Byte>, k: nat)
    requires forall i :: 0 <= i < |n| ==> n[i] != 0
    ensures Upto0(n + seq(k, _ => 0)) == n
    decreases |n|
  {
    var s := n + seq(k, _ => 0);
    if n != [] {
      assert s[1..] == n[1..] + seq(k, _ => 0);
      Upto0Pad(n[1..], k);
    }
  }

  /** An entry written is the entry read, its name cut at DIRSIZ bytes. */
  lemma EntryBack(inum: nat, n: Name)
    requires inum < 65536
    ensures Decode(Encode(inum, n)) == Dirent(inum, Cut(n))
  {
    var b := Encode(inum, n);
    assert b[2..] == Field(n);
    Upto0Pad(Cut(n), DIRSIZ - |Cut(n)|);
  }

  /** A C string as strncmp and strncpy read it: a NUL after the last byte. */
  function ByteOf(n: Name, i: nat): (b: Byte) {
    if i < |n| then n[i] else 0
  }

  lemma {:induction false} Upto0Prefix(s: seq<Byte>, i: nat)
    requires i <= |s| && forall j :: 0 <= j < i ==> s[j] != 0
    ensures Upto0(s) == s[..i] + Upto0(s[i..])
    decreases i
  {
    if i > 0 {
      Upto0Prefix(s[1..], i - 1);
      assert s[1..][..i - 1] == s[1..i] && s[1..][i - 1..] == s[i..] && s[..i] == [s[0]] + s[1..i];
    } else {
      assert s[..0] == [] && s[0..] == s;
    }
  }

  /** strncmp stopped after `i` equal bytes: the names agree exactly if it ran out of bytes or met two NULs. */
  lemma ComparedTo(n: Name, f: seq<Byte>, i: nat)
    requires |f| == DIRSIZ && i <= DIRSIZ && i <= |n| && (forall j :: 0 <= j < i ==> n[j] == f[j])
    requires i == DIRSIZ || i == |n| || n[i] != f[i]
    ensures i == DIRSIZ || ByteOf(n, i) == f[i] <==> Cut(n) == Upto0(f)
  {
    Upto0Prefix(f, i);
    assert f[..i] == n[..i];
    var rest := Upto0(f[i..]);
    if i == DIRSIZ {
      assert f[i..] == [];
    } else if i == |n| {
      assert Cut(n) == n[..i];
      assert f[i] == 0 <==> rest == [];
    } else {
      assert Cut(n)[i] == n[i];
      assert f[i] != 0 ==> (f[..i] + rest)[i] == f[i];
    }
  }

  /** namecmp(name, de.name) == 0, that is strncmp over DIRSIZ bytes. */
  method SameName(n: Name, f: seq<Byte>) returns (same: bool)
    requires |f| == DIRSIZ
    ensures same <==> Cut(n) == Upto0(f)
  {
    var i := 0;
    while i < DIRSIZ && ByteOf(n, i) != 0 && ByteOf(n, i) == f[i]
      invariant 0 <= i <= DIRSIZ && i <= |n| && forall j :: 0 <= j < i ==> n[j] == f[j]
    {
      i := i + 1;
    }
    ComparedTo(n, f, i);
    same := i == DIRSIZ || ByteOf(n, i) == f[i];
  }

  /** strncpy(de.name, name, DIRSIZ). */
  method CopyName(n: Name) returns (f: seq<Byte>)
    ensures f == Field(n)
  {
    f := [];
    var i := 0;
    while i < DIRSIZ && ByteOf(n, i) != 0
      invariant 0 <= i <= DIRSIZ && i <= |n| && f == n[..i]
    {
      f := f + [ByteOf(n, i)];
      i := i + 1;
    }
    assert f == Cut(n);
    while i < DIRSIZ
      invariant i <= DIRSIZ && f == Cut(n) + seq(i - |Cut(n)|, _ => 0)
    {
      f := f + [0];
      i := i + 1;
    }
  }

  /** The entries in the text of a directory. */
  function Entries(c: seq<Byte>): (es: seq<Dirent>) {
    seq(|c| / ENTRY, k requires 0 <= k < |c| / ENTRY => Decode(c[k * ENTRY..k * ENTRY + ENTRY]))
  }

  function Replaced(es: seq<Dirent>, k: nat, e: Dirent): (r: seq<Dirent>) {
    if k < |es| then es[k := e] else es + [e]
  }

  lemma OverlayLength(c: seq<Byte>, k: nat, b: seq<Byte>)
    requires |c| % ENTRY == 0 && k * ENTRY <= |c| && |b| == ENTRY
    ensures var r := Overlay(c, k * ENTRY, b);
      |r| % ENTRY == 0 && k <= |c| / ENTRY && |r| / ENTRY == if k < |c| / ENTRY then |c| / ENTRY else k + 1
  {
    OverlayRead(c, k * ENTRY, b);
  }

  lemma OverlayEntry(c: seq<Byte>, k: nat, b: seq<Byte>, j: nat)
    requires |c| % ENTRY == 0 && k * ENTRY <= |c| && |b| == ENTRY && j < |Entries(Overlay(c, k * ENTRY, b))|
    ensures j != k ==> j < |Entries(c)|
    ensures Entries(Overlay(c, k * ENTRY, b))[j] == if j == k then Decode(b) else Entries(c)[j]
  {
    OverlayLength(c, k, b);
    OverlayPiece(c, k * ENTRY, b, j * ENTRY);
  }

  /** Laying one entry over the text replaces that entry, or adds one at the end. */
  lemma EntryOverlay(c: seq<Byte>, k: nat, b: seq<Byte>)
    requires |c| % ENTRY == 0 && k * ENTRY <= |c| && |b| == ENTRY
    ensures var r := Overlay(c, k * ENTRY, b);
      && |r| % ENTRY == 0
      && Entries(r) == Replaced(Entries(c), k, Decode(b))
  {
    var es, rs := Entries(c), Entries(Overlay(c, k * ENTRY, b));
    OverlayLength(c, k, b);
    forall j | 0 <= j < |rs|
      ensures rs[j] == if j == k then Decode(b) else es[j]
    {
      OverlayEntry(c, k, b, j);
    }
  }

  lemma OverlayPiece(c: seq<Byte>, off: nat, b: seq<Byte>, at: nat)
    requires off <= |c| && |b| == ENTRY && (at == off || at + ENTRY <= off || (at >= off + ENTRY && at + ENTRY <= |c|))
    ensures at + ENTRY <= |Overlay(c, off, b)|
    ensures at == off ==> Overlay(c, off, b)[at..at + ENTRY] == b
    ensures at != off ==> Overlay(c, off, b)[at..at + ENTRY] == c[at..at + ENTRY]
  {
  }

  // ---------------------------------------------------------------- entries as a map

  predicate Live(e: Dirent, n: seq<Byte>) {
    e.inum != 0 && e.name == n
  }

  /** The place of the first live entry of that name, or the number of entries. */
  function Lookup(es: seq<Dirent>, n: seq<Byte>): (k: nat)
    ensures k <= |es| && (k < |es| ==> Live(es[k], n)) && forall j :: 0 <= j < k ==> !Live(es[j], n)
  {
    if es == [] || Live(es[0], n) then 0 else 1 + Lookup(es[1..], n)
  }

  function FirstFree(es: seq<Dirent>): (k: nat)
    ensures k <= |es| && (k < |es| ==> es[k].inum == 0) && forall j :: 0 <= j < k ==> es[j].inum != 0
  {
    if es == [] || es[0].inum == 0 then 0 else 1 + FirstFree(es[1..])
  }

  /** The directory as a map: 0 for a name it does not have. */
  function Find(es: seq<Dirent>, n: seq<Byte>): (inum: nat) {
    if Lookup(es, n) < |es| then es[Lookup(es, n)].inum else 0
  }

  function Put(es: seq<Dirent>, e: Dirent): (r: seq<Dirent>) {
    if FirstFree(es) < |es| then es[FirstFree(es) := e] else es + [e]
  }

  function Clear(es: seq<Dirent>, k: nat): (r: seq<Dirent>)
    requires k < |es|
  {
    es[k := Dirent(0, [])]
  }

  /** No name is there twice. */
  predicate Unique(es: seq<Dirent>) {
    forall i, j :: 0 <= i < j < |es| && es[i].inum != 0 && es[j].inum != 0 ==> es[i].name != es[j].name
  }

  lemma LookupIs(es: seq<Dirent>, n: seq<Byte>, k: nat)
    requires k <= |es| && (k < |es| ==> Live(es[k], n)) && forall j :: 0 <= j < k ==> !Live(es[j], n)
    ensures Lookup(es, n) == k
  {
  }

  /** dirlink of an absent name is a map update and keeps names unique. */
  lemma PutIsUpdate(es: seq<Dirent>, e: Dirent, n: seq<Byte>)
    requires e.inum != 0 && Find(es, e.name) == 0
    ensures Find(Put(es, e), n) == if n == e.name then e.inum else Find(es, n)
    ensures Unique(es) ==> Unique(Put(es, e))
  {
    var r, k := Put(es, e), FirstFree(es);
    assert forall j :: 0 <= j < |es| ==> !Live(es[j], e.name);
    assert r[k] == e && forall j :: 0 <= j < |es| && j != k ==> r[j] == es[j];
    if n == e.name {
      LookupIs(r, n, k);
    } else {
      var m := Lookup(es, n);
      LookupIs(r, n, if m < |es| then m else |r|);
    }
  }

  /** Two names are told apart if and only if their first DIRSIZ bytes differ: linked as `a`, an inode is found as `b` or not. */
  lemma NamesExact(es: seq<Dirent>, a: Name, b: Name, inum: nat)
    requires inum != 0 && Find(es, Cut(a)) == 0 && Find(es, Cut(b)) == 0
    ensures Find(Put(es, Dirent(inum, Cut(a))), Cut(b)) == inum <==> Cut(a) == Cut(b)
  {
    PutIsUpdate(es, Dirent(inum, Cut(a)), Cut(b));
  }

  /** Clearing the entry of a name removes the name and no other, when names are unique. */
  lemma ClearIsRemove(es: seq<Dirent>, k: nat, n: seq<Byte>)
    requires Unique(es) && k < |es| && es[k].inum != 0
    ensures Find(Clear(es, k), n) == if n == es[k].name then 0 else Find(es, n)
    ensures Unique(Clear(es, k))
  {
    var r := Clear(es, k);
    if n == es[k].name {
      LookupIs(r, n, |r|);
    } else {
      var m := Lookup(es, n);
      LookupIs(r, n, if m < |es| then m else |r|);
    }
  }

  // ---------------------------------------------------------------- the code

  ghost function EntriesOf(fs: FileSystem, i: nat): (es: seq<Dirent>)
    requires fs.Sane() && i < fs.inodes.Length
    reads fs, fs.bits, fs.blocks, fs.inodes
  {
    Entries(Contents(fs.Abs(), i))
  }

  /** A directory holds whole entries. */
  ghost predicate IsDir(fs: FileSystem, i: nat)
    requires fs.Sane() && i < fs.inodes.Length
    reads fs, fs.bits, fs.blocks, fs.inodes
  {
    |Contents(fs.Abs(), i)| % ENTRY == 0
  }

  lemma SizeIs(fs: FileSystem, i: nat)
    requires fs.Valid() && i < fs.inodes.Length
    ensures fs.inodes[i].size == |Contents(fs.Abs(), i)| <= MAXBYTES
  {
    assert Tidy(fs.Abs(), fs.dinodes[..], i);
  }

  /** One entry, read through readi. */
  method ReadEntry(fs: FileSystem, i: nat, k: nat) returns (de: seq<Byte>)
    requires fs.Valid() && i < fs.inodes.Length && IsDir(fs, i) && k < |EntriesOf(fs, i)|
    modifies fs`owner, fs`used, fs`logged, fs.bits, fs.blocks, fs.inodes
    ensures fs.Valid() && fs.Abs() == old(fs.Abs()) && |de| == ENTRY && Decode(de) == EntriesOf(fs, i)[k]
  {
    SizeIs(fs, i);
    var r, ok;
    de, r, ok := fs.Readi(i, k * ENTRY, ENTRY);
    // The panic on a short read cannot happen.
    assert ok && r == ENTRY;
  }

  /** The body of the loop of dirlookup: is entry `k` in use under that name? */
  method MatchEntry(fs: FileSystem, i: nat, k: nat, n: Name) returns (inum: nat, same: bool)
    requires fs.Valid() && i < fs.inodes.Length && IsDir(fs, i) && k < |EntriesOf(fs, i)|
    modifies fs`owner, fs`used, fs`logged, fs.bits, fs.blocks, fs.inodes
    ensures fs.Valid() && fs.Abs() == old(fs.Abs()) && inum == EntriesOf(fs, i)[k].inum && same == Live(EntriesOf(fs, i)[k], Cut(n))
  {
    var de := ReadEntry(fs, i, k);
    inum := Decode(de).inum;
    same := false;
    if inum != 0 {
      same := SameName(n, de[2..]);
    }
  }

  /** dirlookup: where the name is, if it is there. */
  method DirLookup(fs: FileSystem, i: nat, n: Name) returns (k: nat, found: bool, inum: nat)
    requires fs.Valid() && i < fs.inodes.Length && IsDir(fs, i)
    modifies fs`owner, fs`used, fs`logged, fs.bits, fs.blocks, fs.inodes
    ensures fs.Valid() && fs.Abs() == old(fs.Abs()) && k == Lookup(EntriesOf(fs, i), Cut(n))
    ensures found == (k < |EntriesOf(fs, i)|) && inum == Find(EntriesOf(fs, i), Cut(n)) && (found <==> inum != 0)
  {
    ghost var es := EntriesOf(fs, i);
    SizeIs(fs, i);
    k, inum, found := 0, 0, false;
    while k * ENTRY < fs.inodes[i].size
      invariant 0 <= k <= |es| && fs.Valid() && fs.Abs() == old(fs.Abs()) && forall j :: 0 <= j < k ==> !Live(es[j], Cut(n))
      decreases |es| - k
    {
      inum, found := MatchEntry(fs, i, k, n);
      if found {
        LookupIs(es, Cut(n), k);
        return;
      }
      k, inum := k + 1, 0;
    }
    LookupIs(es, Cut(n), k);
  }

  /** The loop of dirlink that looks for an entry not in use. */
  method FreeSlot(fs: FileSystem, i: nat) returns (k: nat)
    requires fs.Valid() && i < fs.inodes.Length && IsDir(fs, i)
    modifies fs`owner, fs`used, fs`logged, fs.bits, fs.blocks, fs.inodes
    ensures fs.Valid() && fs.Abs() == old(fs.Abs()) && k == FirstFree(EntriesOf(fs, i))
  {
    ghost var es := EntriesOf(fs, i);
    SizeIs(fs, i);
    k := 0;
    while k * ENTRY < fs.inodes[i].size
      invariant 0 <= k <= |es| && fs.Valid() && fs.Abs() == old(fs.Abs()) && forall j :: 0 <= j < k ==> es[j].inum != 0
      decreases |es| - k
    {
      var de := ReadEntry(fs, i, k);
      if Decode(de).inum == 0 {
        FirstFreeIs(es, k);
        return;
      }
      k := k + 1;
    }
    FirstFreeIs(es, k);
  }

  lemma FirstFreeIs(es: seq<Dirent>, k: nat)
    requires k <= |es| && (k < |es| ==> es[k].inum == 0) && forall j :: 0 <= j < k ==> es[j].inum != 0
    ensures FirstFree(es) == k
  {
  }

  /** One entry written through writei; panics if the disk is full or the directory as long as a file can be. */
  method WriteEntry(fs: FileSystem, i: nat, k: nat, b: seq<Byte>) returns (ok: bool)
    requires fs.Valid() && i < fs.inodes.Length && IsDir(fs, i) && k <= |EntriesOf(fs, i)| && |b| == ENTRY
    modifies fs`owner, fs`used, fs`logged, fs.bits, fs.blocks, fs.inodes, fs.dinodes
    ensures ok ==> fs.Valid() && IsDir(fs, i)
    ensures ok ==> EntriesOf(fs, i) == Replaced(old(EntriesOf(fs, i)), k, Decode(b))
    ensures ok ==> forall j :: 0 <= j < fs.inodes.Length && j != i ==>
      fs.inodes[j] == old(fs.inodes[j]) && Contents(fs.Abs(), j) == Contents(old(fs.Abs()), j)
    ensures !ok ==> fs.Sane() && k == |old(EntriesOf(fs, i))| && (fs.Full() || k * ENTRY + ENTRY > MAXBYTES)
  {
    SizeIs(fs, i);
    EntryOverlay(Contents(fs.Abs(), i), k, b);
    var r;
    r, ok := fs.Writei(i, b, k * ENTRY);
    ok := ok && r == ENTRY;
  }

  /** dirlink: -1 if the name is there, else the directory with the name added. */
  method DirLink(fs: FileSystem, i: nat, n: Name, inum: nat) returns (r: int, ok: bool)
    requires fs.Valid() && i < fs.inodes.Length && IsDir(fs, i) && 0 < inum < 65536
    modifies fs`owner, fs`used, fs`logged, fs.bits, fs.blocks, fs.inodes, fs.dinodes
    ensures ok ==> fs.Valid() && IsDir(fs, i) && r == if Find(old(EntriesOf(fs, i)), Cut(n)) != 0 then -1 else 0
    ensures ok && r == -1 ==> fs.Abs() == old(fs.Abs())
    ensures ok && r == 0 ==> EntriesOf(fs, i) == Put(old(EntriesOf(fs, i)), Dirent(inum, Cut(n)))
    ensures ok ==> forall j :: 0 <= j < fs.inodes.Length && j != i ==>
      fs.inodes[j] == old(fs.inodes[j]) && Contents(fs.Abs(), j) == Contents(old(fs.Abs()), j)
    ensures !ok ==> fs.Sane() && (fs.Full() || |old(EntriesOf(fs, i))| * ENTRY + ENTRY > MAXBYTES)
  {
    var k, found, was := DirLookup(fs, i, n);
    if found {
      return -1, true;
    }
    k := FreeSlot(fs, i);
    EntryBack(inum, n);
    var name := CopyName(n);
    ok := WriteEntry(fs, i, k, [inum % 256, inum / 256] + name);
    r := 0;
  }

  /** The entry that unlink zeroes. */
  method DirClear(fs: FileSystem, i: nat, k: nat)
    requires fs.Valid() && i < fs.inodes.Length && IsDir(fs, i) && k < |EntriesOf(fs, i)|
    modifies fs`owner, fs`used, fs`logged, fs.bits, fs.blocks, fs.inodes, fs.dinodes
    ensures fs.Valid() && IsDir(fs, i) && EntriesOf(fs, i) == Clear(old(EntriesOf(fs, i)), k)
    ensures forall j :: 0 <= j < fs.inodes.Length && j != i ==>
      fs.inodes[j] == old(fs.inodes[j]) && Contents(fs.Abs(), j) == Contents(old(fs.Abs()), j)
  {
    var none: Name := [];
    EntryBack(0, none);
    var ok := WriteEntry(fs, i, k, Encode(0, none));
    // The panic of unlink on a failed write cannot happen.
    assert ok;
  }

  /** isdirempty: no entry in use after the first two. */
  method IsDirEmpty(fs: FileSystem, i: nat) returns (b: bool)
    requires fs.Valid() && i < fs.inodes.Length && IsDir(fs, i)
    modifies fs`owner, fs`used, fs`logged, fs.bits, fs.blocks, fs.inodes
    ensures fs.Valid() && fs.Abs() == old(fs.Abs())
    ensures b <==> forall k :: 2 <= k < |EntriesOf(fs, i)| ==> EntriesOf(fs, i)[k].inum == 0
  {
    ghost var es := EntriesOf(fs, i);
    SizeIs(fs, i);
    var k := 2;
    while k * ENTRY < fs.inodes[i].size
      invariant 2 <= k && fs.Valid() && fs.Abs() == old(fs.Abs()) && forall j :: 2 <= j < k && j < |es| ==> es[j].inum == 0
      decreases fs.inodes[i].size - k * ENTRY
    {
      var de := ReadEntry(fs, i, k);
      if Decode(de).inum != 0 {
        return false;
      }
      k := k + 1;
    }
    return true;
  }
}
