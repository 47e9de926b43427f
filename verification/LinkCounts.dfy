/**
 Link counts: the directory tree under link, unlink, create and mkdir as a machine whose steps
 interleave. As long as every directory written is itself still linked, the link count of an
 inode is the number of entries other than "." that name it in linked directories, plus the
 links under way.
 */
module LinkCounts {
  import opened InodeSpec
  import opened DirCode

  const ROOTINO: nat := 1
  const DOT: seq<Byte> := [46]
  const DOTDOT: seq<Byte> := [46, 46]

  datatype Kind = NoNode | FileNode | DirNode

  datatype Node = Node(kind: Kind, nlink: int, ents: seq<Dirent>)

  /**
   `pending` counts the links of an inode between the two halves of sys_link. `spot` is the place
   at which a directory is listed in its parent.
   */
  datatype Tree = Tree(nodes: seq<Node>, pending: seq<nat>, spot: seq<nat>)

  predicate Linked(n: Node) {
    n.kind.DirNode? && n.nlink > 0
  }

  // ---------------------------------------------------------------- counting

  function One(e: Dirent, i: nat): (n: nat) {
    if e.inum == i then 1 else 0
  }

  /** How many entries after the first name `i`. */
  function Tally(es: seq<Dirent>, i: nat): (n: nat) {
    if |es| <= 1 then 0 else Tally(es[..|es| - 1], i) + One(es[|es| - 1], i)
  }

  function Share(n: Node, i: nat): (k: nat) {
    if Linked(n) then Tally(n.ents, i) else 0
  }

  /** How many entries other than "." name `i` in linked directories. */
  function Total(ns: seq<Node>, i: nat): (n: nat) {
    if ns == [] then 0 else Total(ns[..|ns| - 1], i) + Share(ns[|ns| - 1], i)
  }

  lemma {:induction false} TallyUpdate(es: seq<Dirent>, k: nat, e: Dirent, i: nat)
    requires 1 <= k < |es|
    ensures Tally(es[k := e], i) == Tally(es, i) - One(es[k], i) + One(e, i)
    decreases |es|
  {
    var n := |es| - 1;
    if k == n {
      assert es[k := e][..n] == es[..n];
    } else {
      assert es[k := e][..n] == es[..n][k := e];
      TallyUpdate(es[..n], k, e, i);
    }
  }

  lemma TallyAppend(es: seq<Dirent>, e: Dirent, i: nat)
    requires |es| >= 1
    ensures Tally(es + [e], i) == Tally(es, i) + One(e, i)
  {
    assert (es + [e])[..|es|] == es;
  }

  /** dirlink adds one entry for `e`, in place of a free one or at the end. */
  lemma TallyPut(es: seq<Dirent>, e: Dirent, i: nat)
    requires |es| >= 1 && es[0].inum != 0 && i != 0
    ensures Tally(Put(es, e), i) == Tally(es, i) + One(e, i)
  {
    var k := FirstFree(es);
    if k < |es| { TallyUpdate(es, k, e, i); } else { TallyAppend(es, e, i); }
  }

  lemma TallyClear(es: seq<Dirent>, k: nat, i: nat)
    requires 1 <= k < |es| && i != 0
    ensures Tally(es, i) == Tally(Clear(es, k), i) + One(es[k], i)
  {
    TallyUpdate(es, k, Dirent(0, []), i);
  }

  lemma {:induction false} TotalUpdate(ns: seq<Node>, j: nat, n: Node, i: nat)
    requires j < |ns|
    ensures Total(ns[j := n], i) + Share(ns[j], i) == Total(ns, i) + Share(n, i)
    decreases |ns|
  {
    var m := |ns| - 1;
    if j == m {
      assert ns[j := n][..m] == ns[..m];
    } else {
      assert ns[j := n][..m] == ns[..m][j := n];
      TotalUpdate(ns[..m], j, n, i);
    }
  }

  lemma {:induction false} TallyNone(es: seq<Dirent>, i: nat)
    requires forall k :: 1 <= k < |es| ==> es[k].inum != i
    ensures Tally(es, i) == 0
    decreases |es|
  {
    if |es| > 1 { TallyNone(es[..|es| - 1], i); }
  }

  lemma {:induction false} TotalNone(ns: seq<Node>, i: nat)
    requires forall j :: 0 <= j < |ns| ==> Share(ns[j], i) == 0
    ensures Total(ns, i) == 0
    decreases |ns|
  {
    if ns != [] { TotalNone(ns[..|ns| - 1], i); }
  }

  /** One entry names `i`, no other does. */
  lemma TallyOne(es: seq<Dirent>, k: nat, i: nat)
    requires 1 <= k < |es| && i != 0 && forall m :: 1 <= m < |es| ==> (es[m].inum == i <==> m == k)
    ensures Tally(es, i) == 1
  {
    TallyClear(es, k, i);
    TallyNone(Clear(es, k), i);
  }

  lemma TotalOne(ns: seq<Node>, j: nat, i: nat)
    requires j < |ns| && Share(ns[j], i) == 1 && forall m :: 0 <= m < |ns| && m != j ==> Share(ns[m], i) == 0
    ensures Total(ns, i) == 1
  {
    var gone := Node(NoNode, 0, []);
    TotalUpdate(ns, j, gone, i);
    TotalNone(ns[j := gone], i);
  }

  /** An entry in a linked directory counts. */
  lemma TotalSome(ns: seq<Node>, j: nat, k: nat)
    requires j < |ns| && Linked(ns[j]) && 1 <= k < |ns[j].ents| && ns[j].ents[k].inum != 0
    ensures Total(ns, ns[j].ents[k].inum) >= 1
  {
    var i := ns[j].ents[k].inum;
    TallyClear(ns[j].ents, k, i);
    TotalUpdate(ns, j, Node(NoNode, 0, []), i);
  }

  // ---------------------------------------------------------------- the invariant

  predicate Sized(t: Tree) {
    |t.nodes| == |t.pending| == |t.spot| && ROOTINO < |t.nodes|
  }

  function Parent(n: Node): (p: nat) {
    if |n.ents| > 1 then n.ents[1].inum else 0
  }

  /** Link count, links under way and entries agree; a free inode has none of them. */
  ghost predicate CountOk(t: Tree, i: nat)
    requires Sized(t) && i < |t.nodes|
  {
    && (i != 0 ==> t.nodes[i].nlink == Total(t.nodes, i) + t.pending[i])
    && (t.nodes[i].kind.NoNode? ==> t.nodes[i].nlink == 0 && t.pending[i] == 0)
    && (t.nodes[i].kind.DirNode? ==> t.pending[i] == 0)
    && (i == 0 ==> t.nodes[i].kind.NoNode?)
  }

  /** A linked directory starts with "." and "..", and is listed in its parent, unless it is the root. */
  ghost predicate DirOk(t: Tree, j: nat)
    requires Sized(t) && j < |t.nodes|
  {
    Linked(t.nodes[j]) ==>
      var es, p := t.nodes[j].ents, Parent(t.nodes[j]);
      && |es| >= 2 && es[0] == Dirent(j, DOT) && es[1].name == DOTDOT && Unique(es)
      && p < |t.nodes| && Linked(t.nodes[p])
      && (if j == ROOTINO then p == j else 2 <= t.spot[j] < |t.nodes[p].ents| && t.nodes[p].ents[t.spot[j]].inum == j)
  }

  /** An entry after the dots names an inode in use; a directory is named only in its parent, at its spot. */
  ghost predicate EntryOk(t: Tree, j: nat, k: nat)
    requires Sized(t) && j < |t.nodes| && k < |t.nodes[j].ents|
  {
    var i := t.nodes[j].ents[k].inum;
    Linked(t.nodes[j]) && k >= 2 && i != 0 ==>
      && i < |t.nodes| && !t.nodes[i].kind.NoNode?
      && (t.nodes[i].kind.DirNode? ==> Linked(t.nodes[i]) && i != ROOTINO && Parent(t.nodes[i]) == j && t.spot[i] == k)
  }

  ghost predicate Good(t: Tree) {
    && Sized(t) && Linked(t.nodes[ROOTINO])
    && (forall i :: 0 <= i < |t.nodes| ==> CountOk(t, i))
    && (forall j :: 0 <= j < |t.nodes| ==> DirOk(t, j))
    && (forall j, k :: 0 <= j < |t.nodes| && 0 <= k < |t.nodes[j].ents| ==> EntryOk(t, j, k))
  }

  // ---------------------------------------------------------------- the steps

  datatype Step =
    | LinkStart(ip: nat)
    | LinkDone(ip: nat, dp: nat, name: seq<Byte>)
    | LinkFail(ip: nat)
    | Unlink(dp: nat, k: nat)
    | Create(dp: nat, name: seq<Byte>, ip: nat, dir: bool)
    | Reclaim(ip: nat)

  predicate Empty(n: Node) {
    forall k :: 2 <= k < |n.ents| ==> n.ents[k].inum == 0
  }

  predicate Plain(name: seq<Byte>) {
    name != DOT && name != DOTDOT
  }

  /** Entry `k` of `dp` is in use, is none of the dots and names no directory with entries of its own. */
  predicate Removable(t: Tree, dp: nat, k: nat) {
    && dp < |t.nodes| && t.nodes[dp].kind.DirNode? && k < |t.nodes[dp].ents|
    && 0 < t.nodes[dp].ents[k].inum < |t.nodes| && Plain(t.nodes[dp].ents[k].name)
    && (t.nodes[t.nodes[dp].ents[k].inum].kind.DirNode? ==> Empty(t.nodes[t.nodes[dp].ents[k].inum]))
  }

  /** What the code checks before each step. */
  ghost predicate Enabled(t: Tree, s: Step)
    requires Sized(t)
  {
    match s
    case LinkStart(ip) => ip < |t.nodes| && t.nodes[ip].kind.FileNode?
    case LinkDone(ip, dp, name) =>
      ip < |t.nodes| && t.pending[ip] > 0 && dp < |t.nodes| && t.nodes[dp].kind.DirNode? && Find(t.nodes[dp].ents, name) == 0
    case LinkFail(ip) => ip < |t.nodes| && t.pending[ip] > 0
    case Unlink(dp, k) => Removable(t, dp, k) && t.nodes[t.nodes[dp].ents[k].inum].nlink >= 1
    case Create(dp, name, ip, dir) =>
      && dp < |t.nodes| && t.nodes[dp].kind.DirNode? && Find(t.nodes[dp].ents, name) == 0
      && 0 < ip < |t.nodes| && t.nodes[ip].kind.NoNode?
    case Reclaim(ip) => 0 < ip < |t.nodes| && t.nodes[ip].nlink == 0
  }

  /** The directory a step writes is linked. */
  predicate Proper(t: Tree, s: Step)
    requires Sized(t)
  {
    s.LinkDone? || s.Unlink? || s.Create? ==> s.dp < |t.nodes| && Linked(t.nodes[s.dp])
  }

  function More(n: Node, d: int): (r: Node) {
    n.(nlink := n.nlink + d)
  }

  function Added(n: Node, e: Dirent): (r: Node) {
    n.(ents := Put(n.ents, e))
  }

  function Fresh(ip: nat, dp: nat, dir: bool): (n: Node) {
    if dir then Node(DirNode, 1, [Dirent(ip, DOT), Dirent(dp, DOTDOT)]) else Node(FileNode, 1, [])
  }

  ghost function Next(t: Tree, s: Step): (r: Tree)
    requires Sized(t) && Enabled(t, s)
    ensures Sized(r)
  {
    match s
    case LinkStart(ip) => t.(nodes := t.nodes[ip := More(t.nodes[ip], 1)], pending := t.pending[ip := t.pending[ip] + 1])
    case LinkDone(ip, dp, name) =>
      t.(nodes := t.nodes[dp := Added(t.nodes[dp], Dirent(ip, name))], pending := t.pending[ip := t.pending[ip] - 1])
    case LinkFail(ip) => t.(nodes := t.nodes[ip := More(t.nodes[ip], -1)], pending := t.pending[ip := t.pending[ip] - 1])
    case Unlink(dp, k) =>
      var ip := t.nodes[dp].ents[k].inum;
      var d := t.nodes[dp].(ents := Clear(t.nodes[dp].ents, k));
      var ns := t.nodes[dp := More(d, if t.nodes[ip].kind.DirNode? then -1 else 0)];
      t.(nodes := ns[ip := More(ns[ip], -1)])
    case Create(dp, name, ip, dir) =>
      var ns := t.nodes[ip := Fresh(ip, dp, dir)];
      var d := Added(More(ns[dp], if dir then 1 else 0), Dirent(ip, name));
      t.(nodes := ns[dp := d], spot := t.spot[ip := FirstFree(t.nodes[dp].ents)])
    case Reclaim(ip) => t.(nodes := t.nodes[ip := Node(NoNode, 0, [])])
  }

  // ---------------------------------------------------------------- what every step keeps

  /** The panic of unlink on a link count below one cannot happen, nor can a directory lose its last link here. */
  lemma UnlinkSafe(t: Tree, dp: nat, k: nat)
    requires Good(t) && Removable(t, dp, k) && Linked(t.nodes[dp])
    ensures t.nodes[t.nodes[dp].ents[k].inum].nlink >= 1 && k >= 2
  {
    assert DirOk(t, dp) && CountOk(t, t.nodes[dp].ents[k].inum);
    TotalSome(t.nodes, dp, k);
  }

  /** The count of a file changes; the tree does not. */
  lemma FileCount(t: Tree, ip: nat, d: int)
    requires Good(t) && ip < |t.nodes| && t.nodes[ip].kind.FileNode? && t.pending[ip] + d >= 0
    ensures Good(t.(nodes := t.nodes[ip := More(t.nodes[ip], d)], pending := t.pending[ip := t.pending[ip] + d]))
  {
    var n := More(t.nodes[ip], d);
    var r := t.(nodes := t.nodes[ip := n], pending := t.pending[ip := t.pending[ip] + d]);
    forall i | 0 <= i < |t.nodes|
      ensures CountOk(r, i)
    {
      assert CountOk(t, i);
      TotalUpdate(t.nodes, ip, n, i);
    }
    forall j | 0 <= j < |t.nodes| ensures DirOk(r, j) { assert DirOk(t, j); }
    forall j, k | 0 <= j < |r.nodes| && 0 <= k < |r.nodes[j].ents| ensures EntryOk(r, j, k) { assert EntryOk(t, j, k); }
  }

  /** The dots of a linked directory are not free, so dirlink leaves them alone. */
  lemma PutKeeps(t: Tree, dp: nat, e: Dirent)
    requires Good(t) && dp < |t.nodes| && Linked(t.nodes[dp]) && e.inum != 0 && Find(t.nodes[dp].ents, e.name) == 0
    ensures var es := t.nodes[dp].ents; var rs := Put(es, e);
      && 2 <= FirstFree(es) < |rs| && rs[FirstFree(es)] == e && Unique(rs) && |rs| >= |es|
      && (forall k :: 0 <= k < |es| && es[k].inum != 0 ==> rs[k] == es[k])
      && (forall k :: 0 <= k < |rs| && k != FirstFree(es) ==> k < |es| && rs[k] == es[k])
    ensures forall i :: i != 0 ==> Tally(Put(t.nodes[dp].ents, e), i) == Tally(t.nodes[dp].ents, i) + One(e, i)
  {
    assert DirOk(t, dp) && CountOk(t, 0);
    PutIsUpdate(t.nodes[dp].ents, e, e.name);
    forall i | i != 0
      ensures Tally(Put(t.nodes[dp].ents, e), i) == Tally(t.nodes[dp].ents, i) + One(e, i)
    {
      TallyPut(t.nodes[dp].ents, e, i);
    }
  }

  lemma LinkDoneGood(t: Tree, ip: nat, dp: nat, name: seq<Byte>)
    requires Good(t) && Enabled(t, LinkDone(ip, dp, name)) && Linked(t.nodes[dp])
    ensures Good(Next(t, LinkDone(ip, dp, name)))
  {
    var r := Next(t, LinkDone(ip, dp, name));
    assert CountOk(t, ip) && CountOk(t, 0);
    PutKeeps(t, dp, Dirent(ip, name));
    LinkDoneCounts(t, ip, dp, name);
    forall j | 0 <= j < |t.nodes| ensures DirOk(r, j) { assert DirOk(t, j) && DirOk(t, dp); }
    forall j, k | 0 <= j < |r.nodes| && 0 <= k < |r.nodes[j].ents|
      ensures EntryOk(r, j, k)
    {
      if j != dp || k != FirstFree(t.nodes[dp].ents) { assert EntryOk(t, j, k); }
    }
  }

  lemma LinkDoneCounts(t: Tree, ip: nat, dp: nat, name: seq<Byte>)
    requires Good(t) && Enabled(t, LinkDone(ip, dp, name)) && Linked(t.nodes[dp])
    ensures forall i :: 0 <= i < |t.nodes| ==> CountOk(Next(t, LinkDone(ip, dp, name)), i)
  {
    var r := Next(t, LinkDone(ip, dp, name));
    assert CountOk(t, ip) && CountOk(t, 0);
    PutKeeps(t, dp, Dirent(ip, name));
    forall i | 0 <= i < |t.nodes|
      ensures CountOk(r, i)
    {
      assert CountOk(t, i);
      TotalUpdate(t.nodes, dp, r.nodes[dp], i);
    }
  }

  lemma ReclaimGood(t: Tree, ip: nat)
    requires Good(t) && Enabled(t, Reclaim(ip))
    ensures Good(Next(t, Reclaim(ip)))
  {
    var r := Next(t, Reclaim(ip));
    assert CountOk(t, ip);
    forall i | 0 <= i < |t.nodes|
      ensures CountOk(r, i)
    {
      assert CountOk(t, i);
      TotalUpdate(t.nodes, ip, r.nodes[ip], i);
    }
    forall j | 0 <= j < |t.nodes| ensures DirOk(r, j) { assert DirOk(t, j); }
    forall j, k | 0 <= j < |r.nodes| && 0 <= k < |r.nodes[j].ents|
      ensures EntryOk(r, j, k)
    {
      assert EntryOk(t, j, k);
      if Linked(t.nodes[j]) && k >= 1 && t.nodes[j].ents[k].inum != 0 { TotalSome(t.nodes, j, k); }
    }
  }

  lemma ClearKeeps(t: Tree, dp: nat, k: nat)
    requires Good(t) && dp < |t.nodes| && Linked(t.nodes[dp]) && 2 <= k < |t.nodes[dp].ents| && t.nodes[dp].ents[k].inum != 0
    ensures var es := t.nodes[dp].ents; Unique(Clear(es, k)) && forall i :: i != 0 ==>
      Tally(es, i) == Tally(Clear(es, k), i) + One(es[k], i)
  {
    var es := t.nodes[dp].ents;
    assert DirOk(t, dp);
    ClearIsRemove(es, k, es[k].name);
    forall i | i != 0 ensures Tally(es, i) == Tally(Clear(es, k), i) + One(es[k], i) { TallyClear(es, k, i); }
  }

  lemma UnlinkFileGood(t: Tree, dp: nat, k: nat)
    requires Good(t) && Enabled(t, Unlink(dp, k)) && Linked(t.nodes[dp]) && !t.nodes[t.nodes[dp].ents[k].inum].kind.DirNode?
    ensures Good(Next(t, Unlink(dp, k)))
  {
    var r := Next(t, Unlink(dp, k));
    UnlinkSafe(t, dp, k);
    UnlinkFileCounts(t, dp, k);
    forall j | 0 <= j < |t.nodes| ensures DirOk(r, j) { UnlinkFileDirOk(t, dp, k, j); }
    assert EntryOk(t, dp, k);
    forall j, m | 0 <= j < |r.nodes| && 0 <= m < |r.nodes[j].ents| ensures EntryOk(r, j, m) { assert EntryOk(t, j, m); }
  }

  lemma UnlinkFileCounts(t: Tree, dp: nat, k: nat)
    requires Good(t) && Enabled(t, Unlink(dp, k)) && Linked(t.nodes[dp]) && !t.nodes[t.nodes[dp].ents[k].inum].kind.DirNode? && k >= 2
    ensures forall i :: 0 <= i < |t.nodes| ==> CountOk(Next(t, Unlink(dp, k)), i)
  {
    var ip, r := t.nodes[dp].ents[k].inum, Next(t, Unlink(dp, k));
    ClearKeeps(t, dp, k);
    assert EntryOk(t, dp, k);
    var mid := t.nodes[dp := r.nodes[dp]];
    forall i | 0 <= i < |t.nodes|
      ensures CountOk(r, i)
    {
      assert CountOk(t, i);
      TotalUpdate(t.nodes, dp, r.nodes[dp], i);
      TotalUpdate(mid, ip, r.nodes[ip], i);
    }
  }

  lemma UnlinkFileDirOk(t: Tree, dp: nat, k: nat, j: nat)
    requires Good(t) && Enabled(t, Unlink(dp, k)) && Linked(t.nodes[dp]) && !t.nodes[t.nodes[dp].ents[k].inum].kind.DirNode? && k >= 2
    requires j < |t.nodes|
    ensures DirOk(Next(t, Unlink(dp, k)), j)
  {
    ClearKeeps(t, dp, k);
    assert EntryOk(t, dp, k) && DirOk(t, j) && DirOk(t, dp);
  }

  /** The parent of a linked directory lists it. */
  lemma ParentNotEmpty(t: Tree, j: nat)
    requires Good(t) && j < |t.nodes| && Linked(t.nodes[j]) && j != ROOTINO
    ensures Parent(t.nodes[j]) < |t.nodes| && !Empty(t.nodes[Parent(t.nodes[j])])
  {
    assert DirOk(t, j) && CountOk(t, 0);
    assert t.nodes[Parent(t.nodes[j])].ents[t.spot[j]].inum != 0;
  }

  /** An empty linked directory is named once: in its parent. No other entry names it. */
  lemma EmptyNamedOnce(t: Tree, dp: nat, k: nat, j: nat, m: nat)
    requires Good(t) && dp < |t.nodes| && Linked(t.nodes[dp]) && 2 <= k < |t.nodes[dp].ents|
    requires var ip := t.nodes[dp].ents[k].inum; 0 < ip < |t.nodes| && t.nodes[ip].kind.DirNode? && Empty(t.nodes[ip])
    requires j < |t.nodes| && Linked(t.nodes[j]) && 1 <= m < |t.nodes[j].ents| && t.nodes[j].ents[m].inum == t.nodes[dp].ents[k].inum
    ensures j == dp && m == k
  {
    assert EntryOk(t, dp, k) && EntryOk(t, j, m) && DirOk(t, j);
    if j != ROOTINO { ParentNotEmpty(t, j); }
  }

  /** So its link count is one, and unlink takes it to zero. */
  lemma EmptyCount(t: Tree, dp: nat, k: nat)
    requires Good(t) && dp < |t.nodes| && Linked(t.nodes[dp]) && 2 <= k < |t.nodes[dp].ents|
    requires var ip := t.nodes[dp].ents[k].inum; 0 < ip < |t.nodes| && t.nodes[ip].kind.DirNode? && Empty(t.nodes[ip])
    ensures var ip := t.nodes[dp].ents[k].inum; t.nodes[ip].nlink == 1 && ip != dp && ip != ROOTINO && Parent(t.nodes[ip]) == dp
  {
    var ip := t.nodes[dp].ents[k].inum;
    assert EntryOk(t, dp, k) && CountOk(t, ip) && DirOk(t, ip);
    forall m | 1 <= m < |t.nodes[dp].ents| && t.nodes[dp].ents[m].inum == ip ensures m == k { EmptyNamedOnce(t, dp, k, dp, m); }
    TallyOne(t.nodes[dp].ents, k, ip);
    forall j | 0 <= j < |t.nodes| && j != dp
      ensures Share(t.nodes[j], ip) == 0
    {
      if Linked(t.nodes[j]) {
        forall m | 1 <= m < |t.nodes[j].ents|
          ensures t.nodes[j].ents[m].inum != ip { if t.nodes[j].ents[m].inum == ip
        {
          EmptyNamedOnce(t, dp, k, j, m); }
        }
        TallyNone(t.nodes[j].ents, ip);
      }
    }
    TotalOne(t.nodes, dp, ip);
  }

  /** What an empty directory contributes: its "..", once. */
  lemma EmptyShare(t: Tree, ip: nat, i: nat)
    requires Good(t) && ip < |t.nodes| && Linked(t.nodes[ip]) && Empty(t.nodes[ip]) && i != 0
    ensures Share(t.nodes[ip], i) == if i == Parent(t.nodes[ip]) then 1 else 0
  {
    assert DirOk(t, ip);
    var es := t.nodes[ip].ents;
    if i == Parent(t.nodes[ip]) { TallyOne(es, 1, i); } else { TallyNone(es, i); }
  }

  lemma UnlinkDirGood(t: Tree, dp: nat, k: nat)
    requires Good(t) && Enabled(t, Unlink(dp, k)) && Linked(t.nodes[dp]) && t.nodes[t.nodes[dp].ents[k].inum].kind.DirNode?
    ensures Good(Next(t, Unlink(dp, k)))
  {
    var ip, r := t.nodes[dp].ents[k].inum, Next(t, Unlink(dp, k));
    UnlinkSafe(t, dp, k);
    ClearKeeps(t, dp, k);
    EmptyCount(t, dp, k);
    assert EntryOk(t, dp, k) && CountOk(t, dp) && DirOk(t, ip);
    ParentStays(t, dp, k);
    UnlinkDirCounts(t, dp, k);
    forall j | 0 <= j < |t.nodes| ensures DirOk(r, j) { UnlinkDirOk(t, dp, k, j); }
    forall j, m | 0 <= j < |r.nodes| && 0 <= m < |r.nodes[j].ents|
      ensures EntryOk(r, j, m)
    {
      assert EntryOk(t, j, m);
      if Linked(t.nodes[j]) && m >= 2 && t.nodes[j].ents[m].inum == ip { EmptyNamedOnce(t, dp, k, j, m); }
    }
  }

  /** The parent keeps at least one link: its own, or ".." of the root. */
  lemma ParentStays(t: Tree, dp: nat, k: nat)
    requires Good(t) && Enabled(t, Unlink(dp, k)) && Linked(t.nodes[dp]) && t.nodes[t.nodes[dp].ents[k].inum].kind.DirNode? && k >= 2
    ensures t.nodes[dp].nlink >= 2
  {
    var ip := t.nodes[dp].ents[k].inum;
    EmptyCount(t, dp, k);
    assert EntryOk(t, dp, k) && CountOk(t, dp) && DirOk(t, dp) && DirOk(t, ip);
    var p, s := Parent(t.nodes[dp]), if dp == ROOTINO then 1 else t.spot[dp];
    var gone := Node(NoNode, 0, []);
    EmptyShare(t, ip, dp);
    TotalUpdate(t.nodes, ip, gone, dp);
    assert EntryOk(t, p, s);
    TotalSome(t.nodes[ip := gone], p, s);
  }

  lemma UnlinkDirCounts(t: Tree, dp: nat, k: nat)
    requires Good(t) && Enabled(t, Unlink(dp, k)) && Linked(t.nodes[dp]) && t.nodes[t.nodes[dp].ents[k].inum].kind.DirNode? && k >= 2
    requires t.nodes[dp].nlink >= 2
    ensures forall i :: 0 <= i < |t.nodes| ==> CountOk(Next(t, Unlink(dp, k)), i)
  {
    var ip, r := t.nodes[dp].ents[k].inum, Next(t, Unlink(dp, k));
    ClearKeeps(t, dp, k);
    EmptyCount(t, dp, k);
    var mid := t.nodes[dp := r.nodes[dp]];
    forall i | 0 <= i < |t.nodes|
      ensures CountOk(r, i)
    {
      assert CountOk(t, i);
      TotalUpdate(t.nodes, dp, r.nodes[dp], i);
      TotalUpdate(mid, ip, r.nodes[ip], i);
      if i != 0 { EmptyShare(t, ip, i); }
    }
  }

  lemma UnlinkDirOk(t: Tree, dp: nat, k: nat, j: nat)
    requires Good(t) && Enabled(t, Unlink(dp, k)) && Linked(t.nodes[dp]) && t.nodes[t.nodes[dp].ents[k].inum].kind.DirNode? && k >= 2
    requires t.nodes[dp].nlink >= 2 && j < |t.nodes|
    ensures DirOk(Next(t, Unlink(dp, k)), j)
  {
    var ip, r := t.nodes[dp].ents[k].inum, Next(t, Unlink(dp, k));
    ClearKeeps(t, dp, k);
    EmptyCount(t, dp, k);
    assert DirOk(t, j) && DirOk(t, dp);
    if Linked(t.nodes[j]) && Parent(t.nodes[j]) == ip { EmptyNamedOnce(t, dp, k, j, 1); }
  }

  lemma CreateGood(t: Tree, dp: nat, name: seq<Byte>, ip: nat, dir: bool)
    requires Good(t) && Enabled(t, Create(dp, name, ip, dir)) && Linked(t.nodes[dp])
    ensures Good(Next(t, Create(dp, name, ip, dir)))
  {
    var e := Dirent(ip, name);
    var r := Next(t, Create(dp, name, ip, dir));
    PutKeeps(t, dp, e);
    CreateCounts(t, dp, name, ip, dir);
    assert CountOk(t, ip);
    forall j | 0 <= j < |t.nodes| ensures DirOk(r, j) { CreateDirOk(t, dp, name, ip, dir, j); }
    forall j, k | 0 <= j < |r.nodes| && 0 <= k < |r.nodes[j].ents|
      ensures EntryOk(r, j, k)
    {
      if j != ip && (j != dp || k != FirstFree(t.nodes[dp].ents)) { assert EntryOk(t, j, k); }
    }
  }

  lemma CreateDirOk(t: Tree, dp: nat, name: seq<Byte>, ip: nat, dir: bool, j: nat)
    requires Good(t) && Enabled(t, Create(dp, name, ip, dir)) && Linked(t.nodes[dp]) && j < |t.nodes|
    ensures DirOk(Next(t, Create(dp, name, ip, dir)), j)
  {
    var r := Next(t, Create(dp, name, ip, dir));
    PutKeeps(t, dp, Dirent(ip, name));
    assert CountOk(t, ip) && CountOk(t, 0) && DirOk(t, dp) && DirOk(t, j);
    if j == ip {
      assert |DOT| != |DOTDOT|;
    } else if Linked(t.nodes[j]) {
      var p := Parent(t.nodes[j]);
      assert p != ip && r.nodes[j].ents[1] == t.nodes[j].ents[1];
      assert j != ROOTINO ==> r.nodes[p].ents[t.spot[j]] == t.nodes[p].ents[t.spot[j]];
    }
  }

  lemma CreateCounts(t: Tree, dp: nat, name: seq<Byte>, ip: nat, dir: bool)
    requires Good(t) && Enabled(t, Create(dp, name, ip, dir)) && Linked(t.nodes[dp])
    ensures forall i :: 0 <= i < |t.nodes| ==> CountOk(Next(t, Create(dp, name, ip, dir)), i)
  {
    var r := Next(t, Create(dp, name, ip, dir));
    PutKeeps(t, dp, Dirent(ip, name));
    var mid := t.nodes[ip := r.nodes[ip]];
    assert CountOk(t, ip) && CountOk(t, 0);
    forall i | 0 <= i < |t.nodes|
      ensures CountOk(r, i)
    {
      assert CountOk(t, i);
      TotalUpdate(t.nodes, ip, r.nodes[ip], i);
      TotalUpdate(mid, dp, r.nodes[dp], i);
      assert Tally([Dirent(ip, DOT), Dirent(dp, DOTDOT)], i) == if i == dp then 1 else 0 by {
        TallyAppend([Dirent(ip, DOT)], Dirent(dp, DOTDOT), i);
      }
    }
  }

  lemma StepGood(t: Tree, s: Step)
    requires Good(t) && Enabled(t, s) && Proper(t, s)
    ensures Good(Next(t, s))
  {
    match s
    case LinkStart(ip) => FileCount(t, ip, 1);
    case LinkDone(ip, dp, name) => LinkDoneGood(t, ip, dp, name);
    case LinkFail(ip) =>
      assert CountOk(t, ip);
      FileCount(t, ip, -1);
    case Unlink(dp, k) => if t.nodes[t.nodes[dp].ents[k].inum].kind.DirNode? { UnlinkDirGood(t, dp, k); } else { UnlinkFileGood(t, dp, k); }
    case Create(dp, name, ip, dir) => CreateGood(t, dp, name, ip, dir);
    case Reclaim(ip) => ReclaimGood(t, ip);
  }

  // ---------------------------------------------------------------- whole runs

  ghost predicate Run(t: Tree, steps: seq<Step>)
    requires Sized(t)
    decreases |steps|
  {
    steps == [] || (Enabled(t, steps[0]) && Run(Next(t, steps[0]), steps[1..]))
  }

  /** Every directory written along the run is linked when it is written. */
  ghost predicate ProperRun(t: Tree, steps: seq<Step>)
    requires Sized(t) && Run(t, steps)
    decreases |steps|
  {
    steps == [] || (Proper(t, steps[0]) && ProperRun(Next(t, steps[0]), steps[1..]))
  }

  ghost function Exec(t: Tree, steps: seq<Step>): (r: Tree)
    requires Sized(t) && Run(t, steps)
    ensures Sized(r)
    decreases |steps|
  {
    if steps == [] then t else Exec(Next(t, steps[0]), steps[1..])
  }

  /** Link counts are right at the end of every such run, rolled-back links included. */
  lemma {:induction false} RunGood(t: Tree, steps: seq<Step>)
    requires Good(t) && Run(t, steps) && ProperRun(t, steps)
    ensures Good(Exec(t, steps))
    decreases |steps|
  {
    if steps != [] {
      StepGood(t, steps[0]);
      RunGood(Next(t, steps[0]), steps[1..]);
    }
  }

  /** A tree as mkfs leaves it: the root alone, its dots both naming itself. */
  function Mkfs(n: nat): (t: Tree)
    requires n > ROOTINO
  {
    var root := Node(DirNode, 1, [Dirent(ROOTINO, DOT), Dirent(ROOTINO, DOTDOT)]);
    Tree(seq(n, i => if i == ROOTINO then root else Node(NoNode, 0, [])), seq(n, _ => 0), seq(n, _ => 0))
  }

  lemma MkfsGood(n: nat)
    requires n > ROOTINO
    ensures Good(Mkfs(n))
  {
    var t := Mkfs(n);
    var root := t.nodes[ROOTINO];
    TallyAppend([Dirent(ROOTINO, DOT)], Dirent(ROOTINO, DOTDOT), ROOTINO);
    assert [Dirent(ROOTINO, DOT)] + [Dirent(ROOTINO, DOTDOT)] == root.ents;
    TotalOne(t.nodes, ROOTINO, ROOTINO);
    forall i | 0 <= i < n
      ensures CountOk(t, i)
    {
      if i != ROOTINO {
        TallyNone(root.ents, i);
        TotalNone(t.nodes, i);
      }
    }
    assert |DOT| != |DOTDOT|;
    assert forall j :: 0 <= j < n ==> DirOk(t, j);
  }

  /**
   The code does not look at the link count of the directory it writes. A file created in a
   directory has a right count if and only if that directory is still linked.
   */
  lemma CreateExact(t: Tree, dp: nat, name: seq<Byte>, ip: nat)
    requires Good(t) && Enabled(t, Create(dp, name, ip, false))
    ensures CountOk(Next(t, Create(dp, name, ip, false)), ip) <==> Linked(t.nodes[dp])
  {
    var r := Next(t, Create(dp, name, ip, false));
    if Linked(t.nodes[dp]) {
      CreateCounts(t, dp, name, ip, false);
    } else {
      assert CountOk(t, ip);
      TotalUpdate(t.nodes, ip, r.nodes[ip], ip);
      TotalUpdate(t.nodes[ip := r.nodes[ip]], dp, r.nodes[dp], ip);
    }
  }

  /** A directory that is not linked has link count 0 and is named in no linked directory. */
  lemma NotNamed(t: Tree, dp: nat)
    requires Good(t) && dp < |t.nodes| && t.nodes[dp].kind.DirNode? && !Linked(t.nodes[dp])
    ensures dp > 0 && dp != ROOTINO && t.nodes[dp].nlink == 0 == Total(t.nodes, dp)
    ensures forall j, k :: 0 <= j < |t.nodes| && Linked(t.nodes[j]) && 1 <= k < |t.nodes[j].ents| ==> t.nodes[j].ents[k].inum != dp
  {
    assert CountOk(t, dp);
    forall j, k | 0 <= j < |t.nodes| && Linked(t.nodes[j]) && 1 <= k < |t.nodes[j].ents|
      ensures t.nodes[j].ents[k].inum != dp
    {
      if t.nodes[j].ents[k].inum == dp { TotalSome(t.nodes, j, k); }
    }
  }

  /** A link made in a removed directory is counted and not found. */
  lemma LinkAstray(t: Tree, ip: nat, dp: nat, name: seq<Byte>)
    requires Good(t) && Enabled(t, LinkDone(ip, dp, name)) && !Linked(t.nodes[dp])
    ensures !Good(Next(t, LinkDone(ip, dp, name)))
  {
    var r := Next(t, LinkDone(ip, dp, name));
    assert CountOk(t, ip);
    TotalUpdate(t.nodes, dp, r.nodes[dp], ip);
    assert !CountOk(r, ip);
  }

  /** An entry taken out of a removed directory was not counted, but the count goes down. */
  lemma UnlinkAstray(t: Tree, dp: nat, k: nat)
    requires Good(t) && Enabled(t, Unlink(dp, k)) && !Linked(t.nodes[dp])
    ensures !Good(Next(t, Unlink(dp, k)))
  {
    var r, ip := Next(t, Unlink(dp, k)), t.nodes[dp].ents[k].inum;
    NotNamed(t, dp);
    assert CountOk(t, ip) && ip != dp;
    var ns := t.nodes[dp := r.nodes[dp]];
    TotalUpdate(t.nodes, dp, r.nodes[dp], ip);
    TotalUpdate(ns, ip, r.nodes[ip], ip);
    if Linked(t.nodes[ip]) && !Linked(r.nodes[ip]) && ip != ROOTINO {
      assert DirOk(t, ip);
      EmptyTally(t, ip);
    }
    assert ip != ROOTINO ==> !CountOk(r, ip);
    if ip == ROOTINO && Linked(r.nodes[ip]) { assert !CountOk(r, ip); }
  }

  /** A live entry of a linked directory names an inode with a link. */
  lemma EntryInUse(t: Tree, dp: nat, k: nat)
    requires Good(t) && dp < |t.nodes| && t.nodes[dp].kind.DirNode? && k < |t.nodes[dp].ents| && Plain(t.nodes[dp].ents[k].name)
    requires 0 < t.nodes[dp].ents[k].inum < |t.nodes|
    ensures Linked(t.nodes[dp]) ==> t.nodes[t.nodes[dp].ents[k].inum].nlink >= 1
  {
    if Linked(t.nodes[dp]) {
      assert DirOk(t, dp) && CountOk(t, t.nodes[dp].ents[k].inum);
      TotalSome(t.nodes, dp, k);
    }
  }

  /** An empty directory other than the root does not count itself. */
  lemma EmptyTally(t: Tree, ip: nat)
    requires Good(t) && ROOTINO != ip < |t.nodes| && Linked(t.nodes[ip]) && Empty(t.nodes[ip]) && ip > 0
    ensures Tally(t.nodes[ip].ents, ip) == 0
  {
    assert DirOk(t, ip);
    var es, p := t.nodes[ip].ents, Parent(t.nodes[ip]);
    assert p != ip by { assert 2 <= t.spot[ip] < |t.nodes[p].ents| && t.nodes[p].ents[t.spot[ip]].inum == ip; }
    TallyNone(es, ip);
  }

  /** A directory made in a removed one brings that back to life, listed nowhere. */
  lemma MkdirAstray(t: Tree, dp: nat, name: seq<Byte>, ip: nat)
    requires Good(t) && Enabled(t, Create(dp, name, ip, true)) && !Linked(t.nodes[dp])
    ensures !Good(Next(t, Create(dp, name, ip, true)))
  {
    var r := Next(t, Create(dp, name, ip, true));
    NotNamed(t, dp);
    assert ip != dp && r.spot[dp] == t.spot[dp];
    if DirOk(r, dp) {
      var p, k := Parent(r.nodes[dp]), r.spot[dp];
      assert p == dp && 2 <= k < |r.nodes[dp].ents| && r.nodes[dp].ents[k].inum == dp;
      SelfNamed(r.nodes, dp, k);
      assert !CountOk(r, dp);
    }
  }

  /** A linked directory that names itself twice over has at least two links. */
  lemma SelfNamed(ns: seq<Node>, dp: nat, k: nat)
    requires 0 < dp < |ns| && Linked(ns[dp]) && 2 <= k < |ns[dp].ents| && ns[dp].ents[k].inum == dp == ns[dp].ents[1].inum
    ensures Total(ns, dp) >= 2
  {
    var es := ns[dp].ents;
    TallyClear(es, k, dp);
    TallyClear(Clear(es, k), 1, dp);
    TotalUpdate(ns, dp, Node(NoNode, 0, []), dp);
  }

  /**
   The code does not look at the link count of the directory it writes. A step keeps the counts and
   the tree right if and only if that directory is still linked.
   */
  lemma StepExact(t: Tree, s: Step)
    requires Good(t) && Enabled(t, s)
    ensures Good(Next(t, s)) <==> Proper(t, s)
  {
    if Proper(t, s) {
      StepGood(t, s);
    } else {
      match s
      case LinkDone(ip, dp, name) => LinkAstray(t, ip, dp, name);
      case Unlink(dp, k) => UnlinkAstray(t, dp, k);
      case Create(dp, name, ip, dir) => if dir { MkdirAstray(t, dp, name, ip); } else { CreateExact(t, dp, name, ip); }
    }
  }

  /** Counts and tree are right at every moment of the run. */
  ghost predicate AlwaysGood(t: Tree, steps: seq<Step>)
    requires Sized(t) && Run(t, steps)
    decreases |steps|
  {
    Good(t) && (steps == [] || AlwaysGood(Next(t, steps[0]), steps[1..]))
  }

  /** And of a whole run: they are right all the time if and only if only linked directories are written. */
  lemma {:induction false} RunExact(t: Tree, steps: seq<Step>)
    requires Good(t) && Run(t, steps)
    ensures AlwaysGood(t, steps) <==> ProperRun(t, steps)
    decreases |steps|
  {
    if steps != [] {
      StepExact(t, steps[0]);
      if Proper(t, steps[0]) { RunExact(Next(t, steps[0]), steps[1..]); }
    }
  }

  lemma TwoSteps(t: Tree, a: Step, b: Step)
    requires Sized(t) && Enabled(t, a) && Enabled(Next(t, a), b)
    ensures Run(t, [a, b]) && Exec(t, [a, b]) == Next(Next(t, a), b)
  {
    var u := Next(t, a);
    assert [a, b][1..] == [b];
    assert Run(u, [b]) && Exec(u, [b]) == Next(u, b);
  }

  /** A directory made, removed while someone is still in it, and then written. */
  function Orphaning(t: Tree, dp: nat, a: nat, b: nat, name: seq<Byte>, other: seq<Byte>): (steps: seq<Step>)
    requires dp < |t.nodes|
  {
    [Create(dp, name, a, true), Unlink(dp, FirstFree(t.nodes[dp].ents)), Create(a, other, b, false)]
  }

  /** It can happen in every tree with two free inodes, and leaves a file that no linked directory names. */
  lemma OrphanWrite(t: Tree, dp: nat, a: nat, b: nat, name: seq<Byte>, other: seq<Byte>)
    requires Good(t) && dp < |t.nodes| && Linked(t.nodes[dp]) && Find(t.nodes[dp].ents, name) == 0 && Plain(name) && Plain(other)
    requires 0 < a < |t.nodes| && 0 < b < |t.nodes| && a != b && t.nodes[a].kind.NoNode? && t.nodes[b].kind.NoNode?
    ensures var steps := Orphaning(t, dp, a, b, name, other);
      Run(t, steps) && b < |Exec(t, steps).nodes| && !CountOk(Exec(t, steps), b)
  {
    var k := FirstFree(t.nodes[dp].ents);
    var s0, s1, s2 := Create(dp, name, a, true), Unlink(dp, k), Create(a, other, b, false);
    var t1 := Next(t, s0);
    PutKeeps(t, dp, Dirent(a, name));
    StepGood(t, s0);
    var t2 := Next(t1, s1);
    EmptyCount(t1, dp, k);
    StepGood(t1, s1);
    assert Enabled(t2, s2) by { LookupIs(t2.nodes[a].ents, other, 2); }
    CreateExact(t2, a, other, b);
    TwoSteps(t1, s1, s2);
    assert [s0, s1, s2][1..] == [s1, s2];
  }

  // ---------------------------------------------------------------- what each call means for names and counts

  function If(b: bool): (n: int) {
    if b then 1 else 0
  }

  /** What link asks for. */
  ghost predicate CanLink(t: Tree, ip: nat, dp: nat, name: seq<Byte>) {
    && Sized(t) && ip > 0 && Enabled(t, LinkStart(ip))
    && dp < |t.nodes| && t.nodes[dp].kind.DirNode? && Find(t.nodes[dp].ents, name) == 0
  }

  /** Both steps of link. */
  ghost function AfterLink(t: Tree, ip: nat, dp: nat, name: seq<Byte>): (r: Tree)
    requires CanLink(t, ip, dp, name)
    ensures Sized(r)
  {
    Next(Next(t, LinkStart(ip)), LinkDone(ip, dp, name))
  }

  /** link: the directory has the new name for the file, the file one more link, and nothing else is different. */
  lemma LinkMeans(t: Tree, ip: nat, dp: nat, name: seq<Byte>, j: nat, n: seq<Byte>)
    requires CanLink(t, ip, dp, name) && j < |t.nodes|
    ensures var r := AfterLink(t, ip, dp, name);
      && r.pending == t.pending && r.spot == t.spot && |r.nodes| == |t.nodes|
      && r.nodes[j].kind == t.nodes[j].kind && r.nodes[j].nlink == t.nodes[j].nlink + If(j == ip)
      && Find(r.nodes[j].ents, n) == if j == dp && n == name then ip else Find(t.nodes[j].ents, n)
  {
    PutIsUpdate(t.nodes[dp].ents, Dirent(ip, name), n);
  }

  /** unlink: the name is gone from the directory; the inode has one link less, and the directory too if it was one. */
  lemma UnlinkMeans(t: Tree, dp: nat, k: nat, j: nat, n: seq<Byte>)
    requires Sized(t) && Enabled(t, Unlink(dp, k)) && Unique(t.nodes[dp].ents) && j < |t.nodes|
    ensures var r, e := Next(t, Unlink(dp, k)), t.nodes[dp].ents[k];
      && r.pending == t.pending && r.spot == t.spot && |r.nodes| == |t.nodes| && r.nodes[j].kind == t.nodes[j].kind
      && r.nodes[j].nlink == t.nodes[j].nlink - If(j == e.inum) - If(j == dp && t.nodes[e.inum].kind.DirNode?)
      && Find(r.nodes[j].ents, n) == if j == dp && n == e.name then 0 else Find(t.nodes[j].ents, n)
  {
    ClearIsRemove(t.nodes[dp].ents, k, n);
  }

  /** create: a new inode with one link, under that name; a new directory has its dots and gives its parent a link. */
  lemma CreateMeans(t: Tree, dp: nat, name: seq<Byte>, ip: nat, dir: bool, j: nat, n: seq<Byte>)
    requires Sized(t) && Enabled(t, Create(dp, name, ip, dir)) && j < |t.nodes|
    ensures var r := Next(t, Create(dp, name, ip, dir));
      && r.pending == t.pending && |r.nodes| == |t.nodes|
      && r.nodes[j].kind == (if j != ip then t.nodes[j].kind else if dir then DirNode else FileNode)
      && r.nodes[j].nlink == (if j == ip then 1 else t.nodes[j].nlink + If(j == dp && dir))
      && Find(r.nodes[j].ents, n) ==
         if j == ip then if !dir then 0 else if n == DOT then ip else if n == DOTDOT then dp else 0
         else if j == dp && n == name then ip else Find(t.nodes[j].ents, n)
  {
    PutIsUpdate(t.nodes[dp].ents, Dirent(ip, name), n);
    var dots := [Dirent(ip, DOT), Dirent(dp, DOTDOT)];
    LookupIs(dots, n, if n == DOT then 0 else if n == DOTDOT && dp != 0 then 1 else 2);
  }

  /** unlink of a name just linked leaves every count and every name as before. */
  lemma LinkUnlink(t: Tree, ip: nat, dp: nat, name: seq<Byte>, j: nat, n: seq<Byte>)
    requires CanLink(t, ip, dp, name) && Plain(name) && Unique(t.nodes[dp].ents) && t.nodes[ip].nlink >= 0 && j < |t.nodes|
    ensures var v := AfterLink(t, ip, dp, name); Enabled(v, Unlink(dp, Lookup(v.nodes[dp].ents, name)))
    ensures var v := AfterLink(t, ip, dp, name); var r := Next(v, Unlink(dp, Lookup(v.nodes[dp].ents, name)));
      && |r.nodes| == |t.nodes| && r.nodes[j].kind == t.nodes[j].kind && r.nodes[j].nlink == t.nodes[j].nlink
      && Find(r.nodes[j].ents, n) == Find(t.nodes[j].ents, n)
  {
    LinkMeans(t, ip, dp, name, j, n);
    LinkMeans(t, ip, dp, name, dp, name);
    PutIsUpdate(t.nodes[dp].ents, Dirent(ip, name), name);
    var v := AfterLink(t, ip, dp, name);
    var k := Lookup(v.nodes[dp].ents, name);
    assert v.nodes[dp].ents[k] == Dirent(ip, name);
    UnlinkMeans(v, dp, k, j, n);
  }

  // ---------------------------------------------------------------- the system calls

  predicate InRange(ns: seq<Node>) {
    forall j, k :: 0 <= j < |ns| && 0 <= k < |ns[j].ents| ==> ns[j].ents[k].inum < |ns|
  }

  lemma StaysInRange(t: Tree, s: Step)
    requires Sized(t) && InRange(t.nodes) && Enabled(t, s)
    ensures InRange(Next(t, s).nodes)
  {
  }

  /** The inode table as sysfile.c updates it; directories by their entries. */
  class InodeTable {
    const nodes: array<Node>
    ghost var pending: seq<nat>
    ghost var spot: seq<nat>

    ghost function Abs(): (t: Tree)
      reads this, nodes
    {
      Tree(nodes[..], pending, spot)
    }

    /** The tree is right, and all entries, those of removed directories too, name inodes there are. */
    ghost predicate Valid()
      reads this, nodes
    {
      Good(Abs()) && InRange(nodes[..])
    }

    constructor (n: nat)
      requires n > ROOTINO
      ensures Valid() && fresh(nodes) && Abs() == Mkfs(n)
    {
      var root := Node(DirNode, 1, [Dirent(ROOTINO, DOT), Dirent(ROOTINO, DOTDOT)]);
      nodes := new Node[n](i => if i == ROOTINO then root else Node(NoNode, 0, []));
      pending, spot := seq(n, _ => 0), seq(n, _ => 0);
      new;
      MkfsGood(n);
      assert nodes[..] == Mkfs(n).nodes;
    }

    /**
     sys_link: the count goes up first and comes down again if the new name cannot be made. `dp` is
     what nameiparent found, -1 if nothing.
     */
    method Link(ip: nat, dp: int, name: seq<Byte>) returns (r: int)
      requires Valid() && ip < nodes.Length && !nodes[ip].kind.NoNode?
      requires -1 <= dp < nodes.Length && (dp >= 0 ==> nodes[dp].kind.DirNode?)
      modifies this`pending, nodes
      ensures InRange(nodes[..]) && (r == 0 || r == -1)
      ensures r == 0 <==> old(nodes[ip].kind.FileNode?) && dp >= 0 && Find(old(nodes[dp].ents), name) == 0
      ensures Good(Abs()) <==> r == -1 || Linked(old(nodes[dp]))
      ensures r == -1 ==> Abs() == old(Abs())
      ensures r == 0 ==> Abs() == Exec(old(Abs()), [LinkStart(ip), LinkDone(ip, dp, name)])
    {
      ghost var t := Abs();
      if nodes[ip].kind.DirNode? {
        return -1;
      }
      StepGood(t, LinkStart(ip));
      ghost var u := Next(t, LinkStart(ip));
      nodes[ip] := More(nodes[ip], 1);
      pending := pending[ip := pending[ip] + 1];
      assert Abs() == u;
      if dp >= 0 && Find(nodes[dp].ents, name) == 0 {
        StepExact(u, LinkDone(ip, dp, name));
        nodes[dp] := Added(nodes[dp], Dirent(ip, name));
        pending := pending[ip := pending[ip] - 1];
        assert Abs() == Next(u, LinkDone(ip, dp, name));
        TwoSteps(t, LinkStart(ip), LinkDone(ip, dp, name));
        return 0;
      }
      nodes[ip] := More(nodes[ip], -1);
      pending := pending[ip := pending[ip] - 1];
      assert nodes[..] == t.nodes && pending == t.pending;
      return -1;
    }

    /** sys_unlink of `name` in directory `dp`; the panic on a count below one needs a directory that is not linked. */
    method Unlink(dp: nat, name: seq<Byte>) returns (r: int, panicked: bool)
      requires Valid() && dp < nodes.Length && nodes[dp].kind.DirNode?
      modifies nodes
      ensures InRange(nodes[..]) && (r == 0 || r == -1)
      ensures r == -1 || panicked ==> Abs() == old(Abs())
      ensures var t := old(Abs()); var k := Lookup(t.nodes[dp].ents, name);
        && (r == 0 && !panicked <==> Plain(name) && k < |t.nodes[dp].ents| && Enabled(t, Step.Unlink(dp, k)))
        && (panicked <==> Plain(name) && k < |t.nodes[dp].ents| && t.nodes[t.nodes[dp].ents[k].inum].nlink < 1)
      ensures r == 0 && !panicked ==> Abs() == Next(old(Abs()), Step.Unlink(dp, Lookup(old(nodes[dp].ents), name)))
      ensures r == 0 && !panicked ==> (Good(Abs()) <==> Linked(old(nodes[dp])))
      ensures Linked(old(nodes[dp])) ==> !panicked
    {
      ghost var t := Abs();
      if name == DOT || name == DOTDOT {
        return -1, false;
      }
      var k := Lookup(nodes[dp].ents, name);
      if k == |nodes[dp].ents| {
        return -1, false;
      }
      var ip := nodes[dp].ents[k].inum;
      EntryInUse(t, dp, k);
      if nodes[ip].nlink < 1 {
        return 0, true;
      }
      if nodes[ip].kind.DirNode? && !Empty(nodes[ip]) {
        return -1, false;
      }
      StepExact(t, Step.Unlink(dp, k));
      StaysInRange(t, Step.Unlink(dp, k));
      Erase(dp, k, ip);
      return 0, false;
    }

    /** The two writes of unlink. */
    method Erase(dp: nat, k: nat, ip: nat)
      requires Sized(Abs()) && Enabled(Abs(), Step.Unlink(dp, k)) && ip == nodes[dp].ents[k].inum
      modifies nodes
      ensures Abs() == Next(old(Abs()), Step.Unlink(dp, k))
    {
      ghost var t := Abs();
      nodes[dp] := nodes[dp].(ents := Clear(nodes[dp].ents, k));
      if nodes[ip].kind.DirNode? {
        nodes[dp] := More(nodes[dp], -1);
      }
      nodes[ip] := More(nodes[ip], -1);
      assert Abs() == Next(t, Step.Unlink(dp, k));
    }

    /** ialloc: the lowest free inode; panics if there is none. */
    method Ialloc() returns (ip: nat, ok: bool)
      requires nodes.Length > ROOTINO
      ensures ok <==> exists i :: 1 <= i < nodes.Length && nodes[i].kind.NoNode?
      ensures ok ==> 0 < ip < nodes.Length && nodes[ip].kind.NoNode? && forall i :: 1 <= i < ip ==> !nodes[i].kind.NoNode?
    {
      ip := 1;
      while ip < nodes.Length && !nodes[ip].kind.NoNode?
        invariant 1 <= ip <= nodes.Length && forall i :: 1 <= i < ip ==> !nodes[i].kind.NoNode?
      {
        ip := ip + 1;
      }
      ok := ip < nodes.Length;
    }

    /**
     create: the file already there if a file was asked for, 0 if the name is taken otherwise, else a
     new inode; panics exactly when one is needed and there is none.
     */
    method Create(dp: nat, name: seq<Byte>, dir: bool) returns (ip: nat, ok: bool)
      requires Valid() && dp < nodes.Length && nodes[dp].kind.DirNode?
      modifies this`spot, nodes
      ensures InRange(nodes[..]) && (!ok ==> Abs() == old(Abs()) && Find(old(nodes[dp].ents), name) == 0)
      ensures Good(Abs()) <==> !ok || Find(old(nodes[dp].ents), name) != 0 || Linked(old(nodes[dp]))
      ensures !ok <==> Find(old(nodes[dp].ents), name) == 0 && forall i :: 1 <= i < nodes.Length ==> !old(nodes[i].kind.NoNode?)
      ensures var found := Find(old(nodes[dp].ents), name);
        found != 0 ==> found < nodes.Length && Abs() == old(Abs()) && ip == if !dir && old(nodes[found].kind.FileNode?) then found else 0
      ensures ok && Find(old(nodes[dp].ents), name) == 0 ==> 0 < ip < nodes.Length && old(nodes[ip].kind.NoNode?)
      ensures ok && Find(old(nodes[dp].ents), name) == 0 ==> Abs() == Next(old(Abs()), Step.Create(dp, name, ip, dir))
    {
      ghost var t := Abs();
      var found := Find(nodes[dp].ents, name);
      if found != 0 {
        return if !dir && nodes[found].kind.FileNode? then found else 0, true;
      }
      ip, ok := Ialloc();
      if !ok {
        return;
      }
      StepExact(t, Step.Create(dp, name, ip, dir));
      StaysInRange(t, Step.Create(dp, name, ip, dir));
      MakeNode(dp, name, ip, dir);
    }

    /** create once it has its inode. */
    method MakeNode(dp: nat, name: seq<Byte>, ip: nat, dir: bool)
      requires Sized(Abs()) && Enabled(Abs(), Step.Create(dp, name, ip, dir))
      modifies this`spot, nodes
      ensures Abs() == Next(old(Abs()), Step.Create(dp, name, ip, dir))
    {
      ghost var t := Abs();
      spot := spot[ip := FirstFree(nodes[dp].ents)];
      nodes[ip] := Node(if dir then DirNode else FileNode, 1, []);
      if dir {
        nodes[dp] := More(nodes[dp], 1);
        nodes[ip] := nodes[ip].(ents := [Dirent(ip, DOT), Dirent(dp, DOTDOT)]);
      }
      nodes[dp] := Added(nodes[dp], Dirent(ip, name));
      assert Abs() == Next(t, Step.Create(dp, name, ip, dir));
    }
  }
}
