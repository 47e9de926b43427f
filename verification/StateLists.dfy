/**
 The linked lists of processes: twelve singly linked lists with head and tail pointers over one
 array of next links. A process is its index in the table; NULL is -1. The ghost field `lists`
 holds the lists as sequences.
 */
module StateLists {
  import opened Sealing

  const NPROC: nat := 64
  const MAXPRIO: nat := 6
  const NULL: int := -1

  // Lists 0..MAXPRIO are the ready lists by level.
  const FREE: nat := 7
  const SLEEP: nat := 8
  const ZOMBIES: nat := 9
  const RUN: nat := 10
  const EMBRYOS: nat := 11
  const NLISTS: nat := 12

  predicate Distinct(s: seq<nat>) {
    forall i, j :: 0 <= i < j < |s| ==> s[i] != s[j]
  }

  /** `s` is the list that starts at `h`, ends at `t` and follows `next` between. */
  predicate ListOk(s: seq<nat>, h: int, t: int, next: seq<int>) {
    && (forall k :: 0 <= k < |s| ==> s[k] < |next|) && Distinct(s)
    && (s == [] ==> h == NULL && t == NULL)
    && (s != [] ==> h == s[0] && t == s[|s| - 1] && next[t] == NULL)
    && (forall k :: 0 <= k < |s| - 1 ==> next[s[k]] == s[k + 1])
  }

  function Without(s: seq<nat>, k: nat): (r: seq<nat>)
    requires k < |s|
  {
    s[..k] + s[k + 1..]
  }

  /** The list without process `p`. */
  function Remove(s: seq<nat>, p: nat): (r: seq<nat>) {
    if s == [] then [] else if s[0] == p then s[1..] else [s[0]] + Remove(s[1..], p)
  }

  lemma {:induction false} RemoveAt(s: seq<nat>, k: nat)
    requires Distinct(s) && k < |s|
    ensures Remove(s, s[k]) == Without(s, k)
  {
    if k > 0 {
      RemoveAt(s[1..], k - 1);
      assert Without(s, k) == [s[0]] + Without(s[1..], k - 1);
    }
  }

  lemma {:induction false} RemoveMember(s: seq<nat>, p: nat, q: nat)
    requires Distinct(s)
    ensures q in Remove(s, p) <==> q in s && q != p
  {
    if s != [] {
      RemoveMember(s[1..], p, q);
      assert s == [s[0]] + s[1..];
    }
  }

  lemma ConsDistinct(x: nat, r: seq<nat>)
    requires x !in r && Distinct(r)
    ensures Distinct([x] + r)
  {
    assert forall i :: 0 <= i < |r| ==> r[i] in r;
  }

  lemma {:induction false} RemoveDistinct(s: seq<nat>, p: nat)
    requires Distinct(s)
    ensures Distinct(Remove(s, p))
  {
    if s != [] && s[0] != p {
      RemoveDistinct(s[1..], p);
      RemoveMember(s[1..], p, s[0]);
      ConsDistinct(s[0], Remove(s[1..], p));
    }
  }

  /** Removing changes the membership of `p` alone and keeps the order of the rest. */
  lemma RemoveMembers(s: seq<nat>, p: nat)
    requires Distinct(s)
    ensures Distinct(Remove(s, p)) && forall q: nat :: q in Remove(s, p) <==> q in s && q != p
  {
    RemoveDistinct(s, p);
    forall q: nat ensures q in Remove(s, p) <==> q in s && q != p { RemoveMember(s, p, q); }
  }

  lemma WithoutAt(s: seq<nat>, k: nat, i: nat)
    requires k < |s| && i < |s| - 1
    ensures Without(s, k)[i] == if i < k then s[i] else s[i + 1]
  {
  }

  lemma AppendOk(s: seq<nat>, h: int, t: int, next: seq<int>, p: nat)
    requires ListOk(s, h, t, next) && p < |next| && p !in s
    ensures s == [] ==> ListOk([p], p, p, next[p := NULL])
    ensures s != [] ==> 0 <= t < |next| && ListOk(s + [p], h, p, next[t := p][p := NULL])
  {
    assert forall k :: 0 <= k < |s| ==> s[k] in s;
  }

  lemma PrependOk(s: seq<nat>, h: int, t: int, next: seq<int>, p: nat)
    requires ListOk(s, h, t, next) && s != [] && p < |next| && p !in s
    ensures ListOk([p] + s, p, t, next[p := h])
  {
    assert forall k :: 0 <= k < |s| ==> s[k] in s;
  }

  lemma DropHeadOk(s: seq<nat>, h: int, t: int, next: seq<int>)
    requires ListOk(s, h, t, next) && s != []
    ensures ListOk(s[1..], next[s[0]], if t == s[0] then NULL else t, next)
  {
    assert |s| > 1 ==> next[s[0]] == s[1];
  }

  /** Unlinking element k > 0: the tail is pulled back if it was the last one. */
  lemma UnlinkOk(s: seq<nat>, h: int, t: int, next: seq<int>, k: nat)
    requires ListOk(s, h, t, next) && 0 < k < |s|
    ensures s[k] == t <==> k == |s| - 1
    ensures k == |s| - 1 ==> ListOk(Without(s, k), h, s[k - 1], next[s[k - 1] := NULL][s[k] := NULL])
    ensures k < |s| - 1 ==> ListOk(Without(s, k), h, t, next[s[k - 1] := next[s[k]]][s[k] := NULL])
  {
    var r := Without(s, k);
    forall i | 0 <= i < |r| ensures r[i] == if i < k then s[i] else s[i + 1] { WithoutAt(s, k, i); }
    var n := if k == |s| - 1 then next[s[k - 1] := NULL][s[k] := NULL] else next[s[k - 1] := next[s[k]]][s[k] := NULL];
    forall i | 0 <= i < |r| - 1
      ensures n[r[i]] == r[i + 1]
    {
      if i < k - 1 { assert s[i] != s[k - 1] && s[i] != s[k]; }
      if i >= k { assert s[i + 1] != s[k - 1] && s[i + 1] != s[k]; }
    }
  }

  // ---------------------------------------------------------------- all lists together

  predicate Apart(s: seq<nat>, t: seq<nat>) {
    forall p :: p in s ==> p !in t
  }

  predicate Disjoint(lists: seq<seq<nat>>) {
    forall l: nat, m: nat :: l < |lists| && m < |lists| && l != m ==> Apart(lists[l], lists[m])
  }

  ghost predicate AllOk(lists: seq<seq<nat>>, head: seq<int>, tail: seq<int>, next: seq<int>) {
    && |lists| == |head| == |tail|
    && (forall l :: 0 <= l < |lists| ==> ListOk(lists[l], head[l], tail[l], next))
    && Disjoint(lists)
  }

  /** One list changed, with links touched only inside it or at a process that is on no other list. */
  lemma Splice(lists: seq<seq<nat>>, head: seq<int>, tail: seq<int>, next: seq<int>,
               l: nat, s: seq<nat>, h: int, t: int, next': seq<int>)
    requires AllOk(lists, head, tail, next) && l < |lists| && |next'| == |next| && ListOk(s, h, t, next')
    requires forall m, x :: 0 <= m < |lists| && m != l && x in lists[m] ==> x !in s && x < |next| && next'[x] == next[x]
    ensures AllOk(lists[l := s], head[l := h], tail[l := t], next')
  {
    var lists', head', tail' := lists[l := s], head[l := h], tail[l := t];
    forall m | 0 <= m < |lists'|
      ensures ListOk(lists'[m], head'[m], tail'[m], next')
    {
      if m != l {
        var q := lists[m];
        assert forall k :: 0 <= k < |q| ==> q[k] in q && next'[q[k]] == next[q[k]];
      }
    }
  }

  predicate Absent(lists: seq<seq<nat>>, p: nat) {
    forall m :: 0 <= m < |lists| ==> p !in lists[m]
  }

  /** Members of other lists are in range and not on this one. */
  lemma Elsewhere(lists: seq<seq<nat>>, head: seq<int>, tail: seq<int>, next: seq<int>, l: nat, m: nat, x: nat)
    requires AllOk(lists, head, tail, next) && l < |lists| && m < |lists| && x in lists[m]
    ensures x < |next| && (m != l ==> x !in lists[l])
  {
    assert ListOk(lists[m], head[m], tail[m], next);
    assert m != l ==> Apart(lists[m], lists[l]);
  }

  /** The effect of stateListAdd on the pointers. */
  lemma AddOk(lists: seq<seq<nat>>, head: seq<int>, tail: seq<int>, next: seq<int>, l: nat, p: nat)
    requires AllOk(lists, head, tail, next) && l < |lists| && p < |next| && Absent(lists, p)
    ensures head[l] == NULL <==> lists[l] == []
    ensures head[l] == NULL ==> AllOk(lists[l := lists[l] + [p]], head[l := p], tail[l := p], next[p := NULL])
    ensures head[l] != NULL ==> 0 <= tail[l] < |next|
    ensures head[l] != NULL ==> AllOk(lists[l := lists[l] + [p]], head, tail[l := p], next[tail[l] := p][p := NULL])
  {
    var s := lists[l];
    AppendOk(s, head[l], tail[l], next, p);
    assert s != [] ==> s[|s| - 1] in s;
    forall m: nat, x: nat {:trigger x in lists[m]} | m < |lists| && x in lists[m]
      ensures x < |next| && (m != l ==> x !in lists[l])
    {
      Elsewhere(lists, head, tail, next, l, m, x);
    }
    if head[l] == NULL {
      Splice(lists, head, tail, next, l, [p], p, p, next[p := NULL]);
    } else {
      Splice(lists, head, tail, next, l, s + [p], head[l], p, next[tail[l] := p][p := NULL]);
      assert head[l := head[l]] == head;
    }
  }

  /** The effect of stateListAddAtHead. */
  lemma AddAtHeadOk(lists: seq<seq<nat>>, head: seq<int>, tail: seq<int>, next: seq<int>, l: nat, p: nat)
    requires AllOk(lists, head, tail, next) && l < |lists| && p < |next| && Absent(lists, p)
    ensures head[l] == NULL <==> lists[l] == []
    ensures head[l] == NULL ==> AllOk(lists[l := [p] + lists[l]], head[l := p], tail[l := p], next[p := NULL])
    ensures head[l] != NULL ==> AllOk(lists[l := [p] + lists[l]], head[l := p], tail, next[p := head[l]])
  {
    var s := lists[l];
    forall m: nat, x: nat {:trigger x in lists[m]} | m < |lists| && x in lists[m]
      ensures x < |next| && (m != l ==> x !in lists[l])
    {
      Elsewhere(lists, head, tail, next, l, m, x);
    }
    if head[l] == NULL {
      AppendOk(s, head[l], tail[l], next, p);
      Splice(lists, head, tail, next, l, [p], p, p, next[p := NULL]);
    } else {
      PrependOk(s, head[l], tail[l], next, p);
      Splice(lists, head, tail, next, l, [p] + s, p, tail[l], next[p := head[l]]);
      assert tail[l := tail[l]] == tail;
    }
  }

  /** The effect of stateListRemove when the process is first on the list. */
  lemma RemoveHeadOk(lists: seq<seq<nat>>, head: seq<int>, tail: seq<int>, next: seq<int>, l: nat)
    requires AllOk(lists, head, tail, next) && l < |lists| && lists[l] != []
    ensures 0 <= head[l] < |next|
    ensures AllOk(lists[l := lists[l][1..]], head[l := next[head[l]]],
                  if tail[l] == head[l] then tail[l := NULL] else tail, next)
  {
    var s := lists[l];
    DropHeadOk(s, head[l], tail[l], next);
    forall m: nat, x: nat {:trigger x in lists[m]} | m < |lists| && x in lists[m]
      ensures x < |next| && (m != l ==> x !in lists[l])
    {
      Elsewhere(lists, head, tail, next, l, m, x);
    }
    Splice(lists, head, tail, next, l, s[1..], next[s[0]], if tail[l] == s[0] then NULL else tail[l], next);
    assert tail[l := tail[l]] == tail;
  }

  /** The effect of stateListRemove further down the list. */
  lemma RemoveInnerOk(lists: seq<seq<nat>>, head: seq<int>, tail: seq<int>, next: seq<int>, l: nat, k: nat)
    requires AllOk(lists, head, tail, next) && l < |lists| && 0 < k < |lists[l]|
    ensures lists[l][k] < |next| && lists[l][k - 1] < |next|
    ensures var s := lists[l];
      if s[k] == tail[l] then
        AllOk(lists[l := Without(s, k)], head, tail[l := s[k - 1]], next[s[k - 1] := NULL][s[k] := NULL])
      else
        AllOk(lists[l := Without(s, k)], head, tail, next[s[k - 1] := next[s[k]]][s[k] := NULL])
  {
    var s := lists[l];
    UnlinkOk(s, head[l], tail[l], next, k);
    assert s[k] in s && s[k - 1] in s;
    forall x: nat | x in Without(s, k) ensures x in s { assert Without(s, k) == s[..k] + s[k + 1..]; }
    forall m: nat, x: nat {:trigger x in lists[m]} | m < |lists| && x in lists[m]
      ensures x < |next| && (m != l ==> x !in lists[l])
    {
      Elsewhere(lists, head, tail, next, l, m, x);
    }
    assert head[l := head[l]] == head && tail[l := tail[l]] == tail;
    if s[k] == tail[l] {
      Splice(lists, head, tail, next, l, Without(s, k), head[l], s[k - 1], next[s[k - 1] := NULL][s[k] := NULL]);
    } else {
      Splice(lists, head, tail, next, l, Without(s, k), head[l], tail[l], next[s[k - 1] := next[s[k]]][s[k] := NULL]);
    }
  }

  /** Linking one list behind another. */
  lemma ConcatOk(s: seq<nat>, h: int, t: int, s2: seq<nat>, h2: int, t2: int, next: seq<int>)
    requires ListOk(s, h, t, next) && ListOk(s2, h2, t2, next) && Apart(s, s2) && s != []
    ensures 0 <= t < |next| && ListOk(s + s2, h, if t2 != NULL then t2 else t, next[t := h2])
  {
    var r, n := s + s2, next[t := h2];
    assert forall k :: 0 <= k < |s| ==> s[k] in s;
    assert forall k :: 0 <= k < |s2| ==> s2[k] in s2;
    forall k | 0 <= k < |r| - 1
      ensures n[r[k]] == r[k + 1]
    {
    }
  }

  /** Level 1 appended to level 0, the way promoteAll starts. */
  function MergeTop(lists: seq<seq<nat>>): (r: seq<seq<nat>>)
    requires |lists| == NLISTS
  {
    lists[0 := lists[0] + lists[1]][1 := []]
  }

  /** Every level from 2 on moved up by one, the way promoteAll goes on. */
  function ShiftUp(lists: seq<seq<nat>>): (r: seq<seq<nat>>)
    requires |lists| == NLISTS
  {
    seq(NLISTS, m requires 0 <= m < NLISTS =>
      if 1 <= m < MAXPRIO then lists[m + 1] else if m == MAXPRIO then [] else lists[m])
  }

  lemma MergeEmptyOk(lists: seq<seq<nat>>, head: seq<int>, tail: seq<int>, next: seq<int>)
    requires AllOk(lists, head, tail, next) && |lists| == NLISTS && lists[0] == []
    ensures AllOk(MergeTop(lists), head[0 := head[1]][1 := NULL], tail[0 := tail[1]][1 := NULL], next)
  {
    var b := lists[1];
    assert ListOk(b, head[1], tail[1], next);
    forall m: nat, x: nat {:trigger x in lists[m]} | m < |lists| && x in lists[m]
      ensures x < |next| && (m != 1 ==> x !in b)
    {
      Elsewhere(lists, head, tail, next, 1, m, x);
    }
    Splice(lists, head, tail, next, 1, [], NULL, NULL, next);
    var l1, h1, t1 := lists[1 := []], head[1 := NULL], tail[1 := NULL];
    Splice(l1, h1, t1, next, 0, b, head[1], tail[1], next);
    assert [] + b == b;
    assert l1[0 := b] == MergeTop(lists);
    assert h1[0 := head[1]] == head[0 := head[1]][1 := NULL] && t1[0 := tail[1]] == tail[0 := tail[1]][1 := NULL];
  }

  lemma MergeFullOk(lists: seq<seq<nat>>, head: seq<int>, tail: seq<int>, next: seq<int>)
    requires AllOk(lists, head, tail, next) && |lists| == NLISTS && lists[0] != []
    ensures 0 <= tail[0] < |next|
    ensures AllOk(MergeTop(lists), head[1 := NULL], tail[0 := if tail[1] != NULL then tail[1] else tail[0]][1 := NULL],
                  next[tail[0] := head[1]])
  {
    var a, b := lists[0], lists[1];
    assert ListOk(a, head[0], tail[0], next) && ListOk(b, head[1], tail[1], next) && Apart(a, b);
    ConcatOk(a, head[0], tail[0], b, head[1], tail[1], next);
    assert a[|a| - 1] in a;
    forall m: nat, x: nat {:trigger x in lists[m]} | m < |lists| && x in lists[m]
      ensures x < |next| && (m != 1 ==> x !in b) && (m != 0 ==> x !in a)
    {
      Elsewhere(lists, head, tail, next, 1, m, x);
      Elsewhere(lists, head, tail, next, 0, m, x);
    }
    Splice(lists, head, tail, next, 1, [], NULL, NULL, next);
    var l1, h1, t1 := lists[1 := []], head[1 := NULL], tail[1 := NULL];
    var t, n := if tail[1] != NULL then tail[1] else tail[0], next[tail[0] := head[1]];
    Splice(l1, h1, t1, next, 0, a + b, head[0], t, n);
    assert l1[0 := a + b] == MergeTop(lists);
    assert h1[0 := head[0]] == head[1 := NULL] && t1[0 := t] == tail[0 := t][1 := NULL];
  }

  lemma ShiftUpOk(lists: seq<seq<nat>>, head: seq<int>, tail: seq<int>, next: seq<int>, head': seq<int>, tail': seq<int>)
    requires AllOk(lists, head, tail, next) && |lists| == NLISTS && lists[1] == []
    requires |head'| == |tail'| == NLISTS && head'[MAXPRIO] == tail'[MAXPRIO] == NULL
    requires forall m :: 1 <= m < MAXPRIO ==> head'[m] == head[m + 1] && tail'[m] == tail[m + 1]
    requires forall m :: 0 <= m < NLISTS && !(1 <= m <= MAXPRIO) ==> head'[m] == head[m] && tail'[m] == tail[m]
    ensures AllOk(ShiftUp(lists), head', tail', next)
  {
    var r := ShiftUp(lists);
    forall m | 0 <= m < |r|
      ensures ListOk(r[m], head'[m], tail'[m], next)
    {
      var k := if 1 <= m < MAXPRIO then m + 1 else m;
      assert ListOk(lists[k], head[k], tail[k], next);
    }
    forall l: nat, m: nat | l < |r| && m < |r| && l != m
      ensures Apart(r[l], r[m])
    {
      if l != MAXPRIO && m != MAXPRIO {
        assert Apart(lists[if 1 <= l < MAXPRIO then l + 1 else l], lists[if 1 <= m < MAXPRIO then m + 1 else m]);
      }
    }
  }

  class ListTable {
    const head: array<int>
    const tail: array<int>
    const next: array<int>
    ghost var lists: seq<seq<nat>>

    ghost predicate Valid()
      reads this, head, tail, next
    {
      && head.Length == tail.Length == NLISTS && next.Length == NPROC && |lists| == NLISTS
      && head != tail && head != next && tail != next
      && forall k: nat {:trigger ListOpen(k)} :: ListOpen(k) ==> AllOk(lists, head[..], tail[..], next[..])
    }

    /** initProcessLists: twelve empty lists. */
    constructor ()
      ensures Valid() && lists == seq(NLISTS, _ => [])
      ensures fresh(head) && fresh(tail) && fresh(next)
    {
      head := new int[NLISTS](_ => NULL);
      tail := new int[NLISTS](_ => NULL);
      next := new int[NPROC](_ => NULL);
      lists := seq(NLISTS, _ => []);
    }

    /** What the pointers of list `l` say: its first element, and the element after each. */
    lemma Walk(l: nat, k: nat)
      requires Valid() && l < NLISTS && k <= |lists[l]|
      ensures head[l] == (if lists[l] == [] then NULL else lists[l][0])
      ensures k < |lists[l]| ==> lists[l][k] < NPROC && next[lists[l][k]] == (if k + 1 < |lists[l]| then lists[l][k + 1] else NULL)
    {
      assert ListOpen(0);
      assert ListOk(lists[l], head[l], tail[l], next[..]);
    }

    lemma NoDup(l: nat)
      requires Valid() && l < NLISTS
      ensures Distinct(lists[l])
    {
      assert ListOpen(0);
    }

    /** stateListAdd: append at the tail. */
    method Add(l: nat, p: nat)
      requires Valid() && l < NLISTS && p < NPROC && Absent(lists, p)
      modifies this, head, tail, next
      ensures Valid() && lists == old(lists)[l := old(lists)[l] + [p]]
    {
      assert ListOpen(0);
      ghost var n, hs, ts := next[..], head[..], tail[..];
      AddOk(lists, hs, ts, n, l, p);
      if head[l] == NULL {
        head[l] := p;
        tail[l] := p;
        next[p] := NULL;
        assert head[..] == hs[l := p] && tail[..] == ts[l := p] && next[..] == n[p := NULL];
      } else {
        next[tail[l]] := p;
        tail[l] := next[tail[l]];
        next[tail[l]] := NULL;
        assert head[..] == hs && tail[..] == ts[l := p] && next[..] == n[ts[l] := p][p := NULL];
      }
      lists := lists[l := lists[l] + [p]];
    }

    /** stateListAddAtHead. */
    method AddAtHead(l: nat, p: nat)
      requires Valid() && l < NLISTS && p < NPROC && Absent(lists, p)
      modifies this, head, tail, next
      ensures Valid() && lists == old(lists)[l := [p] + old(lists)[l]]
    {
      assert ListOpen(0);
      ghost var n, hs, ts := next[..], head[..], tail[..];
      AddAtHeadOk(lists, hs, ts, n, l, p);
      if head[l] == NULL {
        head[l] := p;
        tail[l] := p;
        next[p] := NULL;
        assert head[..] == hs[l := p] && tail[..] == ts[l := p] && next[..] == n[p := NULL];
      } else {
        next[p] := head[l];
        head[l] := p;
        assert head[..] == hs[l := p] && tail[..] == ts && next[..] == n[p := hs[l]];
      }
      lists := lists[l := [p] + lists[l]];
    }

    /** The search of stateListRemove: the process and the one before it, or NULL at the end. */
    method Search(l: nat, p: nat) returns (previous: int, current: int, ghost k: nat)
      requires Valid() && l < NLISTS && p < NPROC
      ensures current == NULL <==> p !in lists[l]
      ensures current != NULL ==> k < |lists[l]| && current == p == lists[l][k]
      ensures current != NULL && k > 0 ==> previous == lists[l][k - 1]
    {
      ghost var s := lists[l];
      Walk(l, 0);
      previous, current, k := NULL, head[l], 0;
      while current != NULL && current != p
        invariant 0 <= k <= |s| && p !in s[..k]
        invariant current == if k < |s| then s[k] else NULL
        invariant k > 0 ==> previous == s[k - 1]
        decreases |s| - k
      {
        Walk(l, k);
        assert s[..k + 1] == s[..k] + [s[k]];
        previous, current, k := current, next[current], k + 1;
      }
      assert k == |s| ==> s[..k] == s;
    }

    /** Unlinking a process that has another before it. */
    method UnlinkInner(l: nat, previous: nat, current: nat, ghost k: nat)
      requires Valid() && l < NLISTS && 0 < k < |lists[l]| && current == lists[l][k] && previous == lists[l][k - 1]
      modifies this, tail, next
      ensures Valid() && lists == old(lists)[l := Without(old(lists)[l], k)]
    {
      assert ListOpen(0);
      ghost var n, hs, ts, s := next[..], head[..], tail[..], lists[l];
      assert ListOk(s, head[l], tail[l], n);
      RemoveInnerOk(lists, hs, ts, n, l, k);
      if current == tail[l] {
        tail[l] := previous;
        next[tail[l]] := NULL;
      } else {
        next[previous] := next[current];
      }
      next[current] := NULL;
      lists := lists[l := Without(s, k)];
      assert head[..] == hs && tail[..] == (if s[k] == ts[l] then ts[l := s[k - 1]] else ts);
      assert next[..] == if s[k] == ts[l] then n[s[k - 1] := NULL][s[k] := NULL] else n[s[k - 1] := n[s[k]]][s[k] := NULL];
    }

    /** stateListRemove: 0 if the process was on the list and has been unlinked, else -1. */
    method RemoveFrom(l: nat, p: nat) returns (r: int)
      requires Valid() && l < NLISTS && p < NPROC
      modifies this, head, tail, next
      ensures Valid() && (r == 0 || r == -1) && (r == 0 <==> p in old(lists)[l])
      ensures lists == old(lists)[l := Remove(old(lists)[l], p)]
    {
      assert ListOpen(0);
      ghost var n, hs, ts, s := next[..], head[..], tail[..], lists[l];
      assert ListOk(s, head[l], tail[l], n);
      if head[l] == NULL || tail[l] == NULL {
        assert lists[l := []] == lists;
        return -1;
      }
      var current, previous := head[l], NULL;
      if current == p {
        RemoveHeadOk(lists, hs, ts, n, l);
        head[l] := next[head[l]];
        if tail[l] == p {
          tail[l] := NULL;
        }
        assert head[..] == hs[l := n[hs[l]]] && tail[..] == if ts[l] == hs[l] then ts[l := NULL] else ts;
        lists := lists[l := s[1..]];
        return 0;
      }
      ghost var k;
      previous, current, k := Search(l, p);
      if current == NULL {
        RemoveNothing(s, p);
        assert lists[l := s] == lists;
        return -1;
      }
      RemoveAt(s, k);
      UnlinkInner(l, previous, current, k);
      return 0;
    }

    /** The first half of the pointer work in promoteAll. */
    method JoinTop()
      requires Valid()
      modifies this, head, tail, next
      ensures Valid() && lists == MergeTop(old(lists))
    {
      assert ListOpen(0);
      ghost var n, hs, ts := next[..], head[..], tail[..];
      assert ListOk(lists[0], hs[0], ts[0], n);
      if head[0] != NULL && tail[0] != NULL {
        MergeFullOk(lists, hs, ts, n);
        next[tail[0]] := head[1];
        if tail[1] != NULL {
          tail[0] := tail[1];
        }
        head[1] := NULL;
        tail[1] := NULL;
        assert next[..] == n[ts[0] := hs[1]] && head[..] == hs[1 := NULL];
        assert tail[..] == ts[0 := if ts[1] != NULL then ts[1] else ts[0]][1 := NULL];
      } else {
        MergeEmptyOk(lists, hs, ts, n);
        head[0] := head[1];
        tail[0] := tail[1];
        head[1] := NULL;
        tail[1] := NULL;
        assert head[..] == hs[0 := hs[1]][1 := NULL] && tail[..] == ts[0 := ts[1]][1 := NULL];
      }
      lists := MergeTop(lists);
    }

    /** The loop of promoteAll that passes the pointers of each level up to the one above it. */
    method PassUp()
      requires head.Length == tail.Length == NLISTS && head != tail
      modifies head, tail
      ensures forall m :: 1 <= m < MAXPRIO ==> head[m] == old(head[m + 1]) && tail[m] == old(tail[m + 1])
      ensures head[MAXPRIO] == tail[MAXPRIO] == NULL
      ensures forall m :: 0 <= m < NLISTS && !(1 <= m <= MAXPRIO) ==> head[m] == old(head[m]) && tail[m] == old(tail[m])
    {
      for i := 1 to MAXPRIO
        invariant forall m :: 1 <= m < i ==> head[m] == old(head[m + 1]) && tail[m] == old(tail[m + 1])
        invariant forall m :: 0 <= m < NLISTS && !(1 <= m < i) ==> head[m] == old(head[m]) && tail[m] == old(tail[m])
      {
        head[i] := head[i + 1];
        tail[i] := tail[i + 1];
      }
      head[MAXPRIO] := NULL;
      tail[MAXPRIO] := NULL;
    }

    /** The second half: every level from 2 on moves up. */
    method MoveUp()
      requires Valid() && lists[1] == []
      modifies this, head, tail
      ensures Valid() && lists == ShiftUp(old(lists))
    {
      ghost var hs, ts := head[..], tail[..];
      PassUp();
      ghost var h, t := head[..], tail[..];
      assert forall m :: 0 <= m < NLISTS ==> h[m] == head[m] && t[m] == tail[m];
      assert ListOpen(0);
      ShiftUpOk(lists, hs, ts, next[..], h, t);
      lists := ShiftUp(lists);
    }
  }

  lemma {:induction false} RemoveNothing(s: seq<nat>, p: nat)
    requires p !in s
    ensures Remove(s, p) == s
  {
    if s != [] {
      RemoveNothing(s[1..], p);
    }
  }
}
