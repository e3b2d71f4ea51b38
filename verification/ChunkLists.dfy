/** Chunk headers in memory and the doubly linked lists that run through them. */
module ChunkLists {

  /** A pointer is an address; 0 is the null pointer. */
  const NULL: int := 0

  datatype Header = Header(size: int, inUse: bool, isMmap: bool, prev: int, next: int)

  /** Memory, as far as headers have been written to it. */
  type Memory = map<int, Header>

  function At(xs: seq<int>, k: int): int {
    if 0 <= k < |xs| then xs[k] else NULL
  }

  function InsertAt<T>(xs: seq<T>, k: nat, x: T): seq<T>
    requires k <= |xs|
  {
    xs[..k] + [x] + xs[k..]
  }

  /** `xs` without its `n` elements from place `k` on. */
  function CutAt<T>(xs: seq<T>, k: nat, n: nat): seq<T>
    requires k + n <= |xs|
  {
    xs[..k] + xs[k + n..]
  }

  ghost predicate NoDup<T(!new)>(xs: seq<T>) {
    forall j, k :: 0 <= j < k < |xs| ==> xs[j] != xs[k]
  }

  ghost predicate Ascending(xs: seq<int>) {
    forall j, k :: 0 <= j < k < |xs| ==> xs[j] < xs[k]
  }

  /** From `head`, the `next` pointers run through the nodes `xs`, each once, and end in null; the `prev`
      pointers run the other way, and the first one is null. */
  ghost predicate IsList(mem: Memory, head: int, xs: seq<int>) {
    && (forall k :: 0 <= k < |xs| ==> xs[k] != NULL && xs[k] in mem)
    && head == At(xs, 0)
    && (forall k :: 0 <= k < |xs| ==> mem[xs[k]].next == At(xs, k + 1) && mem[xs[k]].prev == At(xs, k - 1))
    && NoDup(xs)
  }

  /** The same headers, with the same contents but for the links. */
  ghost predicate SameInfo(mem: Memory, mem': Memory) {
    && mem.Keys == mem'.Keys
    && forall x :: x in mem ==>
         mem[x].size == mem'[x].size && mem[x].inUse == mem'[x].inUse && mem[x].isMmap == mem'[x].isMmap
  }

  /** No node is on two lists. */
  ghost predicate NoShare(lists: seq<seq<int>>) {
    forall u, v, x :: 0 <= u < |lists| && 0 <= v < |lists| && u != v && x in lists[u] ==> x !in lists[v]
  }

  ghost predicate Unlisted(lists: seq<seq<int>>, x: int) {
    forall u :: 0 <= u < |lists| ==> x !in lists[u]
  }

  ghost predicate Linked(mem: Memory, head: seq<int>, lists: seq<seq<int>>) {
    && |head| == |lists|
    && (forall v :: 0 <= v < |lists| ==> IsList(mem, head[v], lists[v]))
    && NoShare(lists)
  }

  // ---------------------------------------------------------------- sequences

  lemma InsertMembers<T>(xs: seq<T>, k: nat, x: T, y: T)
    requires k <= |xs|
    ensures y in InsertAt(xs, k, x) <==> y in xs || y == x
  {
    assert xs == xs[..k] + xs[k..];
  }

  lemma CutMembers<T(!new)>(xs: seq<T>, k: nat, n: nat, y: T)
    requires k + n <= |xs| && NoDup(xs)
    ensures y in CutAt(xs, k, n) <==> y in xs && y !in xs[k..k + n]
  {
    assert xs == xs[..k] + xs[k..k + n] + xs[k + n..];
    if y in CutAt(xs, k, n) {
      var j :| 0 <= j < |CutAt(xs, k, n)| && CutAt(xs, k, n)[j] == y;
      assert y == xs[if j < k then j else j + n];
    }
  }

  lemma EmptyOrMember<T(!new)>(xs: seq<T>)
    ensures xs == [] || exists x :: x in xs
  {
    if xs != [] {
      assert xs[0] in xs;
    }
  }

  lemma PairSlice<T>(xs: seq<T>, k: nat)
    requires k + 1 < |xs|
    ensures xs[k..k + 2] == [xs[k], xs[k + 1]]
  {
  }

  lemma AscendingNoDup(xs: seq<int>)
    requires Ascending(xs)
    ensures NoDup(xs)
  {
  }

  lemma InsertAscending(xs: seq<int>, k: nat, x: int)
    requires Ascending(xs) && k <= |xs|
    requires forall j :: 0 <= j < k ==> xs[j] < x
    requires forall j :: k <= j < |xs| ==> x < xs[j]
    ensures Ascending(InsertAt(xs, k, x))
  {
  }

  lemma CutAscending(xs: seq<int>, k: nat, n: nat)
    requires Ascending(xs) && k + n <= |xs|
    ensures Ascending(CutAt(xs, k, n))
  {
  }

  /** A strictly ascending list is determined by its elements. */
  lemma {:induction false} AscendingUnique(xs: seq<int>, ys: seq<int>)
    requires Ascending(xs) && Ascending(ys)
    requires forall x :: x in xs <==> x in ys
    ensures xs == ys
  {
    assert ys != [] ==> ys[0] in ys && ys[0] in xs;
    if xs != [] {
      assert xs[0] in xs && xs[0] in ys;
      var i :| 0 <= i < |xs| && xs[i] == ys[0];
      var j :| 0 <= j < |ys| && ys[j] == xs[0];
      assert xs[0] <= xs[i] && ys[0] <= ys[j];
      assert xs == [xs[0]] + xs[1..] && ys == [ys[0]] + ys[1..];
      forall x
        ensures x in xs[1..] <==> x in ys[1..]
      {
        assert xs[0] !in xs[1..] && ys[0] !in ys[1..];
        assert x in xs <==> x in ys;
      }
      AscendingUnique(xs[1..], ys[1..]);
    }
  }

  // ---------------------------------------------------------------- lists in memory

  lemma ListFrame(mem: Memory, mem': Memory, head: int, xs: seq<int>)
    requires IsList(mem, head, xs)
    requires forall x :: x in xs ==> x in mem' && mem'[x] == mem[x]
    ensures IsList(mem', head, xs)
  {
  }

  /** The memory after node `x` has been linked into `xs` at place `k`. */
  ghost function LinkIn(mem: Memory, xs: seq<int>, k: nat, x: int): Memory
    requires x in mem && k <= |xs|
    requires forall j :: 0 <= j < |xs| ==> xs[j] in mem
  {
    var m1 := mem[x := mem[x].(prev := At(xs, k - 1), next := At(xs, k))];
    var m2 := if 0 < k then m1[xs[k - 1] := m1[xs[k - 1]].(next := x)] else m1;
    if k < |xs| then m2[xs[k] := m2[xs[k]].(prev := x)] else m2
  }

  /** The memory after the `n` nodes of `xs` from place `k` on have been unlinked. */
  ghost function LinkOut(mem: Memory, xs: seq<int>, k: nat, n: nat): Memory
    requires k + n <= |xs|
    requires forall j :: 0 <= j < |xs| ==> xs[j] in mem
  {
    var m1 := if 0 < k then mem[xs[k - 1] := mem[xs[k - 1]].(next := At(xs, k + n))] else mem;
    if k + n < |xs| then m1[xs[k + n] := m1[xs[k + n]].(prev := At(xs, k - 1))] else m1
  }

  lemma LinkInAt(mem: Memory, xs: seq<int>, k: nat, x: int, j: nat)
    requires x in mem && x !in xs && k <= |xs| && NoDup(xs) && j < |xs|
    requires forall j :: 0 <= j < |xs| ==> xs[j] in mem
    ensures var m' := LinkIn(mem, xs, k, x);
            && xs[j] in m'
            && m'[xs[j]].next == (if j + 1 == k then x else mem[xs[j]].next)
            && m'[xs[j]].prev == (if j == k then x else mem[xs[j]].prev)
  {
    assert j + 1 != k && 0 < k ==> xs[j] != xs[k - 1];
    assert j != k && k < |xs| ==> xs[j] != xs[k];
  }

  lemma LinkInSelf(mem: Memory, xs: seq<int>, k: nat, x: int)
    requires x in mem && x !in xs && k <= |xs|
    requires forall j :: 0 <= j < |xs| ==> xs[j] in mem
    ensures var m' := LinkIn(mem, xs, k, x);
            && SameInfo(mem, m')
            && x in m' && m'[x].next == At(xs, k) && m'[x].prev == At(xs, k - 1)
  {
  }

  lemma InsertNoDup(xs: seq<int>, k: nat, x: int)
    requires NoDup(xs) && k <= |xs| && x !in xs
    ensures NoDup(InsertAt(xs, k, x))
  {
  }

  ghost predicate NodeOk(mem: Memory, xs: seq<int>, k: int) {
    0 <= k < |xs| ==>
      xs[k] != NULL && xs[k] in mem && mem[xs[k]].next == At(xs, k + 1) && mem[xs[k]].prev == At(xs, k - 1)
  }

  lemma NodesOk(mem: Memory, head: int, xs: seq<int>)
    requires IsList(mem, head, xs)
    ensures NoDup(xs) && head == At(xs, 0)
    ensures forall k :: 0 <= k < |xs| ==> xs[k] in mem
    ensures forall k :: NodeOk(mem, xs, k)
  {
  }

  lemma OkNodes(mem: Memory, xs: seq<int>)
    requires NoDup(xs) && forall k :: NodeOk(mem, xs, k)
    ensures IsList(mem, At(xs, 0), xs)
  {
    forall k | 0 <= k < |xs|
      ensures xs[k] != NULL && xs[k] in mem
      ensures mem[xs[k]].next == At(xs, k + 1) && mem[xs[k]].prev == At(xs, k - 1)
    {
      assert NodeOk(mem, xs, k);
    }
  }

  lemma LinkInIsList(mem: Memory, head: int, xs: seq<int>, k: nat, x: int)
    requires IsList(mem, head, xs) && k <= |xs|
    requires x in mem && x != NULL && x !in xs
    ensures SameInfo(mem, LinkIn(mem, xs, k, x))
    ensures IsList(LinkIn(mem, xs, k, x), if k == 0 then x else head, InsertAt(xs, k, x))
  {
    hide LinkIn, SameInfo, IsList;
    NodesOk(mem, head, xs);
    LinkInSelf(mem, xs, k, x);
    InsertNoDup(xs, k, x);
    var ys, m' := InsertAt(xs, k, x), LinkIn(mem, xs, k, x);
    forall j
      ensures NodeOk(m', ys, j)
    {
      if 0 <= j < |ys| && j != k {
        var i := if j < k then j else j - 1;
        assert NodeOk(mem, xs, i);
        LinkInAt(mem, xs, k, x, i);
      }
    }
    OkNodes(m', ys);
  }

  /** The four pointer writes of an insertion behind `xs[k - 1]`. */
  lemma LinkBehindWrites(mem: Memory, head: int, xs: seq<int>, k: nat, x: int)
    requires IsList(mem, head, xs) && 0 < k <= |xs| && x in mem && x != NULL && x !in xs
    requires mem[x].next == NULL && mem[x].prev == NULL
    ensures var curr := xs[k - 1];
            && (forall j :: 0 <= j < |xs| ==> xs[j] in mem)
            && mem[curr].next == At(xs, k)
            && var next := At(xs, k);
            && var m1 := mem[x := mem[x].(next := next)];
            && var m2 := if next != NULL then m1[next := m1[next].(prev := x)] else m1;
            && var m3 := m2[curr := m2[curr].(next := x)];
            && m3[x := m3[x].(prev := curr)] == LinkIn(mem, xs, k, x)
  {
    hide IsList;
    NodesOk(mem, head, xs);
    assert xs[k - 1] in xs && (k < |xs| ==> xs[k] in xs);
    assert NodeOk(mem, xs, k - 1) && NodeOk(mem, xs, k);
    assert k < |xs| ==> xs[k] != xs[k - 1];
    hide NoDup, NodeOk;
  }

  lemma LinkOutAt(mem: Memory, xs: seq<int>, k: nat, n: nat, j: nat)
    requires k + n <= |xs| && 0 < n && NoDup(xs) && j < |xs|
    requires forall j :: 0 <= j < |xs| ==> xs[j] in mem
    ensures var m' := LinkOut(mem, xs, k, n);
            && xs[j] in m'
            && m'[xs[j]].next == (if j + 1 == k then At(xs, k + n) else mem[xs[j]].next)
            && m'[xs[j]].prev == (if j == k + n then At(xs, k - 1) else mem[xs[j]].prev)
  {
    assert j + 1 != k && 0 < k ==> xs[j] != xs[k - 1];
    assert j != k + n && k + n < |xs| ==> xs[j] != xs[k + n];
  }

  lemma SameInfoRefl(mem: Memory)
    ensures SameInfo(mem, mem)
  {
  }

  /** What can be read off the head of a list. */
  lemma ListHead(mem: Memory, head: seq<int>, lists: seq<seq<int>>, v: nat)
    requires Linked(mem, head, lists) && v < |lists|
    ensures |head| == |lists| && IsList(mem, head[v], lists[v])
    ensures head[v] == At(lists[v], 0)
    ensures lists[v] == [] <==> head[v] == NULL
    ensures head[v] != NULL ==> head[v] in mem && mem[head[v]].next == At(lists[v], 1)
    ensures head[v] != NULL && mem[head[v]].next == NULL ==> lists[v] == [head[v]]
    ensures NULL !in lists[v]
  {
    assert IsList(mem, head[v], lists[v]);
  }

  lemma SizeKept(mem: Memory, mem': Memory, x: int)
    requires SameInfo(mem, mem') && x in mem
    ensures x in mem' && mem'[x].size == mem[x].size
  {
  }

  lemma SameInfoRelink(mem: Memory, mem': Memory, x: int, prev: int, next: int)
    requires SameInfo(mem, mem') && x in mem'
    ensures SameInfo(mem, mem'[x := mem'[x].(prev := prev, next := next)])
  {
  }

  /** The pointer writes that take out a pair of neighbours. */
  lemma PairWrites(mem: Memory, head: int, xs: seq<int>, k: nat)
    requires IsList(mem, head, xs) && k + 1 < |xs|
    ensures forall j :: 0 <= j < |xs| ==> xs[j] in mem
    ensures var prev, last := At(xs, k - 1), At(xs, k + 2);
            && mem[xs[k]].next == xs[k + 1] && mem[xs[k + 1]].next == last
            && prev != xs[k] && last != xs[k]
            && (prev != NULL <==> 0 < k) && (last != NULL <==> k + 2 < |xs|)
            && var m1 := if last != NULL then mem[last := mem[last].(prev := prev)] else mem;
            && (prev != NULL ==> prev in m1)
            && (if prev != NULL then m1[prev := m1[prev].(next := last)] else m1) == LinkOut(mem, xs, k, 2)
  {
    assert 0 < k ==> xs[k - 1] in xs;
    assert k + 2 < |xs| ==> xs[k + 2] in xs;
  }

  lemma LinkOutInfo(mem: Memory, xs: seq<int>, k: nat, n: nat)
    requires k + n <= |xs|
    requires forall j :: 0 <= j < |xs| ==> xs[j] in mem
    ensures SameInfo(mem, LinkOut(mem, xs, k, n))
  {
  }

  lemma CutNoDup(xs: seq<int>, k: nat, n: nat)
    requires NoDup(xs) && k + n <= |xs|
    ensures NoDup(CutAt(xs, k, n))
  {
  }

  lemma LinkOutIsList(mem: Memory, head: int, xs: seq<int>, k: nat, n: nat)
    requires IsList(mem, head, xs) && k + n <= |xs| && 0 < n
    ensures SameInfo(mem, LinkOut(mem, xs, k, n))
    ensures IsList(LinkOut(mem, xs, k, n), if k == 0 then At(xs, n) else head, CutAt(xs, k, n))
  {
    hide LinkOut, SameInfo, IsList;
    NodesOk(mem, head, xs);
    LinkOutInfo(mem, xs, k, n);
    CutNoDup(xs, k, n);
    var ys, m' := CutAt(xs, k, n), LinkOut(mem, xs, k, n);
    forall j
      ensures NodeOk(m', ys, j)
    {
      if 0 <= j < |ys| {
        var i := if j < k then j else j + n;
        assert NodeOk(mem, xs, i);
        LinkOutAt(mem, xs, k, n, i);
      }
    }
    OkNodes(m', ys);
  }

  /** Editing one list, within that list and nodes of no list, leaves all others linked. */
  lemma EditOne(mem: Memory, head: seq<int>, lists: seq<seq<int>>, mem': Memory, v: int, h: int, ys: seq<int>)
    requires Linked(mem, head, lists) && 0 <= v < |lists|
    requires IsList(mem', h, ys)
    requires mem.Keys <= mem'.Keys
    requires forall u, x :: 0 <= u < |lists| && u != v && x in lists[u] ==> x !in ys && mem'[x] == mem[x]
    ensures Linked(mem', head[v := h], lists[v := ys])
  {
    forall u | 0 <= u < |lists| && u != v
      ensures IsList(mem', head[u], lists[u])
    {
      forall x | x in lists[u]
        ensures x in mem' && mem'[x] == mem[x]
      {
        assert IsList(mem, head[u], lists[u]);
      }
      ListFrame(mem, mem', head[u], lists[u]);
    }
  }

  lemma LinkInElsewhere(mem: Memory, xs: seq<int>, k: nat, x: int, y: int)
    requires x in mem && k <= |xs| && (forall j :: 0 <= j < |xs| ==> xs[j] in mem)
    requires y in mem && y != x && y !in xs
    ensures y in LinkIn(mem, xs, k, x) && LinkIn(mem, xs, k, x)[y] == mem[y]
  {
  }

  lemma LinkOutElsewhere(mem: Memory, xs: seq<int>, k: nat, n: nat, y: int)
    requires k + n <= |xs| && (forall j :: 0 <= j < |xs| ==> xs[j] in mem)
    requires y in mem && y !in xs
    ensures y in LinkOut(mem, xs, k, n) && LinkOut(mem, xs, k, n)[y] == mem[y]
  {
  }

  /** Linking a node of no list into one of the lists. */
  lemma LinkInLinked(mem: Memory, head: seq<int>, lists: seq<seq<int>>, v: nat, k: nat, x: int)
    requires Linked(mem, head, lists) && v < |lists| && k <= |lists[v]|
    requires x in mem && x != NULL
    requires Unlisted(lists, x)
    ensures forall j :: 0 <= j < |lists[v]| ==> lists[v][j] in mem
    ensures SameInfo(mem, LinkIn(mem, lists[v], k, x))
    ensures Linked(LinkIn(mem, lists[v], k, x), head[v := if k == 0 then x else head[v]],
                   lists[v := InsertAt(lists[v], k, x)])
  {
    assert IsList(mem, head[v], lists[v]);
    LinkInIsList(mem, head[v], lists[v], k, x);
    forall u, y | 0 <= u < |lists| && u != v && y in lists[u]
      ensures y !in InsertAt(lists[v], k, x) && LinkIn(mem, lists[v], k, x)[y] == mem[y]
    {
      InsertMembers(lists[v], k, x, y);
      assert IsList(mem, head[u], lists[u]);
      LinkInElsewhere(mem, lists[v], k, x, y);
    }
    hide LinkIn, IsList, InsertAt;
    EditOne(mem, head, lists, LinkIn(mem, lists[v], k, x), v, if k == 0 then x else head[v],
            InsertAt(lists[v], k, x));
  }

  /** Unlinking `n` neighbours from one of the lists. */
  lemma LinkOutLinked(mem: Memory, head: seq<int>, lists: seq<seq<int>>, v: nat, k: nat, n: nat)
    requires Linked(mem, head, lists) && v < |lists| && k + n <= |lists[v]| && 0 < n
    ensures forall j :: 0 <= j < |lists[v]| ==> lists[v][j] in mem
    ensures SameInfo(mem, LinkOut(mem, lists[v], k, n))
    ensures Linked(LinkOut(mem, lists[v], k, n), head[v := if k == 0 then At(lists[v], n) else head[v]],
                   lists[v := CutAt(lists[v], k, n)])
    ensures forall j :: k <= j < k + n ==> Unlisted(lists[v := CutAt(lists[v], k, n)], lists[v][j])
  {
    assert IsList(mem, head[v], lists[v]);
    LinkOutIsList(mem, head[v], lists[v], k, n);
    forall u, y | 0 <= u < |lists| && u != v && y in lists[u]
      ensures y !in CutAt(lists[v], k, n) && LinkOut(mem, lists[v], k, n)[y] == mem[y]
    {
      CutMembers(lists[v], k, n, y);
      assert IsList(mem, head[u], lists[u]);
      LinkOutElsewhere(mem, lists[v], k, n, y);
    }
    forall j | k <= j < k + n
      ensures Unlisted(lists[v := CutAt(lists[v], k, n)], lists[v][j])
    {
      CutMembers(lists[v], k, n, lists[v][j]);
      assert lists[v][k..k + n][j - k] == lists[v][j];
      assert lists[v][j] in lists[v];
    }
    hide LinkOut, IsList, CutAt;
    EditOne(mem, head, lists, LinkOut(mem, lists[v], k, n), v, if k == 0 then At(lists[v], n) else head[v],
            CutAt(lists[v], k, n));
  }

  /** Writing a header that is on no list leaves all lists linked. */
  lemma WriteUnlinked(mem: Memory, head: seq<int>, lists: seq<seq<int>>, x: int, h: Header)
    requires Linked(mem, head, lists)
    requires Unlisted(lists, x)
    ensures Linked(mem[x := h], head, lists)
  {
    forall v | 0 <= v < |lists|
      ensures IsList(mem[x := h], head[v], lists[v])
    {
      ListFrame(mem, mem[x := h], head[v], lists[v]);
    }
  }
}
