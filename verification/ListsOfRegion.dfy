/** How the lists of chunk headers represent the region. */
module ListsOfRegion {
  import opened Options
  import opened Sizes
  import opened HeapLaws
  import opened HeapRegion
  import opened HeapRuns
  import opened HeapState
  import opened ChunkLists

  /** The thirteen list heads: `bin[0]` to `bin[10]`, then these two. */
  const HEAP_LIST: nat := 11
  const MMAP_LIST: nat := 12
  const LISTS: nat := 13

  /** Bin `v` lists the free chunks of class `v` and the heap list the live ones, each in strictly
      ascending order of address. */
  ghost predicate BinsMatch(lists: seq<seq<int>>, m: Region) {
    && |lists| == LISTS
    && (forall v: nat, x: int :: v <= TOP ==> (x in lists[v] <==> InBin(m, v, x)))
    && (forall x :: x in lists[HEAP_LIST] <==> x in m && m[x].tag == Live)
    && (forall v :: 0 <= v <= HEAP_LIST ==> Ascending(lists[v]))
  }

  ghost predicate HasHeader(mem: Memory, x: int, size: int, inUse: bool, isMmap: bool) {
    x in mem && mem[x].size == size && mem[x].inUse == inUse && mem[x].isMmap == isMmap
  }

  ghost predicate HeadersMatch(mem: Memory, m: Region) {
    forall x :: x in m && m[x].tag != Held ==> HasHeader(mem, x, Size(m[x].cls), m[x].tag == Live, false)
  }

  ghost predicate BigMatch(mem: Memory, xs: seq<int>, bs: seq<Big>) {
    && |xs| == |bs|
    && forall k :: 0 <= k < |xs| ==> xs[k] == bs[k].addr && HasHeader(mem, xs[k], bs[k].size, true, true)
  }

  /** Heads, links and headers represent the state `s`, in which chunks may be held. */
  ghost predicate Rep(mem: Memory, head: seq<int>, lists: seq<seq<int>>, s: State) {
    && |lists| == LISTS
    && Linked(mem, head, lists)
    && BinsMatch(lists, s.region)
    && HeadersMatch(mem, s.region)
    && BigMatch(mem, lists[MMAP_LIST], s.big)
    && BigOk(s.big, s.mapped) && BigOutside(s) && InBounds(s)
  }

  /** Regions that differ only in chunks that are held, or not there, in both. */
  ghost predicate SameListed(m: Region, m': Region, x: int) {
    && ((x in m && m[x].tag != Held) <==> (x in m' && m'[x].tag != Held))
    && (x in m && m[x].tag != Held ==> m'[x] == m[x])
  }

  lemma RelabelMatches(lists: seq<seq<int>>, m: Region, m': Region)
    requires BinsMatch(lists, m) && forall x :: SameListed(m, m', x)
    ensures BinsMatch(lists, m')
  {
    forall v: nat, x: int | v <= TOP
      ensures x in lists[v] <==> InBin(m', v, x)
    {
      assert SameListed(m, m', x);
    }
    forall x
      ensures x in lists[HEAP_LIST] <==> x in m' && m'[x].tag == Live
    {
      assert SameListed(m, m', x);
    }
  }

  lemma DetachMatches(lists: seq<seq<int>>, m: Region, v: nat, k: nat, n: nat, m': Region)
    requires BinsMatch(lists, m) && v <= HEAP_LIST && k + n <= |lists[v]|
    requires forall x :: x !in lists[v][k..k + n] ==> SameListed(m, m', x)
    requires forall x :: x in lists[v][k..k + n] ==> x !in m' || m'[x].tag == Held
    ensures BinsMatch(lists[v := CutAt(lists[v], k, n)], m')
  {
    var ys := CutAt(lists[v], k, n);
    CutAscending(lists[v], k, n);
    AscendingNoDup(lists[v]);
    forall x
      ensures x in ys <==> x in lists[v] && x !in lists[v][k..k + n]
      ensures x in lists[v][k..k + n] ==> x in lists[v]
    {
      CutMembers(lists[v], k, n, x);
    }
    hide CutAt, Ascending;
    forall u: nat, x: int | u <= TOP
      ensures x in lists[v := ys][u] <==> InBin(m', u, x)
    {
      assert x in lists[u] <==> InBin(m, u, x);
      if x in lists[v][k..k + n] {
        assert v <= TOP ==> InBin(m, v, x);
      } else {
        assert SameListed(m, m', x);
      }
    }
    forall x
      ensures x in lists[v := ys][HEAP_LIST] <==> x in m' && m'[x].tag == Live
    {
      if x in lists[v][k..k + n] {
        assert v <= TOP ==> InBin(m, v, x);
      } else {
        assert SameListed(m, m', x);
      }
    }
  }

  lemma AttachMatches(lists: seq<seq<int>>, m: Region, v: nat, k: nat, x: int, t: Tag)
    requires BinsMatch(lists, m) && v <= HEAP_LIST && k <= |lists[v]|
    requires x in m && m[x].tag == Held
    requires (t == Free && m[x].cls == v <= TOP) || (t == Live && v == HEAP_LIST)
    requires Ascending(InsertAt(lists[v], k, x))
    ensures BinsMatch(lists[v := InsertAt(lists[v], k, x)], m[x := Chunk(m[x].cls, t)])
  {
    var ys := InsertAt(lists[v], k, x);
    forall y
      ensures y in ys <==> y in lists[v] || y == x
    {
      InsertMembers(lists[v], k, x, y);
    }
    hide InsertAt, Ascending;
    assert forall u: nat :: u <= HEAP_LIST ==> x !in lists[u];
  }

  lemma HeadersSame(mem: Memory, mem': Memory, m: Region, xs: seq<int>, bs: seq<Big>)
    requires HeadersMatch(mem, m) && BigMatch(mem, xs, bs) && SameInfo(mem, mem')
    ensures HeadersMatch(mem', m) && BigMatch(mem', xs, bs)
  {
  }

  lemma HeadersElsewhere(mem: Memory, m: Region, xs: seq<int>, bs: seq<Big>, x: int, h: Header)
    requires HeadersMatch(mem, m) && BigMatch(mem, xs, bs) && x !in xs
    requires x in m ==> m[x].tag == Held
    ensures HeadersMatch(mem[x := h], m) && BigMatch(mem[x := h], xs, bs)
  {
  }

  lemma HeadersAttach(mem: Memory, m: Region, x: int, t: Tag)
    requires HeadersMatch(mem, m) && x in m && HasHeader(mem, x, Size(m[x].cls), t == Live, false)
    ensures HeadersMatch(mem, m[x := Chunk(m[x].cls, t)])
  {
  }

  /** The chunks that may not be listed are on no list. */
  lemma UnlistedInRegion(lists: seq<seq<int>>, s: State, mem: Memory, x: int)
    requires BinsMatch(lists, s.region) && BigMatch(mem, lists[MMAP_LIST], s.big) && BigOutside(s)
    requires s.base <= x < s.base + HEAP_BYTES
    requires x in s.region ==> s.region[x].tag == Held
    ensures Unlisted(lists, x)
  {
    forall u | 0 <= u < |lists|
      ensures x !in lists[u]
    {
      if u == MMAP_LIST {
        assert forall k :: 0 <= k < |lists[u]| ==> lists[u][k] == s.big[k].addr;
      } else if u == HEAP_LIST {
      } else {
        assert x in lists[u] <==> InBin(s.region, u, x);
      }
    }
  }

  lemma HeadsOf(mem: Memory, head: seq<int>, lists: seq<seq<int>>, s: State)
    requires Rep(mem, head, lists, s)
    ensures |head| == LISTS && |lists| == LISTS
    ensures forall v :: 0 <= v < LISTS ==> head[v] == At(lists[v], 0) && (lists[v] != [] ==> head[v] != NULL)
    ensures forall v :: 0 <= v <= HEAP_LIST ==> Ascending(lists[v])
    ensures forall v: nat, x: int :: v <= TOP && x in lists[v] ==>
              InBin(s.region, v, x) && s.base <= x < s.base + HEAP_BYTES
  {
    assert forall v :: 0 <= v < LISTS ==> IsList(mem, head[v], lists[v]);
  }

  lemma HeadsInRegion(mem: Memory, head: seq<int>, lists: seq<seq<int>>, s: State)
    requires Rep(mem, head, lists, s)
    ensures |head| == LISTS && |lists| == LISTS
    ensures forall v :: 0 <= v < LISTS ==> head[v] == At(lists[v], 0) && (lists[v] != [] ==> head[v] != NULL)
    ensures forall v :: 0 <= v <= TOP && lists[v] != [] ==> lists[v][0] < s.base + HEAP_BYTES
  {
    HeadsOf(mem, head, lists, s);
    assert forall v: nat :: v <= TOP && lists[v] != [] ==> lists[v][0] in lists[v];
  }

  lemma HeldAfterJoin(m: Region, a: int, i: nat)
    ensures a in Join(m, a, i, Held) && Join(m, a, i, Held)[a] == Chunk(i + 1, Held)
  {
  }

  lemma RepBins(mem: Memory, head: seq<int>, lists: seq<seq<int>>, s: State)
    requires Rep(mem, head, lists, s)
    ensures BinsMatch(lists, s.region)
  {
  }

  lemma RepShape(mem: Memory, head: seq<int>, lists: seq<seq<int>>, s: State)
    requires Rep(mem, head, lists, s)
    ensures |head| == LISTS && |lists| == LISTS && Linked(mem, head, lists)
  {
  }

  lemma BinList(mem: Memory, head: seq<int>, lists: seq<seq<int>>, s: State, v: nat)
    requires Rep(mem, head, lists, s) && v <= TOP
    ensures |head| == LISTS && |lists| == LISTS && head[v] == At(lists[v], 0)
    ensures Ascending(lists[v]) && forall x :: x in lists[v] <==> InBin(s.region, v, x)
  {
    assert IsList(mem, head[v], lists[v]);
  }

  /** What the node at place `k` of bin `v` looks like in memory. */
  lemma BinNode(mem: Memory, head: seq<int>, lists: seq<seq<int>>, s: State, v: nat, k: nat)
    requires Rep(mem, head, lists, s) && v <= TOP
    ensures |lists| == LISTS
    ensures k < |lists[v]| ==>
              && lists[v][k] in mem && lists[v][k] != NULL && InBin(s.region, v, lists[v][k])
              && mem[lists[v][k]].next == At(lists[v], k + 1)
              && mem[lists[v][k]].size == Size(v)
  {
    assert IsList(mem, head[v], lists[v]);
    if k < |lists[v]| {
      assert lists[v][k] in lists[v];
      assert HasHeader(mem, lists[v][k], Size(v), false, false);
    }
  }

  /** What the node at place `k` of the list of large chunks looks like in memory. */
  lemma BigNode(mem: Memory, head: seq<int>, lists: seq<seq<int>>, s: State, k: nat)
    requires Rep(mem, head, lists, s)
    ensures |head| == LISTS && |lists| == LISTS
    ensures |lists[MMAP_LIST]| == |s.big| && head[MMAP_LIST] == At(lists[MMAP_LIST], 0)
    ensures var xs := lists[MMAP_LIST];
            k < |xs| ==>
              && xs[k] in mem && xs[k] != NULL && xs[k] == s.big[k].addr
              && mem[xs[k]].size == s.big[k].size && mem[xs[k]].next == At(xs, k + 1)
  {
    assert IsList(mem, head[MMAP_LIST], lists[MMAP_LIST]);
  }

  /** Which addresses are on the two lists of allocated chunks. */
  lemma AllocatedNodes(mem: Memory, head: seq<int>, lists: seq<seq<int>>, s: State, x: int)
    requires Rep(mem, head, lists, s)
    ensures |lists| == LISTS
    ensures x in lists[HEAP_LIST] <==> x in s.region && s.region[x].tag == Live
    ensures x in lists[HEAP_LIST] ==> x in mem && mem[x].size == Size(s.region[x].cls)
    ensures x in lists[MMAP_LIST] <==> BigHas(s.big, x)
    ensures BigHas(s.big, x) ==> HEAP_BYTES <= x
  {
    if x in s.region && s.region[x].tag == Live {
      assert HasHeader(mem, x, Size(s.region[x].cls), true, false);
    }
    var xs := lists[MMAP_LIST];
    if x in xs {
      var k :| 0 <= k < |xs| && xs[k] == x;
      assert s.big[k].addr == x;
    }
    if BigHas(s.big, x) {
      var k :| 0 <= k < |s.big| && s.big[k].addr == x;
      assert xs[k] == x;
    }
  }

  // ---------------------------------------------------------------- edits keep the representation

  /** Linking the held chunk at `x` into its list. */
  lemma AttachRep(mem: Memory, head: seq<int>, lists: seq<seq<int>>, s: State, v: nat, k: nat, x: int, t: Tag,
                  mem': Memory, head': seq<int>, lists': seq<seq<int>>)
    requires Rep(mem, head, lists, s) && v <= HEAP_LIST && k <= |lists[v]|
    requires x in s.region && s.region[x].tag == Held
    requires if v == HEAP_LIST then t == Live else t == Free && v == s.region[x].cls
    requires HasHeader(mem, x, Size(s.region[x].cls), t == Live, false)
    requires lists' == lists[v := InsertAt(lists[v], k, x)] && Ascending(lists'[v])
    requires Linked(mem', head', lists') && SameInfo(mem, mem')
    ensures Rep(mem', head', lists', s.(region := s.region[x := Chunk(s.region[x].cls, t)]))
  {
    HeadersAttach(mem, s.region, x, t);
    AttachMatches(lists, s.region, v, k, x, t);
    HeadersSame(mem, mem', s.region[x := Chunk(s.region[x].cls, t)], lists[MMAP_LIST], s.big);
  }

  /** Unlinking `n` neighbours, whose chunks are held or gone afterwards. */
  lemma DetachRep(mem: Memory, head: seq<int>, lists: seq<seq<int>>, s: State, v: nat, k: nat, n: nat, m': Region,
                  mem': Memory, head': seq<int>, lists': seq<seq<int>>)
    requires Rep(mem, head, lists, s) && v <= HEAP_LIST && k + n <= |lists[v]|
    requires forall x :: x !in lists[v][k..k + n] ==> SameListed(s.region, m', x)
    requires forall x :: x in lists[v][k..k + n] ==> x !in m' || m'[x].tag == Held
    requires forall x :: x in m' ==> x in s.region
    requires lists' == lists[v := CutAt(lists[v], k, n)]
    requires Linked(mem', head', lists') && SameInfo(mem, mem')
    ensures Rep(mem', head', lists', s.(region := m'))
  {
    DetachMatches(lists, s.region, v, k, n, m');
    HeadersSame(mem, mem', s.region, lists[MMAP_LIST], s.big);
    forall x | x in m' && m'[x].tag != Held
      ensures HasHeader(mem', x, Size(m'[x].cls), m'[x].tag == Live, false)
    {
      assert SameListed(s.region, m', x);
    }
  }

  /** Relabelling chunks that are on no list. */
  lemma RelabelRep(mem: Memory, head: seq<int>, lists: seq<seq<int>>, s: State, m': Region)
    requires Rep(mem, head, lists, s)
    requires forall x :: SameListed(s.region, m', x)
    requires InBounds(s.(region := m'))
    ensures Rep(mem, head, lists, s.(region := m'))
  {
    RelabelMatches(lists, s.region, m');
    forall x | x in m' && m'[x].tag != Held
      ensures HasHeader(mem, x, Size(m'[x].cls), m'[x].tag == Live, false)
    {
      assert SameListed(s.region, m', x);
    }
  }

  /** Adding a chunk, held, or changing the class of a held one. */
  lemma HeldRep(mem: Memory, head: seq<int>, lists: seq<seq<int>>, s: State, x: int, i: nat)
    requires Rep(mem, head, lists, s)
    requires 0 < x && s.base <= x < s.base + HEAP_BYTES
    requires x in s.region ==> s.region[x].tag == Held
    ensures Rep(mem, head, lists, s.(region := s.region[x := Chunk(i, Held)]))
  {
    RelabelRep(mem, head, lists, s, s.region[x := Chunk(i, Held)]);
  }

  /** Unlinking one chunk, which is held afterwards. */
  lemma DetachOneRep(mem: Memory, head: seq<int>, lists: seq<seq<int>>, s: State, v: nat, k: nat, x: int,
                     mem': Memory, head': seq<int>, lists': seq<seq<int>>)
    requires Rep(mem, head, lists, s) && v <= HEAP_LIST && k < |lists[v]|
    requires x in s.region && lists[v][k] == x
    requires lists' == lists[v := CutAt(lists[v], k, 1)]
    requires Linked(mem', head', lists') && SameInfo(mem, mem')
    ensures Rep(mem', head', lists', s.(region := s.region[x := Chunk(s.region[x].cls, Held)]))
  {
    assert lists[v][k..k + 1] == [x];
    DetachRep(mem, head, lists, s, v, k, 1, s.region[x := Chunk(s.region[x].cls, Held)], mem', head', lists');
  }

  /** Unlinking a touching pair, which one held chunk of twice the size replaces. */
  lemma DetachPairRep(mem: Memory, head: seq<int>, lists: seq<seq<int>>, s: State, v: nat, k: nat,
                      mem': Memory, head': seq<int>, lists': seq<seq<int>>)
    requires Rep(mem, head, lists, s) && v <= TOP && k + 1 < |lists[v]|
    requires lists[v][k + 1] == lists[v][k] + Size(v)
    requires lists' == lists[v := CutAt(lists[v], k, 2)]
    requires Linked(mem', head', lists') && SameInfo(mem, mem')
    ensures Rep(mem', head', lists', s.(region := Join(s.region, lists[v][k], v, Held)))
  {
    hide Rep, Linked, SameInfo, Size, BinsMatch, Ascending, Join, SameListed;
    BinNode(mem, head, lists, s, v, k);
    var a := lists[v][k];
    PairSlice(lists[v], k);
    JoinListed(s.region, a, v);
    DetachRep(mem, head, lists, s, v, k, 2, Join(s.region, a, v, Held), mem', head', lists');
  }

  lemma JoinListed(m: Region, a: int, i: nat)
    requires a in m
    ensures var m' := Join(m, a, i, Held);
            && (forall x :: x !in [a, a + Size(i)] ==> SameListed(m, m', x))
            && (forall x :: x in [a, a + Size(i)] ==> x !in m' || m'[x].tag == Held)
            && (forall x :: x in m' ==> x in m)
  {
  }

  lemma AttachBigMatch(mem: Memory, xs: seq<int>, bs: seq<Big>, k: nat, b: Big)
    requires BigMatch(mem, xs, bs) && k <= |bs| && HasHeader(mem, b.addr, b.size, true, true)
    ensures BigMatch(mem, InsertAt(xs, k, b.addr), bs[..k] + [b] + bs[k..])
  {
  }

  /** Linking a new large chunk. */
  lemma AttachBigRep(mem: Memory, head: seq<int>, lists: seq<seq<int>>, s: State, k: nat, page: int, bytes: int,
                     mem': Memory, head': seq<int>, lists': seq<seq<int>>)
    requires Rep(mem, head, lists, s) && k <= |s.big| == |lists[MMAP_LIST]|
    requires FreshPage(s, page, bytes) && 0 < bytes && HasHeader(mem, page, Field31(bytes), true, true)
    requires lists' == lists[MMAP_LIST := InsertAt(lists[MMAP_LIST], k, page)]
    requires BigInsert(s.big, Big(page, Field31(bytes))) == s.big[..k] + [Big(page, Field31(bytes))] + s.big[k..]
    requires Linked(mem', head', lists') && SameInfo(mem, mem')
    ensures Rep(mem', head', lists', s.(big := BigInsert(s.big, Big(page, Field31(bytes))),
                                        mapped := s.mapped[page := bytes]))
  {
    hide Linked, BigInsert, SameInfo, HeadersMatch, BinsMatch, HasHeader, BigMatch, InsertAt, BigOk, Field31, ClearOf;
    var b := Big(page, Field31(bytes));
    AttachBigMatch(mem, lists[MMAP_LIST], s.big, k, b);
    HeadersSame(mem, mem', s.region, lists'[MMAP_LIST], BigInsert(s.big, b));
    BigInsertOk(s.big, s.mapped, page, bytes);
    SameBins(lists, lists', s.region);
    BigOutsideInsert(s, k, b);
  }

  lemma SameBins(lists: seq<seq<int>>, lists': seq<seq<int>>, m: Region)
    requires BinsMatch(lists, m) && |lists'| == LISTS
    requires forall v :: 0 <= v <= HEAP_LIST ==> lists'[v] == lists[v]
    ensures BinsMatch(lists', m)
  {
  }

  lemma BigOutsideInsert(s: State, k: nat, b: Big)
    requires BigOutside(s) && k <= |s.big| && !(s.base <= b.addr < s.base + HEAP_BYTES)
    ensures BigOutside(s.(big := s.big[..k] + [b] + s.big[k..]))
  {
  }

  lemma DetachBigMatch(mem: Memory, xs: seq<int>, bs: seq<Big>, k: nat)
    requires BigMatch(mem, xs, bs) && k < |bs|
    ensures BigMatch(mem, CutAt(xs, k, 1), bs[..k] + bs[k + 1..])
  {
  }

  lemma BigOutsideRemove(s: State, k: nat, mapped: map<int, int>)
    requires BigOutside(s) && k < |s.big|
    ensures BigOutside(s.(big := s.big[..k] + s.big[k + 1..], mapped := mapped))
  {
  }

  /** Unlinking a large chunk. */
  lemma DetachBigRep(mem: Memory, head: seq<int>, lists: seq<seq<int>>, s: State, k: nat,
                     mem': Memory, head': seq<int>, lists': seq<seq<int>>)
    requires Rep(mem, head, lists, s) && k < |s.big|
    requires k < |lists[MMAP_LIST]|
    requires lists' == lists[MMAP_LIST := CutAt(lists[MMAP_LIST], k, 1)]
    requires Linked(mem', head', lists') && SameInfo(mem, mem')
    ensures BigSize(s.big, s.big[k].addr) == s.big[k].size
    ensures Rep(mem', head', lists', s.(big := BigRemove(s.big, s.big[k].addr),
                                        mapped := Munmap(s.mapped, s.big[k].addr, s.big[k].size)))
  {
    FirstOfAddr(s.big, s.mapped, k);
    hide Munmap;
    hide Linked, BigRemove, BigSize, SameInfo, HeadersMatch, BinsMatch, HasHeader, BigMatch, BigOk, CutAt, BigOutside;
    DetachBigMatch(mem, lists[MMAP_LIST], s.big, k);
    BigOutsideRemove(s, k, Munmap(s.mapped, s.big[k].addr, s.big[k].size));
    BigRemoveOk(s.big, s.mapped, k);
    BigRemoveAt(s.big, k);
    SameBins(lists, lists', s.region);
    HeadersSame(mem, mem', s.region, lists'[MMAP_LIST], BigRemove(s.big, s.big[k].addr));
  }

  lemma FirstOfAddr(bs: seq<Big>, mapped: map<int, int>, k: nat)
    requires BigOk(bs, mapped) && k < |bs|
    ensures forall j :: 0 <= j < k ==> bs[j].addr != bs[k].addr
  {
  }

  /** Writing the header of a page that is not in use. */
  lemma PageRep(mem: Memory, head: seq<int>, lists: seq<seq<int>>, s: State, page: int, bytes: int,
                h: Header)
    requires Rep(mem, head, lists, s) && FreshPage(s, page, bytes) && 0 < bytes
    ensures Unlisted(lists, page) && page != NULL
    ensures Rep(mem[page := h], head, lists, s)
  {
    PageNotListed(s, page, bytes);
    hide Linked, HeadersMatch, BigMatch, BigOk, Ascending, ClearOf;
    AllocatedNodes(mem, head, lists, s, page);
    forall u | 0 <= u < |lists|
      ensures page !in lists[u]
    {
      assert u <= TOP ==> (page in lists[u] <==> InBin(s.region, u, page));
    }
    WriteUnlinked(mem, head, lists, page, h);
    HeadersElsewhere(mem, s.region, lists[MMAP_LIST], s.big, page, h);
  }

  lemma PageNotListed(s: State, page: int, bytes: int)
    requires BigOk(s.big, s.mapped) && FreshPage(s, page, bytes) && 0 < bytes
    ensures !BigHas(s.big, page)
  {
    MmapOk(s.mapped, page, bytes);
    hide MappedOk, ClearOf;
    assert forall k :: 0 <= k < |s.big| ==> EntryOk(s.big[k], s.mapped);
  }

  /** The first heap request: an empty region at `brk`, and the list of large chunks dropped. */
  lemma ResetRep(mem: Memory, head: seq<int>, lists: seq<seq<int>>, s: State, brk: int)
    requires Rep(mem, head, lists, s) && s.region == map[] && 0 <= brk
    ensures |head| == LISTS && head[HEAP_LIST] == NULL
    ensures Rep(mem, seq(LISTS, _ => NULL), seq(LISTS, _ => []), s.(ready := true, base := brk, big := []))
  {
    EmptyOrMember(lists[HEAP_LIST]);
    assert IsList(mem, head[HEAP_LIST], lists[HEAP_LIST]);
    var lists': seq<seq<int>> := seq(LISTS, _ => []);
    assert forall v :: 0 <= v < LISTS ==> lists'[v] == [];
    assert IsList(mem, NULL, []);
  }

  /** Writing the header of a held chunk. */
  lemma LabelRep(mem: Memory, head: seq<int>, lists: seq<seq<int>>, s: State, x: int, h: Header)
    requires Rep(mem, head, lists, s) && x in s.region && s.region[x].tag == Held
    ensures Unlisted(lists, x) && x != NULL
    ensures Rep(mem[x := h], head, lists, s)
  {
    UnlistedInRegion(lists, s, mem, x);
    WriteUnlinked(mem, head, lists, x, h);
    HeadersElsewhere(mem, s.region, lists[MMAP_LIST], s.big, x, h);
  }

  /** The head of a bin's list is its lowest chunk. */
  lemma HeadIsLowest(lists: seq<seq<int>>, m: Region, v: nat)
    requires BinsMatch(lists, m) && v <= TOP
    ensures lists[v] != [] <==> NonEmpty(m, v)
    ensures lists[v] != [] ==> lists[v][0] == Lowest(m, v)
  {
    if NonEmpty(m, v) {
      var a := Lowest(m, v);
      assert IsLowest(m, v, a) && a in lists[v];
      assert lists[v][0] in lists[v];
    }
    if lists[v] != [] {
      assert lists[v][0] in lists[v];
      assert InBin(m, v, lists[v][0]);
    }
  }

  /** The lowest head above `index` is the lowest chunk of all bins above `index`. */
  lemma LowestHeadIsSource(lists: seq<seq<int>>, m: Region, index: nat, v: nat)
    requires BinsMatch(lists, m) && index < v <= TOP && lists[v] != []
    requires forall a :: a in m ==> m[a].cls <= TOP
    requires forall u :: index < u <= TOP && lists[u] != [] ==> lists[v][0] <= lists[u][0]
    ensures InBin(m, v, lists[v][0])
    ensures LargerFree(m, index, lists[v][0])
    ensures Source(m, index) == lists[v][0]
  {
    assert lists[v][0] in lists[v];
    assert InBin(m, v, lists[v][0]);
    assert LargerFree(m, index, lists[v][0]);
    var a := Source(m, index);
    assert IsSource(m, index, a);
    var u := m[a].cls;
    assert InBin(m, u, a);
    assert a in lists[u];
    assert lists[u][0] <= a;
  }

  /** Some bin above `index` has a head, when there is a larger free chunk. */
  lemma SomeHead(lists: seq<seq<int>>, m: Region, index: nat) returns (u: nat)
    requires BinsMatch(lists, m) && !NonEmpty(m, index) && HasRoom(m, index)
    requires forall a :: a in m ==> m[a].cls <= TOP
    ensures index < u <= TOP && lists[u] != []
  {
    var a :| LargerFree(m, index, a);
    u := m[a].cls;
    assert InBin(m, u, a);
    assert a in lists[u];
  }

  /** The nodes at `p` and `p + 1` are `size` bytes apart. */
  ghost predicate Neighbours(xs: seq<int>, size: int, p: int) {
    0 <= p && p + 1 < |xs| && xs[p + 1] == xs[p] + size
  }

  /** Two touching chunks of a bin are neighbours in its list. */
  lemma PairsAreNeighbours(base: int, m: Region, i: nat, xs: seq<int>, a: int)
    requires Tiles(base, m) && Ascending(xs) && (forall x :: x in xs <==> InBin(m, i, x))
    requires Touching(m, i, a)
    ensures exists p :: Neighbours(xs, Size(i), p) && xs[p] == a
  {
    assert a in xs && a + Size(i) in xs;
    var p :| 0 <= p < |xs| && xs[p] == a;
    var q :| 0 <= q < |xs| && xs[q] == a + Size(i);
    assert xs[p + 1] in xs;
    assert Apart(a, m[a], xs[p + 1], m[xs[p + 1]]);
    assert Neighbours(xs, Size(i), p);
  }

  /** The first pair of touching neighbours is the lowest pair of the bin. */
  lemma FirstNeighboursAreFirst(base: int, m: Region, i: nat, xs: seq<int>, j: nat)
    requires Tiles(base, m) && Ascending(xs) && (forall x :: x in xs <==> InBin(m, i, x))
    requires Neighbours(xs, Size(i), j)
    requires forall p :: 0 <= p < j ==> !Neighbours(xs, Size(i), p)
    ensures IsFirstPair(m, i, xs[j])
  {
    hide Tiles;
    assert xs[j] in xs && xs[j + 1] in xs;
    forall b | Touching(m, i, b)
      ensures xs[j] <= b
    {
      PairsAreNeighbours(base, m, i, xs, b);
      var p :| Neighbours(xs, Size(i), p) && xs[p] == b;
      assert j <= p;
    }
  }

  lemma NoNeighboursNoPair(base: int, m: Region, i: nat, xs: seq<int>)
    requires Tiles(base, m) && Ascending(xs) && (forall x :: x in xs <==> InBin(m, i, x))
    requires forall p :: 0 <= p < |xs| ==> !Neighbours(xs, Size(i), p)
    ensures !HasPair(m, i)
  {
    if b :| Touching(m, i, b) {
      PairsAreNeighbours(base, m, i, xs, b);
      assert false;
    }
  }

  // ---------------------------------------------------------------- one state, one way to represent it

  lemma BinsUnique(lists: seq<seq<int>>, lists': seq<seq<int>>, m: Region, v: nat)
    requires BinsMatch(lists, m) && BinsMatch(lists', m) && v <= HEAP_LIST
    ensures lists[v] == lists'[v]
  {
    hide Ascending;
    forall x
      ensures x in lists[v] <==> x in lists'[v]
    {
      assert v <= TOP ==> (x in lists[v] <==> InBin(m, v, x)) && (x in lists'[v] <==> InBin(m, v, x));
    }
    AscendingUnique(lists[v], lists'[v]);
  }

  /** The state determines all thirteen lists and their heads. */
  lemma RepUnique(mem: Memory, head: seq<int>, lists: seq<seq<int>>,
                  mem': Memory, head': seq<int>, lists': seq<seq<int>>, s: State)
    requires Rep(mem, head, lists, s) && Rep(mem', head', lists', s)
    ensures lists == lists' && head == head'
  {
    HeadsOf(mem, head, lists, s);
    HeadsOf(mem', head', lists', s);
    forall v | 0 <= v < LISTS
      ensures lists[v] == lists'[v]
    {
      if v <= HEAP_LIST {
        BinsUnique(lists, lists', s.region, v);
      }
    }
  }

  /** It determines the header of every chunk on them as well. */
  lemma HeaderUnique(mem: Memory, head: seq<int>, lists: seq<seq<int>>,
                     mem': Memory, head': seq<int>, lists': seq<seq<int>>, s: State, v: nat, k: nat)
    requires Rep(mem, head, lists, s) && Rep(mem', head', lists', s) && v < LISTS && k < |lists[v]|
    ensures var x := lists[v][k];
            x in mem && x in mem' && mem[x] == mem'[x]
  {
    RepUnique(mem, head, lists, mem', head', lists', s);
    assert IsList(mem, head[v], lists[v]) && IsList(mem', head[v], lists[v]);
    var x := lists[v][k];
    assert x in lists[v];
    if v == MMAP_LIST {
      assert HasHeader(mem, x, s.big[k].size, true, true) && HasHeader(mem', x, s.big[k].size, true, true);
    } else {
      assert v <= TOP ==> InBin(s.region, v, x);
      var c := s.region[x];
      assert HasHeader(mem, x, Size(c.cls), c.tag == Live, false);
      assert HasHeader(mem', x, Size(c.cls), c.tag == Live, false);
    }
  }

  /** The lists determine the free chunks, so with the same live ones they determine the region. */
  lemma RegionUnique(base: int, base': int, m: Region, m': Region, lists: seq<seq<int>>)
    requires BinsMatch(lists, m) && BinsMatch(lists, m') && Settled(base, m) && Settled(base', m')
    requires SameLive(m, m')
    ensures m == m'
  {
    ClassesBounded(base, m);
    ClassesBounded(base', m');
    hide Tiles, Ascending;
    forall x
      ensures x in m ==> x in m' && m'[x] == m[x]
      ensures x in m' ==> x in m && m[x] == m'[x]
    {
      if x in m {
        ChunkListed(m, m', lists, x);
      }
      if x in m' {
        ChunkListed(m', m, lists, x);
      }
    }
  }

  lemma ChunkListed(m: Region, m': Region, lists: seq<seq<int>>, x: int)
    requires BinsMatch(lists, m) && BinsMatch(lists, m')
    requires x in m && m[x].tag != Held && m[x].cls <= TOP
    requires SameLive(m, m')
    ensures x in m' && m'[x] == m[x]
  {
    var c := m[x];
    if c.tag == Live {
      assert LiveAt(m, x, c.cls);
    } else {
      assert x in lists[c.cls] <==> InBin(m, c.cls, x);
      assert x in lists[c.cls] <==> InBin(m', c.cls, x);
    }
  }

  lemma SameListsIff(mem: Memory, head: seq<int>, lists: seq<seq<int>>, s: State,
                     mem': Memory, head': seq<int>, lists': seq<seq<int>>, s': State)
    requires Rep(mem, head, lists, s) && Rep(mem', head', lists', s') && s' == s.(region := s'.region)
    requires Settled(s.base, s.region) && Settled(s.base, s'.region)
    requires SameLive(s.region, s'.region)
    ensures lists == lists' && head == head' <==> s == s'
  {
    hide Rep, BinsMatch, SameLive, Settled;
    if s == s' {
      RepUnique(mem, head, lists, mem', head', lists', s);
    } else if lists == lists' {
      RepBins(mem, head, lists, s);
      RepBins(mem', head', lists', s');
      RegionUnique(s.base, s.base, s.region, s'.region, lists);
    }
  }

  /** The lists before a heap request and those after the free of what it got are the same under the
      condition under which the state is. */
  lemma MallocFreeListsIff(s: State, bytes: int, brk: int, page: int, s1: State, data: int, s2: State, size: int,
                           mem: Memory, head: seq<int>, lists: seq<seq<int>>,
                           mem': Memory, head': seq<int>, lists': seq<seq<int>>)
    requires Inv(s) && CanMalloc(s, bytes, brk, page) && !IsLarge(bytes)
    requires AfterMalloc(s, bytes, brk, page) == (s1, data) && AfterFree(s1, data - s1.base) == Some((s2, size))
    requires Rep(mem, head, lists, Prepared(s, bytes, brk)) && Rep(mem', head', lists', s2)
    ensures var m, i, a := Prepared(s, bytes, brk).region, GetProperBin(bytes + HEADER), data - HEADER;
            && 0 <= i && a in m
            && (lists == lists' && head == head' <==> !HasPair(m, m[a].cls) || (i < TOP && m[a].cls == TOP))
  {
    hide Rep, HasPair, HasRoom, GetProperBin, AfterMalloc, AfterFree, Inv, SameLive, Size, Settled, Prepared;
    MallocFreeIdentityIff(s, bytes, brk, page, s1, data);
    MallocFreeKeeps(s, bytes, brk, page, s1, data, s2, size);
    SameListsIff(mem, head, lists, Prepared(s, bytes, brk), mem', head', lists', s2);
  }
}
