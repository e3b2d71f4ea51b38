/** The allocator: list heads and headers in memory, edited in place. */
module HwMalloc {
  import opened Options
  import opened Sizes
  import opened HeapRegion
  import opened HeapLaws
  import opened HeapState
  import opened ChunkLists
  import opened ListsOfRegion

  class Allocator {
    var firstTime: bool
    var startBrk: int
    var head: seq<int>
    var mem: Memory

    ghost var lists: seq<seq<int>>
    ghost var st: State

    ghost predicate Shape()
      reads this
    {
      |lists| == LISTS && Linked(mem, head, lists)
    }

    /** Heads, links and headers represent `st`, in which chunks may be held. */
    ghost predicate Represents()
      reads this
    {
      Rep(mem, head, lists, st) && firstTime == st.ready && startBrk == st.base
    }

    ghost predicate Valid()
      reads this
      ensures Valid() ==> Inv(st)
    {
      Represents() && RegionOk(st) && Unheld(st.region)
    }

    constructor ()
      ensures Valid() && st == START
    {
      firstTime, startBrk := false, 0;
      head := seq(LISTS, _ => NULL);
      mem := map[];
      lists := seq(LISTS, _ => []);
      st := START;
    }

    /** The abstract state fixes all lists, so that what is proved of states holds of the lists. */
    twostate lemma SameLists()
      requires old(Valid()) && Valid() && st == old(st)
      ensures lists == old(lists) && head == old(head)
    {
      RepUnique(old(mem), old(head), old(lists), mem, head, lists, st);
    }

    // -------------------------------------------------------------- headers and lists

    method NewNode(address: int, curr: int, alloc: bool, mmap: bool)
      requires Shape() && address != NULL && Unlisted(lists, address)
      modifies `mem
      ensures Shape()
      ensures mem == old(mem)[address := Header(Field31(curr), alloc, mmap, NULL, NULL)]
    {
      WriteUnlinked(mem, head, lists, address, Header(Field31(curr), alloc, mmap, NULL, NULL));
      mem := mem[address := Header(Field31(curr), alloc, mmap, NULL, NULL)];
    }

    /** The block that makes `node` the head of list `v`. */
    method LinkFirst(v: nat, node: int)
      requires Shape() && v < LISTS
      requires node != NULL && node in mem && mem[node].next == NULL && mem[node].prev == NULL
      requires Unlisted(lists, node)
      modifies `head, `mem, `lists
      ensures Shape() && SameInfo(old(mem), mem)
      ensures lists == old(lists)[v := InsertAt(old(lists[v]), 0, node)]
    {
      ghost var xs := lists[v];
      assert IsList(mem, head[v], xs);
      LinkInLinked(mem, head, lists, v, 0, node);
      if head[v] != NULL {
        mem := mem[node := mem[node].(next := head[v])];
        mem := mem[mem[node].next := mem[mem[node].next].(prev := node)];
      }
      head := head[v := node];
      assert mem == LinkIn(old(mem), xs, 0, node);
      lists := lists[v := InsertAt(xs, 0, node)];
    }

    /** The block that links `node` into list `v` behind `curr`. */
    method LinkBehind(v: nat, curr: int, node: int, ghost k: nat)
      requires Shape() && v < LISTS
      requires 0 < k <= |lists[v]| && lists[v][k - 1] == curr
      requires node != NULL && node in mem && mem[node].next == NULL && mem[node].prev == NULL
      requires Unlisted(lists, node)
      modifies `head, `mem, `lists
      ensures Shape() && SameInfo(old(mem), mem)
      ensures lists == old(lists)[v := InsertAt(old(lists[v]), k, node)]
    {
      ghost var xs := lists[v];
      assert IsList(mem, head[v], xs) && node !in xs;
      LinkInLinked(mem, head, lists, v, k, node);
      LinkBehindWrites(mem, head[v], xs, k, node);
      hide LinkIn, IsList, NoShare, Unlisted;
      mem := mem[node := mem[node].(next := mem[curr].next)];
      if mem[curr].next != NULL {
        mem := mem[mem[node].next := mem[mem[node].next].(prev := node)];
      }
      mem := mem[curr := mem[curr].(next := node)];
      mem := mem[node := mem[node].(prev := curr)];
      assert mem == LinkIn(old(mem), xs, k, node);
      assert head == head[v := head[v]];
      lists := lists[v := InsertAt(xs, k, node)];
    }

    /** The block that links `curr`, which follows `prev`, out of list `v`. */
    method UnlinkBehind(v: nat, prev: int, curr: int, ghost k: nat)
      requires Shape() && v < LISTS
      requires 0 < k < |lists[v]| && lists[v][k - 1] == prev && lists[v][k] == curr
      modifies `head, `mem, `lists
      ensures Shape() && SameInfo(old(mem), mem)
      ensures lists == old(lists)[v := CutAt(old(lists[v]), k, 1)]
      ensures curr in mem && Unlisted(lists, curr)
    {
      ghost var xs := lists[v];
      assert IsList(mem, head[v], xs);
      assert xs[k - 1] in xs && (k + 1 < |xs| ==> xs[k + 1] in xs);
      LinkOutLinked(mem, head, lists, v, k, 1);
      mem := mem[prev := mem[prev].(next := mem[mem[prev].next].next)];
      if mem[prev].next != NULL {
        mem := mem[mem[prev].next := mem[mem[prev].next].(prev := prev)];
      } else {
        mem := mem[prev := mem[prev].(next := NULL)];
      }
      assert mem == LinkOut(old(mem), xs, k, 1);
      assert head == head[v := head[v]];
      lists := lists[v := CutAt(xs, k, 1)];
    }

    /** Links `node` into list `v` behind all nodes of lower address. */
    method InsertSorted(v: nat, node: int) returns (ghost k: nat)
      requires Shape() && v < LISTS && Ascending(lists[v])
      requires node != NULL && node in mem && mem[node].next == NULL && mem[node].prev == NULL
      requires Unlisted(lists, node)
      modifies `head, `mem, `lists
      ensures Shape() && SameInfo(old(mem), mem)
      ensures k <= |old(lists[v])| && lists == old(lists)[v := InsertAt(old(lists[v]), k, node)]
      ensures Ascending(lists[v])
    {
      ghost var xs := lists[v];
      assert IsList(mem, head[v], xs) && node !in xs;
      assert forall j :: 0 <= j < |xs| ==> xs[j] != node;
      hide NoShare, Unlisted;
      k := 0;
      if head[v] == NULL || head[v] > node {
        LinkFirst(v, node);
      } else {
        var curr := head[v];
        k := 1;
        while mem[curr].next != NULL && mem[curr].next < node
          invariant 1 <= k <= |xs| && curr == xs[k - 1]
          invariant xs[k - 1] < node
          decreases |xs| - k
        {
          curr := mem[curr].next;
          k := k + 1;
        }
        LinkBehind(v, curr, node, k);
      }
      InsertAscending(xs, k, node);
    }

    /** The block that unlinks the head of list `v`. */
    method UnlinkHead(v: nat) returns (size: int)
      requires Shape() && v < LISTS && lists[v] != []
      modifies `head, `mem, `lists
      ensures Shape() && SameInfo(old(mem), mem)
      ensures lists == old(lists)[v := CutAt(old(lists[v]), 0, 1)]
      ensures var del := old(lists[v])[0]; del in old(mem) && size == old(mem)[del].size && Unlisted(lists, del)
    {
      ghost var xs := lists[v];
      assert IsList(mem, head[v], xs);
      LinkOutLinked(mem, head, lists, v, 0, 1);
      size := mem[head[v]].size;
      if mem[head[v]].next != NULL {
        head := head[v := mem[head[v]].next];
        mem := mem[head[v] := mem[head[v]].(prev := NULL)];
      } else {
        head := head[v := NULL];
      }
      assert mem == LinkOut(old(mem), xs, 0, 1);
      lists := lists[v := CutAt(xs, 0, 1)];
    }

    /** The search of a list for `del`, which is not its head: the node found and the one before it. */
    method Search(start: int, del: int, ghost xs: seq<int>) returns (prev: int, curr: int, ghost k: nat)
      requires IsList(mem, start, xs) && xs != [] && start != del
      ensures k < |xs| && curr == xs[k] && prev == At(xs, k - 1) && (curr == del ==> 0 < k)
      ensures curr == del || del !in xs
    {
      NodesOk(mem, start, xs);
      hide IsList, NoDup;
      assert NodeOk(mem, xs, 0) && NodeOk(mem, xs, 1);
      prev, curr, k := NULL, start, 0;
      while mem[curr].next != NULL && curr != del
        invariant k < |xs| && curr == xs[k] && prev == At(xs, k - 1)
        invariant mem[curr].next == At(xs, k + 1) && (k + 1 < |xs| ==> xs[k + 1] != NULL)
        invariant k == 0 ==> curr != del
        invariant forall j :: 0 <= j < k ==> xs[j] != del
        decreases |xs| - k
      {
        prev := curr;
        curr := mem[curr].next;
        k := k + 1;
        assert NodeOk(mem, xs, k) && NodeOk(mem, xs, k + 1);
      }
    }

    /** Unlinks `del` from list `v` and returns the size its header records; 0 if it is not there. */
    method DeleteNode(v: nat, del: int) returns (size: int, ghost k: nat)
      requires Shape() && v < LISTS
      modifies `head, `mem, `lists
      ensures Shape() && SameInfo(old(mem), mem)
      ensures del !in old(lists[v]) ==>
                size == 0 && head == old(head) && mem == old(mem) && lists == old(lists)
      ensures del in old(lists[v]) ==>
                && k < |old(lists[v])| && old(lists[v])[k] == del
                && del in old(mem) && size == old(mem)[del].size
                && lists == old(lists)[v := CutAt(old(lists[v]), k, 1)]
                && Unlisted(lists, del)
    {
      ListHead(mem, head, lists, v);
      hide Linked, IsList, Unlisted, SameInfo;
      SameInfoRefl(mem);
      size, k := 0, 0;
      if head[v] == NULL || del == NULL {
        return;
      }
      if head[v] == del {
        size := UnlinkHead(v);
        return;
      } else if mem[head[v]].next == NULL {
        return;
      }
      var prev, curr;
      prev, curr, k := Search(head[v], del, lists[v]);
      if curr == del {
        size := UnlinkFound(v, prev, curr, k);
      }
    }

    /** Unlinks `curr`, found behind `prev`, and clears its links. */
    method UnlinkFound(v: nat, prev: int, curr: int, ghost k: nat) returns (size: int)
      requires Shape() && v < LISTS
      requires 0 < k < |lists[v]| && lists[v][k - 1] == prev && lists[v][k] == curr
      modifies `head, `mem, `lists
      ensures Shape() && SameInfo(old(mem), mem)
      ensures lists == old(lists)[v := CutAt(old(lists[v]), k, 1)]
      ensures curr in old(mem) && size == old(mem)[curr].size && Unlisted(lists, curr)
    {
      hide Linked, Unlisted, SameInfo;
      UnlinkBehind(v, prev, curr, k);
      SizeKept(old(mem), mem, curr);
      size := mem[curr].size;
      WriteUnlinked(mem, head, lists, curr, mem[curr].(next := NULL, prev := NULL));
      SameInfoRelink(old(mem), mem, curr, NULL, NULL);
      ghost var cleared := mem[curr := mem[curr].(next := NULL, prev := NULL)];
      mem := mem[curr := mem[curr].(next := NULL)];
      mem := mem[curr := mem[curr].(prev := NULL)];
      assert mem == cleared;
    }

    /** Unlinks and returns the first node of list `v`. */
    method PopNode(v: nat) returns (tmp: int)
      requires Shape() && v < LISTS
      modifies `head, `mem, `lists
      ensures Shape() && SameInfo(old(mem), mem)
      ensures old(lists[v]) == [] ==> tmp == NULL && lists == old(lists)
      ensures old(lists[v]) != [] ==>
                && tmp == old(lists[v])[0] && lists == old(lists)[v := CutAt(old(lists[v]), 0, 1)]
                && tmp != NULL && tmp in mem && mem[tmp].next == NULL && mem[tmp].prev == NULL
                && Unlisted(lists, tmp)
    {
      ListHead(mem, head, lists, v);
      SameInfoRefl(mem);
      hide Linked, SameInfo, Unlisted, IsList;
      if head[v] == NULL {
        return NULL;
      }
      tmp := PopHead(v);
    }

    /** The part of `PopNode` for a list that is not empty. */
    method PopHead(v: nat) returns (tmp: int)
      requires Shape() && v < LISTS && lists[v] != []
      modifies `head, `mem, `lists
      ensures Shape() && SameInfo(old(mem), mem)
      ensures tmp == old(lists[v])[0] && lists == old(lists)[v := CutAt(old(lists[v]), 0, 1)]
      ensures tmp != NULL && tmp in mem && mem[tmp].next == NULL && mem[tmp].prev == NULL && Unlisted(lists, tmp)
    {
      ghost var xs := lists[v];
      assert IsList(mem, head[v], xs);
      LinkOutLinked(mem, head, lists, v, 0, 1);
      tmp := head[v];
      ghost var cleared := LinkOut(mem, xs, 0, 1)[tmp := mem[tmp].(next := NULL, prev := NULL)];
      WriteUnlinked(LinkOut(mem, xs, 0, 1), head[v := At(xs, 1)], lists[v := CutAt(xs, 0, 1)], tmp,
                    mem[tmp].(next := NULL, prev := NULL));
      if mem[head[v]].next == NULL && mem[head[v]].prev == NULL {
        head := head[v := NULL];
      } else {
        head := head[v := mem[head[v]].next];
        mem := mem[head[v] := mem[head[v]].(prev := NULL)];
        mem := mem[tmp := mem[tmp].(next := NULL)];
        mem := mem[tmp := mem[tmp].(prev := NULL)];
      }
      assert mem == cleared;
      lists := lists[v := CutAt(xs, 0, 1)];
    }

    // -------------------------------------------------------------- chunks

    /** Links the held chunk at `node` into its bin, or into the heap list. */
    method Attach(v: nat, node: int, ghost t: Tag)
      requires Represents() && v <= HEAP_LIST
      requires node in st.region && st.region[node].tag == Held
      requires if v == HEAP_LIST then t == Live else t == Free && v == st.region[node].cls
      requires HasHeader(mem, node, Size(st.region[node].cls), t == Live, false)
      requires mem[node].next == NULL && mem[node].prev == NULL
      modifies `head, `mem, `lists, `st
      ensures Represents() && SameInfo(old(mem), mem)
      ensures st == old(st).(region := old(st.region)[node := Chunk(old(st.region)[node].cls, t)])
    {
      LabelRep(mem, head, lists, st, node, mem[node]);
      assert Ascending(lists[v]);
      ghost var s := st;
      ghost var k := InsertSorted(v, node);
      hide *;
      AttachRep(old(mem), old(head), old(lists), s, v, k, node, t, mem, head, lists);
      st := st.(region := st.region[node := Chunk(st.region[node].cls, t)]);
    }

    /** Writes a header for the held chunk at `node`. */
    method Label(node: int, curr: int, alloc: bool)
      requires Represents()
      requires node in st.region && st.region[node].tag == Held
      requires 0 <= curr < 0x4000_0000
      modifies `mem
      ensures Represents()
      ensures mem == old(mem)[node := Header(curr, alloc, false, NULL, NULL)]
    {
      LabelRep(mem, head, lists, st, node, Header(curr, alloc, false, NULL, NULL));
      Field31Faithful(curr);
      NewNode(node, curr, alloc, false);
    }

    /** Unlinks a chunk from the list it is on, and returns the size its header records. */
    method Detach(v: nat, del: int) returns (size: int)
      requires Represents() && v <= HEAP_LIST && del in lists[v] && del in st.region
      modifies `head, `mem, `lists, `st
      ensures Represents() && SameInfo(old(mem), mem)
      ensures del in mem && size == mem[del].size
      ensures st == old(st).(region := old(st.region)[del := Chunk(old(st.region)[del].cls, Held)])
    {
      hide Rep, Linked, SameInfo, Unlisted, Size;
      RepShape(mem, head, lists, st);
      ghost var s, k := st, 0;
      size, k := DeleteNode(v, del);
      SizeKept(old(mem), mem, del);
      DetachOneRep(old(mem), old(head), old(lists), s, v, k, del, mem, head, lists);
      st := st.(region := st.region[del := Chunk(st.region[del].cls, Held)]);
    }

    /** Writes a header for a new chunk of class `j` and puts it into its bin. */
    method InsertNew(address: int, j: nat)
      requires Represents() && j <= TOP
      requires address !in st.region && 0 < address && st.base <= address < st.base + HEAP_BYTES
      modifies `head, `mem, `lists, `st
      ensures Represents()
      ensures st == old(st).(region := old(st.region)[address := Chunk(j, Free)])
    {
      hide Rep, Linked, Size;
      HeldRep(mem, head, lists, st, address, j);
      st := st.(region := st.region[address := Chunk(j, Held)]);
      CorrespondIsSize(j);
      SizeBound(j);
      Label(address, CorrespondBytes(j + 5), false);
      Attach(j, address, Free);
      assert st.region == old(st.region)[address := Chunk(j, Free)];
    }

    /** Unlinks the first chunk of a bin, which is its lowest one. */
    method TakeFirst(index: nat) returns (pop: int)
      requires Represents() && index <= TOP && NonEmpty(st.region, index)
      modifies `head, `mem, `lists, `st
      ensures Represents() && pop == Lowest(old(st.region), index)
      ensures st == old(st).(region := old(st.region)[pop := Chunk(index, Held)])
      ensures HasHeader(mem, pop, Size(index), false, false)
      ensures mem[pop].next == NULL && mem[pop].prev == NULL
    {
      ghost var s := st;
      HeadIsLowest(lists, st.region, index);
      assert IsLowest(st.region, index, Lowest(st.region, index));
      assert HasHeader(mem, Lowest(st.region, index), Size(index), false, false);
      hide Rep, Linked, Size, IsLowest;
      pop := PopNode(index);
      DetachOneRep(old(mem), old(head), old(lists), s, index, 0, pop, mem, head, lists);
      st := st.(region := st.region[pop := Chunk(index, Held)]);
    }

    // -------------------------------------------------------------- allocation

    /** Takes the first chunk of a bin. */
    method NormalAllocate(index: nat) returns (data: int)
      requires Valid() && index <= TOP && NonEmpty(st.region, index)
      modifies `head, `mem, `lists, `st
      ensures Valid()
      ensures HasRoom(old(st.region), index)
      ensures data == Taken(old(st.region), index) + HEADER
      ensures st == old(st).(region := Allocate(old(st.region), index))
    {
      hide Rep, Linked, Size, Allocate, Taken, NonEmpty, HasRoom, Unheld, RegionOk;
      AllocateFromBin(st.region, index);
      AllocateKeepsOk(st, index);
      var pop := TakeFirst(index);
      LabelRep(mem, head, lists, st, pop, mem[pop].(inUse := true));
      mem := mem[pop := mem[pop].(inUse := true)];
      Attach(HEAP_LIST, pop, Live);
      assert st.region == old(st.region)[pop := Chunk(index, Live)];
      data := pop + HEADER;
    }

    /** The scan of the bin heads above `index` for the lowest one. */
    method ScanHeads(index: nat) returns (splitIndex: int)
      requires |head| == LISTS && index <= TOP
      ensures splitIndex == -1 ==>
                forall u :: index < u <= TOP && head[u] != NULL ==> startBrk + HEAP_BYTES <= head[u]
      ensures splitIndex != -1 ==>
                && index < splitIndex <= TOP && head[splitIndex] != NULL
                && forall u :: index < u <= TOP && head[u] != NULL ==> head[splitIndex] <= head[u]
    {
      splitIndex := -1;
      var tmp := startBrk + HEAP_BYTES;
      for i := index + 1 to TOP + 1
        invariant splitIndex == -1 ==> tmp == startBrk + HEAP_BYTES
        invariant splitIndex != -1 ==>
                    index < splitIndex < i && head[splitIndex] != NULL && tmp == head[splitIndex]
        invariant forall u :: index < u < i && head[u] != NULL ==> tmp <= head[u]
      {
        if head[i] != NULL && head[i] < tmp {
          tmp := head[i];
          splitIndex := i;
        }
      }
    }

    /** The lowest bin head above `index` is the lowest chunk of all these bins. */
    method FindLowestHead(index: nat) returns (splitIndex: int)
      requires Valid() && index <= TOP && !NonEmpty(st.region, index) && HasRoom(st.region, index)
      ensures index < splitIndex <= TOP
      ensures |head| == LISTS && lists[splitIndex] != [] && head[splitIndex] == lists[splitIndex][0]
      ensures exists a :: LargerFree(st.region, index, a)
      ensures lists[splitIndex][0] == Source(st.region, index)
      ensures InBin(st.region, splitIndex, lists[splitIndex][0])
    {
      RepBins(mem, head, lists, st);
      hide Rep, BinsMatch, Tiles, Unheld, LargerFree, InBin, NonEmpty, HasRoom;
      HeadsInRegion(mem, head, lists, st);
      ClassesBounded(st.base, st.region);
      ghost var w := SomeHead(lists, st.region, index);
      splitIndex := ScanHeads(index);
      LowestHeadIsSource(lists, st.region, index, splitIndex);
    }

    /** Splits the lowest larger chunk down to class `index`. */
    method SplitToAllocate(index: nat) returns (data: int)
      requires Valid() && index <= TOP && !NonEmpty(st.region, index) && HasRoom(st.region, index)
      modifies `head, `mem, `lists, `st
      ensures Valid()
      ensures data == Taken(old(st.region), index) + HEADER
      ensures st == old(st).(region := Allocate(old(st.region), index))
    {
      hide Rep, Linked, Size, Allocate, Taken, NonEmpty, Unheld, Tiles, LargerFree, IsSource, Halved;
      var splitIndex := FindLowestHead(index);
      ghost var s, m, k := st, st.region, splitIndex;
      AllocateFromSource(m, index);
      AllocateKeepsOk(st, index);
      CorrespondIsSize(index);
      SizeBound(index);
      var theRoot := head[splitIndex];
      assert m[theRoot] == Chunk(k, Free) && s.ready && Tiles(s.base, m);
      var _ := Detach(splitIndex, theRoot);
      HalvedNone(m, theRoot, k, Held);
      splitIndex := splitIndex - 1;
      while splitIndex >= index
        invariant index - 1 <= splitIndex < k
        invariant Represents() && st == s.(region := Halved(m, theRoot, k, splitIndex + 1, Held))
      {
        HalveOnce(s.base, m, theRoot, k, splitIndex);
        CorrespondIsSize(splitIndex);
        var address := theRoot + CorrespondBytes(splitIndex + 5);
        InsertNew(address, splitIndex);
        HeldRep(mem, head, lists, st, theRoot, splitIndex);
        st := st.(region := st.region[theRoot := Chunk(splitIndex, Held)]);
        splitIndex := splitIndex - 1;
      }
      HalvedRetag(m, theRoot, k, index, Held, Live);
      HalvedTiles(s.base, m, theRoot, k, index, Held);
      Label(theRoot, CorrespondBytes(index + 5), true);
      Attach(HEAP_LIST, theRoot, Live);
      data := theRoot + HEADER;
    }

    method HeapAllocate(index: nat) returns (data: int)
      requires Valid() && index <= TOP && HasRoom(st.region, index)
      modifies `head, `mem, `lists, `st
      ensures Valid()
      ensures data == Taken(old(st.region), index) + HEADER
      ensures st == old(st).(region := Allocate(old(st.region), index))
    {
      HeadsOf(mem, head, lists, st);
      HeadIsLowest(lists, st.region, index);
      if head[index] == NULL {
        data := SplitToAllocate(index);
      } else {
        data := NormalAllocate(index);
      }
    }

    /** Carves the fresh region into one chunk of each class from the top down to `index`, and one more
        of class `index`. */
    method SplitToIndex(index: nat)
      requires Represents() && index <= TOP && st.ready && 0 < st.base && st.region == map[]
      modifies `head, `mem, `lists, `st
      ensures Valid()
      ensures st == old(st).(region := Carved(old(st.base), index))
    {
      hide Rep, Size, Tiles, CarvedFrom, Unheld;
      ghost var s := st;
      var i: int := TOP;
      var root := startBrk;
      CarvedNone(root);
      while i >= index
        invariant index - 1 <= i <= TOP
        invariant Represents() && st == s.(region := CarvedFrom(root, i + 1))
      {
        CarveOnce(root, i);
        CorrespondIsSize(i);
        var address := root + CorrespondBytes(i + 5);
        InsertNew(address, i);
        i := i - 1;
      }
      CarveLast(root, index);
      InsertNew(root, index);
    }

    // -------------------------------------------------------------- large chunks

    /** The search of the list of large chunks for the node behind which to insert a larger size. */
    method FindPlace(size: int) returns (curr: int, ghost k: nat)
      requires Represents() && st.big != [] && st.big[0].size <= size
      ensures 0 < k <= |st.big| == |lists[MMAP_LIST]| && curr == lists[MMAP_LIST][k - 1]
      ensures forall j :: 0 < j < k ==> st.big[j].size < size
      ensures k < |st.big| ==> st.big[k].size >= size
    {
      hide Rep;
      BigNode(mem, head, lists, st, 0);
      ghost var xs, bs := lists[MMAP_LIST], st.big;
      BigNode(mem, head, lists, st, 1);
      curr, k := head[MMAP_LIST], 1;
      while mem[curr].next != NULL && mem[mem[curr].next].size < size
        invariant 1 <= k <= |xs| && curr == xs[k - 1] && curr in mem && mem[curr].next == At(xs, k)
        invariant k < |xs| ==> xs[k] in mem && xs[k] != NULL && mem[xs[k]].size == bs[k].size
        invariant forall j :: 0 < j < k ==> bs[j].size < size
        decreases |xs| - k
      {
        BigNode(mem, head, lists, st, k);
        BigNode(mem, head, lists, st, k + 1);
        curr := mem[curr].next;
        k := k + 1;
      }
    }

    /** Links `node` into the list of large chunks by the size its header records. */
    method MmapInsertSorted(node: int) returns (ghost k: nat)
      requires Represents()
      requires node != NULL && node in mem && mem[node].next == NULL && mem[node].prev == NULL
      requires Unlisted(lists, node)
      modifies `head, `mem, `lists
      ensures Shape() && SameInfo(old(mem), mem)
      ensures k <= |st.big| == |old(lists[MMAP_LIST])|
      ensures lists == old(lists)[MMAP_LIST := InsertAt(old(lists[MMAP_LIST]), k, node)]
      ensures var b := Big(node, mem[node].size); BigInsert(st.big, b) == st.big[..k] + [b] + st.big[k..]
    {
      ghost var bs, b := st.big, Big(node, mem[node].size);
      RepShape(mem, head, lists, st);
      hide Rep, Linked, BigInsert;
      BigNode(mem, head, lists, st, 0);
      k := 0;
      if head[MMAP_LIST] == NULL || mem[head[MMAP_LIST]].size > mem[node].size {
        BigInsertAt(bs, b, k);
        LinkFirst(MMAP_LIST, node);
      } else {
        var curr;
        curr, k := FindPlace(mem[node].size);
        BigInsertAt(bs, b, k);
        LinkBehind(MMAP_LIST, curr, node, k);
      }
    }

    /** A new mapping at `page` for a request of `bytes` bytes, header included. */
    method MmapAllocate(bytes: int, page: int) returns (data: int)
      requires Valid() && FreshPage(st, page, bytes) && 0 < bytes
      modifies `head, `mem, `lists, `st
      ensures Valid() && data == page + HEADER
      ensures st == old(st).(big := BigInsert(old(st.big), Big(page, Field31(bytes))),
                             mapped := old(st.mapped)[page := bytes])
    {
      hide Linked, BinsMatch, HeadersMatch, BigMatch, BigOk, BigOutside, Unheld, InBounds, Tiles, Unlisted, ClearOf;
      ghost var s := st;
      PageRep(mem, head, lists, st, page, bytes, Header(Field31(bytes), true, true, NULL, NULL));
      NewNode(page, bytes, true, true);
      label Written:
      ghost var k := MmapInsertSorted(page);
      AttachBigRep(old@Written(mem), old@Written(head), old@Written(lists), s, k, page, bytes, mem, head, lists);
      st := st.(big := BigInsert(s.big, Big(page, Field31(bytes))), mapped := s.mapped[page := bytes]);
      data := page + HEADER;
    }

    // -------------------------------------------------------------- merging

    /** The four ways to link `curr` and the node behind it out of list `v`. */
    method UnlinkPair(v: nat, prev: int, curr: int, ghost k: nat)
      requires Shape() && v < LISTS
      requires k + 1 < |lists[v]| && lists[v][k] == curr && prev == At(lists[v], k - 1)
      modifies `head, `mem, `lists
      ensures Shape() && SameInfo(old(mem), mem)
      ensures lists == old(lists)[v := CutAt(old(lists[v]), k, 2)]
    {
      ghost var xs := lists[v];
      assert IsList(mem, head[v], xs) && |head| == LISTS;
      LinkOutLinked(mem, head, lists, v, k, 2);
      PairWrites(mem, head[v], xs, k);
      hide LinkOut, Linked, IsList, Unlisted, CutAt, SameInfo;
      assert Unlisted(lists[v := CutAt(xs, k, 2)], xs[k]);
      var next := mem[curr].next;
      var last := mem[next].next;
      if last == NULL {
        if prev == NULL {
          head := head[v := NULL];
        } else {
          mem := mem[prev := mem[prev].(next := NULL)];
        }
      } else {
        if prev == NULL {
          mem := mem[last := mem[last].(prev := NULL)];
          head := head[v := last];
        } else {
          mem := mem[last := mem[last].(prev := prev)];
          mem := mem[prev := mem[prev].(next := last)];
        }
      }
      assert mem == LinkOut(old(mem), xs, k, 2);
      assert head == old(head)[v := if k == 0 then At(xs, 2) else old(head)[v]];
      lists := lists[v := CutAt(xs, k, 2)];
      WriteUnlinked(mem, head, lists, curr, mem[curr].(next := NULL));
      SameInfoRelink(old(mem), mem, curr, mem[curr].prev, NULL);
      mem := mem[curr := mem[curr].(next := NULL)];
    }

    /** Joins the first touching pair of bin `index`, and goes on with the next bin. */
    method Merge(index: nat)
      requires Valid() && st.ready && index <= TOP && NonEmpty(st.region, index)
      requires HeapRegion.Merge(st.region, index).Some?
      modifies `head, `mem, `lists, `st
      ensures Valid()
      ensures st == old(st).(region := HeapRegion.Merge(old(st.region), index).value)
      decreases TOP - index, 0
    {
      hide Rep, Linked, Size, HeapRegion.Merge, Tiles, Unheld, Join, HasPair, IsFirstPair, NonEmpty, Touching;
      var found, prev, curr, j := FindPair(index);
      if found {
        MergeOnce(st.base, st.region, index, curr);
        JoinPair(index, prev, curr, j, mem[curr].size * 2);
        if index + 1 == TOP {
          return;
        } else {
          Merge(index + 1);
        }
      } else {
        MergeNothing(st.region, index);
      }
    }

    /** The scan of a bin for its first touching pair, seen on its list. */
    method ScanBin(index: nat) returns (found: bool, prev: int, curr: int, ghost j: nat)
      requires Represents() && index <= TOP && lists[index] != []
      ensures j < |lists[index]| && lists[index][j] == curr && prev == At(lists[index], j - 1)
      ensures found <==> Neighbours(lists[index], Size(index), j)
      ensures forall p :: 0 <= p < j ==> !Neighbours(lists[index], Size(index), p)
      ensures !found ==> forall p :: 0 <= p < |lists[index]| ==> !Neighbours(lists[index], Size(index), p)
      ensures curr in mem && mem[curr].size == Size(index) && curr in st.region
    {
      hide Rep, Size, BinsMatch, Ascending;
      BinList(mem, head, lists, st, index);
      BinNode(mem, head, lists, st, index, 0);
      BinNode(mem, head, lists, st, index, 1);
      ghost var xs := lists[index];
      curr, prev, j, found := head[index], NULL, 0, false;
      if mem[curr].next == NULL {
        return;
      }
      while curr + mem[curr].size != mem[curr].next && mem[mem[curr].next].next != NULL
        invariant j + 1 < |xs| && curr == xs[j] && prev == At(xs, j - 1)
        invariant curr in mem && mem[curr].size == Size(index) && mem[curr].next == xs[j + 1] && curr in st.region
        invariant xs[j + 1] in mem && mem[xs[j + 1]].next == At(xs, j + 2)
        invariant forall p :: 0 <= p < j ==> !Neighbours(xs, Size(index), p)
        decreases |xs| - j
      {
        prev := curr;
        curr := mem[curr].next;
        j := j + 1;
        BinNode(mem, head, lists, st, index, j);
        BinNode(mem, head, lists, st, index, j + 1);
      }
      BinNode(mem, head, lists, st, index, j + 2);
      found := curr + mem[curr].size == mem[curr].next;
    }

    /** The first pair found on the list is the lowest touching pair of the bin. */
    method FindPair(index: nat) returns (found: bool, prev: int, curr: int, ghost j: nat)
      requires Valid() && st.ready && index <= TOP && NonEmpty(st.region, index)
      ensures found <==> HasPair(st.region, index)
      ensures found ==>
                && Neighbours(lists[index], Size(index), j)
                && lists[index][j] == curr && prev == At(lists[index], j - 1)
                && curr in mem && mem[curr].size == Size(index)
                && curr in st.region && IsFirstPair(st.region, index, curr)
    {
      HeadIsLowest(lists, st.region, index);
      hide Rep, Size, Tiles, Unheld, IsFirstPair, NonEmpty, Ascending, HasPair, InBin;
      found, prev, curr, j := ScanBin(index);
      BinList(mem, head, lists, st, index);
      if found {
        FirstNeighboursAreFirst(st.base, st.region, index, lists[index], j);
        FirstPairUnique(st.region, index, curr);
      } else {
        NoNeighboursNoPair(st.base, st.region, index, lists[index]);
      }
    }

    /** Replaces the touching pair at `curr` by one chunk of the next class. */
    method JoinPair(index: nat, prev: int, curr: int, ghost j: nat, size: int)
      requires Represents() && index < TOP && size == 2 * Size(index)
      requires Neighbours(lists[index], Size(index), j)
      requires lists[index][j] == curr && prev == At(lists[index], j - 1)
      requires curr in st.region
      modifies `head, `mem, `lists, `st
      ensures Represents()
      ensures st == old(st).(region := Join(old(st.region), curr, index, Held)[curr := Chunk(index + 1, Free)])
    {
      hide Rep, Linked, Join;
      RepShape(mem, head, lists, st);
      ghost var s := st;
      HeldAfterJoin(s.region, curr, index);
      UnlinkPair(index, prev, curr, j);
      DetachPairRep(old(mem), old(head), old(lists), s, index, j, mem, head, lists);
      st := st.(region := Join(s.region, curr, index, Held));
      assert Size(index + 1) == size;
      SizeBound(index + 1);
      hide Size;
      Label(curr, size, false);
      Attach(index + 1, curr, Free);
    }

    // -------------------------------------------------------------- the two calls

    /** Unlinks a large chunk, if there is one at `del`; returns its recorded size. */
    method DeleteLarge(del: int) returns (size: int)
      requires Represents()
      modifies `head, `mem, `lists, `st
      ensures Represents()
      ensures (st, size) == Unmapped(old(st), del)
      ensures !BigHas(old(st).big, del) ==> mem == old(mem) && head == old(head) && lists == old(lists)
    {
      hide Rep, Linked, BigHas, SameInfo, Unlisted, BigSize, BigRemove, Munmap;
      AllocatedNodes(mem, head, lists, st, del);
      RepShape(mem, head, lists, st);
      ghost var s, k := st, 0;
      size, k := DeleteNode(MMAP_LIST, del);
      BigNode(old(mem), old(head), old(lists), s, k);
      if size != 0 || del in old(lists)[MMAP_LIST] {
        DetachBigRep(old(mem), old(head), old(lists), s, k, mem, head, lists);
        st := st.(big := BigRemove(s.big, del), mapped := Munmap(s.mapped, del, size));
      }
    }

    /** Unlinks a live heap chunk, if there is one at `del`; returns its recorded size. */
    method DeleteLive(del: int) returns (size: int)
      requires Represents()
      modifies `head, `mem, `lists, `st
      ensures Represents()
      ensures (st, size) == Unlived(old(st), del)
      ensures size == 0 ==> mem == old(mem) && head == old(head) && lists == old(lists)
    {
      hide Rep, Linked, SameInfo, Size, Unlisted;
      AllocatedNodes(mem, head, lists, st, del);
      RepShape(mem, head, lists, st);
      ghost var s, k := st, 0;
      size, k := DeleteNode(HEAP_LIST, del);
      if size != 0 {
        DetachOneRep(old(mem), old(head), old(lists), s, HEAP_LIST, k, del, mem, head, lists);
        st := st.(region := s.region[del := Chunk(s.region[del].cls, Held)]);
      }
    }

    /** `brk` and `page` are what `sbrk` and `mmap` return. */
    method HwMalloc(bytes: int, brk: int, page: int) returns (data: int)
      requires Valid() && CanMalloc(st, bytes, brk, page)
      modifies this
      ensures Valid()
      ensures (st, data) == AfterMalloc(old(st), bytes, brk, page)
    {
      var requireByte := bytes + HEADER;
      if requireByte > MMAP_THRESHOLD {
        data := MmapAllocate(requireByte, page);
        return;
      }
      ProperBinFits(requireByte);
      if !firstTime {
        Initialise(brk, requireByte);
      }
      var index := GetProperBin(requireByte);
      data := HeapAllocate(index);
    }

    /** The block run by the first heap request. */
    method Initialise(brk: int, requireByte: int)
      requires Valid() && !st.ready && 0 < brk
      requires HEADER < requireByte <= MMAP_THRESHOLD
      modifies this
      ensures Valid()
      ensures st == old(st).(ready := true, base := brk, big := [],
                             region := Carved(brk, GetProperBin(requireByte)))
    {
      ResetRep(mem, head, lists, st, brk);
      ProperBinFits(requireByte);
      hide Rep, Linked, Carved, GetProperBin;
      firstTime := true;
      head := head[MMAP_LIST := NULL];
      startBrk := brk;
      ClearBins();
      lists := seq(LISTS, _ => []);
      st := st.(ready := true, base := brk, big := []);
      var index := GetProperBin(requireByte);
      SplitToIndex(index);
    }

    method ClearBins()
      requires |head| == LISTS && head[HEAP_LIST] == NULL && head[MMAP_LIST] == NULL
      modifies `head
      ensures head == seq(LISTS, _ => NULL)
    {
      for i := 0 to TOP + 1
        invariant |head| == LISTS && head[HEAP_LIST] == NULL && head[MMAP_LIST] == NULL
        invariant forall v :: 0 <= v < i ==> head[v] == NULL
      {
        head := head[i := NULL];
      }
    }

    method HwFree(ptr: int) returns (size: int)
      requires Valid() && AfterFree(st, ptr).Some?
      modifies this
      ensures Valid()
      ensures Some((st, size)) == AfterFree(old(st), ptr)
      ensures size == 0 && !BigHas(old(st).big, ptr - HEADER) ==>
                mem == old(mem) && head == old(head) && lists == old(lists)
    {
      hide Rep, Linked, Tiles, Unheld, AfterHeapFree;
      AllocatedNodes(mem, head, lists, st, ptr - HEADER);
      var address := ptr - HEADER;
      size := DeleteLarge(address);
      if size != 0 {
        return;
      }
      size := HeapFree(ptr);
    }

    /** The part of `hw_free` that follows when no large chunk was freed. */
    method HeapFree(ptr: int) returns (size: int)
      requires Valid() && AfterHeapFree(st, ptr).Some?
      modifies this
      ensures Valid()
      ensures Some((st, size)) == AfterHeapFree(old(st), ptr)
      ensures size == 0 ==> mem == old(mem) && head == old(head) && lists == old(lists)
    {
      hide Rep, Linked, RegionOk, Unheld, Release, HeapRegion.Merge, NonEmpty;
      ghost var s := st;
      var address := startBrk + ptr - HEADER;
      size := DeleteLive(address);
      if size == 0 {
        return 0;
      }
      ReleaseSteps(s, address);
      ghost var i := s.region[address].cls;
      ProperBinRoundTrip(i);
      SizeBound(i);
      var index := GetProperBin(size);
      Label(address, size, false);
      Attach(index, address, Free);
      Merge(index);
    }
  }
}
