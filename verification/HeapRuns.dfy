/** Calls of `hw_malloc` and `hw_free`, and what holds in every state they can reach. */
module HeapRuns {
  import opened Options
  import opened Sizes
  import opened HeapRegion
  import opened HeapLaws
  import opened HeapState

  datatype Call = MallocCall(bytes: int, brk: int, page: int) | FreeCall(mem: int)

  /** A call the code is defined for. */
  ghost predicate Enabled(s: State, c: Call) {
    match c
    case MallocCall(bytes, brk, page) => CanMalloc(s, bytes, brk, page)
    case FreeCall(mem) => AfterFree(s, mem).Some?
  }

  ghost function Step(s: State, c: Call): State
    requires Enabled(s, c)
  {
    match c
    case MallocCall(bytes, brk, page) => AfterMalloc(s, bytes, brk, page).0
    case FreeCall(mem) => AfterFree(s, mem).value.0
  }

  ghost predicate IsRun(s: State, cs: seq<Call>)
    decreases |cs|
  {
    cs == [] || (Enabled(s, cs[0]) && IsRun(Step(s, cs[0]), cs[1..]))
  }

  ghost function RunFrom(s: State, cs: seq<Call>): State
    requires IsRun(s, cs)
    decreases |cs|
  {
    if cs == [] then s else RunFrom(Step(s, cs[0]), cs[1..])
  }

  // ---------------------------------------------------------------- every state

  lemma PreparedInv(s: State, bytes: int, brk: int)
    requires Inv(s) && ValidRequest(bytes) && !IsLarge(bytes) && FreshBreak(s, brk)
    ensures Inv(Prepared(s, bytes, brk)) && Prepared(s, bytes, brk).ready
    ensures 0 <= GetProperBin(bytes + HEADER) <= TOP
    ensures !s.ready ==> HasRoom(Prepared(s, bytes, brk).region, GetProperBin(bytes + HEADER))
  {
    ProperBinFits(bytes + HEADER);
    if !s.ready {
      CarveLast(brk, GetProperBin(bytes + HEADER));
    }
  }

  lemma MallocInv(s: State, bytes: int, brk: int, page: int)
    requires Inv(s) && CanMalloc(s, bytes, brk, page)
    ensures Inv(AfterMalloc(s, bytes, brk, page).0)
  {
    hide Tiles, Unheld, BigInsert, Allocate, Taken, HasRoom, BigOk, ClearOf;
    if IsLarge(bytes) {
      BigInsertOk(s.big, s.mapped, page, bytes + HEADER);
      var k := BigInsertPlace(s.big, Big(page, Field31(bytes + HEADER)));
    } else {
      PreparedInv(s, bytes, brk);
      AllocateKeepsOk(Prepared(s, bytes, brk), GetProperBin(bytes + HEADER));
    }
  }

  lemma HeapFreeInv(s: State, mem: int)
    requires Inv(s) && AfterHeapFree(s, mem).Some?
    ensures Inv(AfterHeapFree(s, mem).value.0)
  {
    HeapFreeReleases(s, mem);
    hide AfterHeapFree;
    var a := s.base + mem - HEADER;
    if a in s.region && s.region[a].tag == Live {
      assert LiveAt(s.region, a, s.region[a].cls);
      ReleaseSafe(s.base, s.region, a, s.region[a].cls);
    }
  }

  lemma UnmappedInv(s: State, a: int)
    requires Inv(s)
    ensures Inv(Unmapped(s, a).0)
  {
    hide Tiles, Unheld, BigOk, BigRemove, BigSize, Munmap;
    if a != 0 && BigHas(s.big, a) {
      var k := FirstWith(s.big, a);
      BigRemoveAt(s.big, k);
      BigRemoveOk(s.big, s.mapped, k);
    }
  }

  lemma FreeInv(s: State, mem: int)
    requires Inv(s) && AfterFree(s, mem).Some?
    ensures Inv(AfterFree(s, mem).value.0)
  {
    hide Inv, AfterHeapFree, Unmapped;
    UnmappedInv(s, mem - HEADER);
    var (s1, size) := Unmapped(s, mem - HEADER);
    if size == 0 {
      HeapFreeInv(s1, mem);
    }
  }

  lemma FirstWith(bs: seq<Big>, a: int) returns (k: nat)
    requires BigHas(bs, a)
    ensures k < |bs| && bs[k].addr == a && forall j :: 0 <= j < k ==> bs[j].addr != a
  {
    k := 0;
    while bs[k].addr != a
      invariant k < |bs|
      invariant forall j :: 0 <= j < k ==> bs[j].addr != a
      decreases |bs| - k
    {
      k := k + 1;
      assert exists j :: 0 <= j < |bs| && bs[j].addr == a;
    }
  }

  lemma StepInv(s: State, c: Call)
    requires Inv(s) && Enabled(s, c)
    ensures Inv(Step(s, c))
  {
    match c
    case MallocCall(bytes, brk, page) => MallocInv(s, bytes, brk, page);
    case FreeCall(mem) => FreeInv(s, mem);
  }

  /** Tiling, typed chunks and an ordered list of large chunks hold in every state of every run. */
  lemma {:induction false} RunInv(s: State, cs: seq<Call>)
    requires Inv(s) && IsRun(s, cs)
    ensures Inv(RunFrom(s, cs))
    decreases |cs|
  {
    hide Inv, Enabled, Step;
    if cs != [] {
      StepInv(s, cs[0]);
      RunInv(Step(s, cs[0]), cs[1..]);
    }
  }

  /** Every byte of the region lies in one chunk and no other; that chunk is free or live. Nothing lies
      outside the region. */
  ghost predicate ByteOk(s: State, x: int) {
    && (InHeap(s.base, x) <==> Covered(s.region, x))
    && (forall a, b :: Holds(s.region, a, x) && Holds(s.region, b, x) ==> a == b)
    && (forall a :: Holds(s.region, a, x) ==>
          s.region[a].tag != Held && s.region[a].cls <= TOP && (a - s.base) % 32 == 0)
  }

  lemma ByteIsOk(s: State, x: int)
    requires Inv(s) && s.ready
    ensures ByteOk(s, x)
  {
    forall a | Holds(s.region, a, x)
      ensures InRegion(s.base, a, s.region[a]) && InHeap(s.base, x)
    {
    }
    forall a, b | Holds(s.region, a, x) && Holds(s.region, b, x)
      ensures a == b
    {
      OneHolder(s.region, a, b, x);
    }
    if Covered(s.region, x) {
      var a :| Holds(s.region, a, x);
    }
  }

  /** Tiling in every state that calls can reach from the start. */
  lemma ReachableTiling(cs: seq<Call>, x: int)
    requires IsRun(START, cs) && RunFrom(START, cs).ready
    ensures ByteOk(RunFrom(START, cs), x)
  {
    RunInv(START, cs);
    ByteIsOk(RunFrom(START, cs), x);
  }

  ghost predicate InHeap(base: int, x: int) {
    base <= x < base + HEAP_BYTES
  }

  // ---------------------------------------------------------------- one allocation

  /** A heap allocation returns an address 24 bytes into a live chunk that was wholly free, that no other
      live chunk touches, and that is less than twice as large as the request needs. */
  lemma MallocSafe(s: State, bytes: int, brk: int, page: int)
    requires Inv(s) && CanMalloc(s, bytes, brk, page) && !IsLarge(bytes)
    ensures var s0, (s', data) := Prepared(s, bytes, brk), AfterMalloc(s, bytes, brk, page);
            var i, a := GetProperBin(bytes + HEADER), data - HEADER;
            && 0 <= i <= TOP
            && LiveAt(s'.region, a, i) && s'.base <= a && a + Size(i) <= s'.base + HEAP_BYTES
            && (data - s'.base) % 32 == 24
            && bytes + HEADER <= Size(i) < 2 * (bytes + HEADER)
            && (forall x :: a <= x < a + Size(i) ==> TagByte(s0.region, Free, x))
            && (forall x :: TagByte(s'.region, Live, x) <==>
                  TagByte(s0.region, Live, x) || a <= x < a + Size(i))
            && (forall b: int, j: nat :: b != a ==> (LiveAt(s0.region, b, j) <==> LiveAt(s'.region, b, j)))
            && (forall b: int, j: nat :: b != a && LiveAt(s'.region, b, j) ==>
                  b + Size(j) <= a || a + Size(i) <= b)
            && s'.big == s0.big && s'.mapped == s.mapped && (s.ready ==> s0 == s)
  {
    hide Tiles, Unheld, TagByte, Size, LiveAt, Allocate, Taken, HasRoom, GetProperBin, BigOk, BigOutside;
    PreparedInv(s, bytes, brk);
    ProperBinFits(bytes + HEADER);
    var s0, i := Prepared(s, bytes, brk), GetProperBin(bytes + HEADER);
    AllocateSafe(s0.base, s0.region, i);
    LiveInRegion(s0.base, Allocate(s0.region, i), Taken(s0.region, i), i);
  }

  lemma LiveInRegion(base: int, m: Region, a: int, i: nat)
    requires Tiles(base, m) && LiveAt(m, a, i)
    ensures base <= a && a + Size(i) <= base + HEAP_BYTES && (a - base) % 32 == 0
  {
    assert InRegion(base, a, m[a]);
  }

  /** The same corollary for the address returned. */
  lemma MallocLowest(s: State, bytes: int, brk: int, page: int, b: int)
    requires Inv(s) && CanMalloc(s, bytes, brk, page) && !IsLarge(bytes)
    requires var m := Prepared(s, bytes, brk).region;
             && b in m && m[b].tag == Free
             && if NonEmpty(m, GetProperBin(bytes + HEADER)) then m[b].cls == GetProperBin(bytes + HEADER)
                else GetProperBin(bytes + HEADER) < m[b].cls
    ensures AfterMalloc(s, bytes, brk, page).1 - HEADER <= b
  {
    PreparedInv(s, bytes, brk);
    TakenIsLowest(Prepared(s, bytes, brk).region, GetProperBin(bytes + HEADER), b);
  }

  /** What the first heap request leaves: a live chunk of the request's own class at the start, which it returns;
      one free chunk of each class `c` from there upwards, at its own size from the start; no other chunk, and
      an empty list of large chunks. */
  lemma FirstRequest(s: State, bytes: int, brk: int, page: int, a: int, c: nat)
    requires Inv(s) && !s.ready && CanMalloc(s, bytes, brk, page) && !IsLarge(bytes)
    ensures var (s', data), i := AfterMalloc(s, bytes, brk, page), GetProperBin(bytes + HEADER);
            && 0 <= i <= TOP
            && data == brk + HEADER && s' == State(true, brk, s'.region, [], s.mapped)
            && LiveAt(s'.region, brk, i)
            && (i <= c <= TOP ==> InBin(s'.region, c, brk + Size(c)))
            && (a in s'.region && a != brk ==>
                  i <= s'.region[a].cls <= TOP && s'.region[a].tag == Free && a == brk + Size(s'.region[a].cls))
  {
    hide Tiles, Unheld, GetProperBin, Carved, Allocate, HasRoom, Taken;
    PreparedInv(s, bytes, brk);
    var i := GetProperBin(bytes + HEADER);
    CarvedExactly(brk, i, a, c);
    LowestCarved(brk, i);
    AllocateFromBin(Carved(brk, i), i);
  }

  lemma LowestCarved(base: int, i: nat)
    requires i <= TOP
    ensures NonEmpty(Carved(base, i), i) && Lowest(Carved(base, i), i) == base
  {
    hide Carved;
    var m := Carved(base, i);
    CarvedExactly(base, i, 0, i);
    assert IsLowest(m, i, Lowest(m, i));
    CarvedExactly(base, i, Lowest(m, i), i);
  }

  /** The payload lies in the region exactly for requests of at most 32744 bytes. */
  lemma PlacedInRegionIff(s: State, bytes: int, brk: int, page: int)
    requires Inv(s) && CanMalloc(s, bytes, brk, page)
    ensures var (s', data) := AfterMalloc(s, bytes, brk, page);
            s'.base <= data - HEADER < s'.base + HEAP_BYTES <==> bytes <= 32744
  {
    if !IsLarge(bytes) {
      MallocSafe(s, bytes, brk, page);
    }
  }

  /** A heap request can be served exactly when some bin from its own upwards has a chunk; the first one
      always can. */
  lemma RequestServedIff(s: State, bytes: int, brk: int, page: int)
    requires Inv(s) && 0 < bytes <= 32744 && FreshBreak(s, brk)
    ensures CanMalloc(s, bytes, brk, page) <==>
            !s.ready || exists i: nat :: GetProperBin(bytes + HEADER) <= i <= TOP && NonEmpty(s.region, i)
  {
    PreparedInv(s, bytes, brk);
    if s.ready {
      BinsWithRoom(s.base, s.region, GetProperBin(bytes + HEADER));
    }
  }

  lemma BinsWithRoom(base: int, m: Region, index: nat)
    requires Tiles(base, m) && index <= TOP
    ensures HasRoom(m, index) <==> exists i: nat :: index <= i <= TOP && NonEmpty(m, i)
  {
    ClassesBounded(base, m);
    if a :| LargerFree(m, index, a) {
      assert InBin(m, m[a].cls, a);
      assert NonEmpty(m, m[a].cls);
    }
    forall i: nat | index < i <= TOP && NonEmpty(m, i)
      ensures HasRoom(m, index)
    {
      var a :| InBin(m, i, a);
      assert LargerFree(m, index, a);
    }
    hide Tiles;
  }

  /** A large request can be served on any fresh page, which it returns. It leaves the region as it is and lists
      the page, at one place, with the byte count cut to 31 bits. */
  lemma LargeLeavesHeap(s: State, bytes: int, brk: int, page: int) returns (k: nat)
    requires 32744 < bytes < TWO_POW_64 - 24 && FreshPage(s, page, bytes + 24)
    ensures CanMalloc(s, bytes, brk, page) && k <= |s.big|
    ensures AfterMalloc(s, bytes, brk, page) ==
            (s.(big := s.big[..k] + [Big(page, Field31(bytes + 24))] + s.big[k..],
                mapped := s.mapped[page := bytes + 24]),
             page + 24)
  {
    k := BigInsertPlace(s.big, Big(page, Field31(bytes + HEADER)));
  }

  // ---------------------------------------------------------------- one free

  /** `mem` is the offset of a live heap payload. */
  ghost predicate HeapPayload(s: State, mem: int) {
    var a := s.base + mem - HEADER;
    a in s.region && s.region[a].tag == Live
  }

  /** `mem` is the address of a listed large payload. */
  ghost predicate LargePayload(s: State, mem: int) {
    BigHas(s.big, mem - HEADER)
  }

  lemma BigSizeZero(bs: seq<Big>, a: int) returns (k: nat)
    requires BigHas(bs, a)
    ensures k < |bs| && bs[k].addr == a && BigSize(bs, a) == bs[k].size
    ensures BigRemove(bs, a) == bs[..k] + bs[k + 1..]
  {
    k := FirstWith(bs, a);
    BigRemoveAt(bs, k);
  }

  lemma PayloadsDisjoint(s: State, mem: int)
    requires Inv(s)
    ensures !(HeapPayload(s, mem) && LargePayload(s, mem))
    ensures LargePayload(s, mem) ==> mem != HEADER && HEAP_BYTES <= mem - HEADER
  {
    if HeapPayload(s, mem) {
      var a := s.base + mem - HEADER;
      assert InRegion(s.base, a, s.region[a]);
    }
    if LargePayload(s, mem) {
      var k :| 0 <= k < |s.big| && s.big[k].addr == mem - HEADER;
    }
  }

  /** The cases of `hw_free`. */
  lemma FreeIs(s: State, mem: int)
    requires Inv(s)
    ensures HeapPayload(s, mem) ==>
              var a := s.base + mem - HEADER;
              AfterFree(s, mem) == match Release(s.region, a)
                                   case Some(m) => Some((s.(region := m), Size(s.region[a].cls)))
                                   case None => None
    ensures LargePayload(s, mem) ==> AfterFree(s, mem) == Some(Unmapped(s, mem - HEADER))
    ensures !HeapPayload(s, mem) && !LargePayload(s, mem) ==> AfterFree(s, mem) == Some((s, 0))
  {
    PayloadsDisjoint(s, mem);
    HeapFreeReleases(s, mem);
    HeapFreeReleases(Unmapped(s, mem - HEADER).0, mem);
    hide AfterHeapFree, Release, Inv, BigRemove, BigSize, Munmap, BigHas;
  }

  /** `hw_free` reports success exactly on a live heap payload, or on a listed large one whose recorded
      size is not 0; on an address that is neither it changes nothing. */
  lemma FreeSucceedsIff(s: State, mem: int)
    requires Inv(s) && AfterFree(s, mem).Some?
    ensures AfterFree(s, mem).value.1 != 0 <==>
            HeapPayload(s, mem) || (LargePayload(s, mem) && BigSize(s.big, mem - HEADER) != 0)
    ensures !HeapPayload(s, mem) && !LargePayload(s, mem) ==> AfterFree(s, mem) == Some((s, 0))
    ensures HeapPayload(s, mem) ==>
              AfterFree(s, mem).value.1 == Size(s.region[s.base + mem - HEADER].cls)
  {
    FreeIs(s, mem);
  }

  /** Freeing the large chunk listed at place `k` returns the size recorded for it, takes just this entry off the
      list, and unmaps that many bytes: none if it is not positive, and else all of the chunk, or as many of its
      first bytes. Nothing else changes. */
  lemma FreeLargeIs(s: State, k: nat)
    requires Inv(s) && k < |s.big|
    ensures s.big[k].addr in s.mapped
    ensures var b := s.big[k];
            var n, rest := s.mapped[b.addr], s.mapped - {b.addr};
            && b.size <= n
            && AfterFree(s, b.addr + HEADER) == Some((
                 s.(big := s.big[..k] + s.big[k + 1..],
                    mapped := if b.size <= 0 then s.mapped
                              else if b.size == n then rest
                              else rest[b.addr + b.size := n - b.size]),
                 b.size))
  {
    hide Tiles, Unheld, Field31, BigRemove, BigSize, AfterFree;
    var b := s.big[k];
    assert EntryOk(b, s.mapped);
    Field31Faithful(s.mapped[b.addr]);
    BigRemoveAt(s.big, k);
    assert LargePayload(s, b.addr + HEADER);
    FreeIs(s, b.addr + HEADER);
  }

  /** Freeing a live heap payload makes exactly its chunk's bytes free, and leaves every other live
      chunk, and all large chunks, as they were. */
  lemma FreeHeapSafe(s: State, mem: int, s': State, size: int)
    requires Inv(s) && HeapPayload(s, mem) && AfterFree(s, mem) == Some((s', size))
    ensures var a := s.base + mem - HEADER;
            var i := s.region[a].cls;
            && size == Size(i) && s' == s.(region := s'.region)
            && (forall c: nat :: !LiveAt(s'.region, a, c))
            && (forall b: int, j: nat :: b != a ==> (LiveAt(s.region, b, j) <==> LiveAt(s'.region, b, j)))
            && (forall x :: TagByte(s'.region, Free, x) <==>
                  TagByte(s.region, Free, x) || a <= x < a + Size(i))
  {
    FreeIs(s, mem);
    hide AfterFree;
    var a := s.base + mem - HEADER;
    assert LiveAt(s.region, a, s.region[a].cls);
    ReleaseSafe(s.base, s.region, a, s.region[a].cls);
  }

  /** A second free of the same heap payload fails and changes nothing. */
  lemma DoubleFree(s: State, mem: int)
    requires Inv(s) && HeapPayload(s, mem) && AfterFree(s, mem).Some?
    ensures var s' := AfterFree(s, mem).value.0;
            AfterFree(s', mem) == Some((s', 0))
  {
    hide AfterFree, Inv;
    FreeHeapSafe(s, mem, AfterFree(s, mem).value.0, AfterFree(s, mem).value.1);
    FreeInv(s, mem);
    PayloadsDisjoint(s, mem);
    var s' := AfterFree(s, mem).value.0;
    var a := s.base + mem - HEADER;
    assert a in s'.region ==> !LiveAt(s'.region, a, s'.region[a].cls);
    FreeIs(s', mem);
  }

  /** A free runs past the top bin exactly when it returns a 32 KiB chunk while bin 10 is not empty. */
  lemma FreeOverrunsIff(s: State, mem: int)
    requires Inv(s)
    ensures AfterFree(s, mem).None? <==>
            && HeapPayload(s, mem)
            && s.region[s.base + mem - HEADER].cls == TOP
            && NonEmpty(s.region, TOP)
  {
    FreeIs(s, mem);
    hide AfterFree;
    if HeapPayload(s, mem) {
      var a := s.base + mem - HEADER;
      assert LiveAt(s.region, a, s.region[a].cls);
      ReleaseOverrunsIff(s.base, s.region, a, s.region[a].cls);
    }
  }

  /** A free keeps the bins below the top one free of touching chunks. */
  lemma FreeKeepsCoalesced(s: State, mem: int)
    requires Inv(s) && Coalesced(s.region) && AfterFree(s, mem).Some?
    ensures Coalesced(AfterFree(s, mem).value.0.region)
  {
    FreeIs(s, mem);
    hide AfterFree;
    var a := s.base + mem - HEADER;
    if HeapPayload(s, mem) {
      assert LiveAt(s.region, a, s.region[a].cls);
      assert InRegion(s.base, a, s.region[a]);
      ReleaseKeepsCoalesced(s.region, a, s.region[a].cls);
    }
  }

  // ---------------------------------------------------------------- malloc, then free

  lemma MallocKeeps(s: State, bytes: int, brk: int, page: int)
    requires Inv(s) && CanMalloc(s, bytes, brk, page) && !IsLarge(bytes)
    ensures var s0, (s1, data) := Prepared(s, bytes, brk), AfterMalloc(s, bytes, brk, page);
            var i, a := GetProperBin(bytes + HEADER), data - HEADER;
            && Settled(s0.base, s0.region) && s1.ready && Inv(s1) && s1 == s0.(region := s1.region) && 0 <= i
            && (a in s0.region ==> s0.region[a].tag != Live) && LiveAt(s1.region, a, i)
            && SameLiveBut(s0.region, s1.region, a)
  {
    hide Tiles, Unheld, HasRoom, Allocate, Taken, TagByte, GetProperBin, BigOk, BigOutside, SameLiveBut, LiveAt, Size;
    PreparedInv(s, bytes, brk);
    MallocInv(s, bytes, brk, page);
    var s0 := Prepared(s, bytes, brk);
    TakenIsFree(s0.region, GetProperBin(bytes + HEADER));
    AllocateSafe(s0.base, s0.region, GetProperBin(bytes + HEADER));
  }

  /** Freeing what a request just got restores the whole state that the request was served from exactly
      when the bin the chunk came from held no touching pair, or a 32 KiB chunk was split for it. */
  lemma MallocFreeIdentityIff(s: State, bytes: int, brk: int, page: int, s1: State, data: int)
    requires Inv(s) && CanMalloc(s, bytes, brk, page) && !IsLarge(bytes)
    requires AfterMalloc(s, bytes, brk, page) == (s1, data)
    ensures var s0, i, a := Prepared(s, bytes, brk), GetProperBin(bytes + HEADER), data - HEADER;
            && 0 <= i <= TOP && a in s0.region
            && (AfterFree(s1, data - s1.base) == Some((s0, Size(i))) <==>
                !HasPair(s0.region, s0.region[a].cls) || (i < TOP && s0.region[a].cls == TOP))
  {
    hide Settled, Inv, Release, HasPair, HasRoom, Allocate, Taken, SameLiveBut, GetProperBin, AfterFree, Size, LiveAt;
    MallocKeeps(s, bytes, brk, page);
    var s0, i := Prepared(s, bytes, brk), GetProperBin(bytes + HEADER);
    ProperBinFits(bytes + HEADER);
    AllocateReleaseIdentityIff(s0.base, s0.region, i);
    FreesBack(s0, s1, data - s1.base, i);
  }

  lemma FreesBack(s0: State, s: State, mem: int, i: nat)
    requires Inv(s) && s == s0.(region := s.region) && LiveAt(s.region, s.base + mem - HEADER, i)
    ensures AfterFree(s, mem) == Some((s0, Size(i))) <==>
            Release(s.region, s.base + mem - HEADER) == Some(s0.region)
  {
    FreeIs(s, mem);
    hide AfterFree, Inv, Release, Size;
    assert s.(region := s0.region) == s0;
  }

  lemma FreeKeeps(s: State, mem: int, i: nat, s': State, size: int)
    requires Inv(s) && s.ready && LiveAt(s.region, s.base + mem - HEADER, i) && AfterFree(s, mem) == Some((s', size))
    ensures var a := s.base + mem - HEADER;
            && Settled(s.base, s'.region) && s' == s.(region := s'.region) && size == Size(i)
            && (a in s'.region ==> s'.region[a].tag != Live)
            && SameLiveBut(s.region, s'.region, a)
  {
    hide AfterFree, Size, TagByte, Tiles;
    FreeInv(s, mem);
    FreeHeapSafe(s, mem, s', size);
    var a := s.base + mem - HEADER;
    assert a in s'.region ==> !LiveAt(s'.region, a, s'.region[a].cls);
  }

  lemma SameLiveBack(m: Region, m1: Region, m2: Region, a: int)
    requires SameLiveBut(m, m1, a) && SameLiveBut(m1, m2, a)
    requires a in m ==> m[a].tag != Live
    requires a in m2 ==> m2[a].tag != Live
    ensures SameLive(m, m2)
  {
    forall b: int, i: nat
      ensures LiveAt(m, b, i) <==> LiveAt(m2, b, i)
    {
      if b != a {
        assert LiveAt(m, b, i) <==> LiveAt(m1, b, i);
      }
    }
  }

  ghost predicate SameLive(m: Region, m': Region) {
    forall b: int, i: nat :: LiveAt(m, b, i) <==> LiveAt(m', b, i)
  }

  /** Freeing what a request just got leaves the live chunks as they were before. */
  lemma MallocFreeKeeps(s: State, bytes: int, brk: int, page: int, s1: State, data: int, s2: State, size: int)
    requires Inv(s) && CanMalloc(s, bytes, brk, page) && !IsLarge(bytes)
    requires AfterMalloc(s, bytes, brk, page) == (s1, data) && AfterFree(s1, data - s1.base) == Some((s2, size))
    ensures var s0, i := Prepared(s, bytes, brk), GetProperBin(bytes + HEADER);
            && Settled(s0.base, s0.region) && Settled(s0.base, s2.region)
            && s2 == s0.(region := s2.region) && SameLive(s0.region, s2.region)
            && 0 <= i && size == Size(i)
  {
    hide AfterFree, AfterMalloc, GetProperBin, Inv, SameLiveBut, LiveAt, Size, SameLive, Prepared, Settled, HasRoom;
    MallocKeeps(s, bytes, brk, page);
    FreeKeeps(s1, data - s1.base, GetProperBin(bytes + HEADER), s2, size);
    SameLiveBack(Prepared(s, bytes, brk).region, s1.region, s2.region, data - HEADER);
  }

  /** Freeing a large chunk just allocated restores the list of large chunks; it restores the mappings
      exactly below 2^30 bytes. From there on `munmap` is given a wrong length: one that it refuses, or one
      that is too short. */
  lemma LargeRoundTrip(s: State, bytes: int, brk: int, page: int)
    requires Inv(s) && CanMalloc(s, bytes, brk, page) && IsLarge(bytes)
    ensures var n, (s', data) := bytes + HEADER, AfterMalloc(s, bytes, brk, page);
            && AfterFree(s', data).Some?
            && var (s'', size) := AfterFree(s', data).value;
            && size == Field31(n) && (size == n <==> n < 0x4000_0000)
            && (s'' == s <==> n < 0x4000_0000)
            && (n >= 0x4000_0000 ==>
                  s'' == s.(mapped := if size <= 0 then s.mapped[page := n] else s.mapped[page + size := n - size]))
  {
    hide BigInsert, BigRemove, BigSize, Tiles, Unheld, Field31, BigOk, ClearOf, AfterFree, BigHas;
    var n := bytes + HEADER;
    InvMapped(s);
    BigInsertOk(s.big, s.mapped, page, n);
    FreshNotListed(s, page);
    InsertRemove(s.big, Big(page, Field31(n)));
    var (s', data) := AfterMalloc(s, bytes, brk, page);
    MallocInv(s, bytes, brk, page);
    PayloadsDisjoint(s', data);
    FreeIs(s', data);
    Field31Faithful(n);
    MunmapNew(s.mapped, page, n, Field31(n));
  }

  lemma InvMapped(s: State)
    requires Inv(s)
    ensures MappedOk(s.mapped)
  {
  }

  lemma FreshNotListed(s: State, page: int)
    requires Inv(s) && page !in s.mapped
    ensures !BigHas(s.big, page)
  {
    hide Tiles, Unheld;
    assert forall k :: 0 <= k < |s.big| ==> EntryOk(s.big[k], s.mapped);
  }

  lemma MunmapNew(mapped: map<int, int>, page: int, n: int, size: int)
    requires MappedOk(mapped) && ClearOf(mapped, page, n) && page !in mapped && size <= n && 0 < n
    ensures Munmap(mapped[page := n], page, size) ==
            if size == n then mapped else if size <= 0 then mapped[page := n] else mapped[page + size := n - size]
    ensures size < n ==> Munmap(mapped[page := n], page, size) != mapped
  {
    assert mapped[page := n] - {page} == mapped;
    if size < n {
      var rest := if 0 < size then page + size else page;
      forall a | a in mapped
        ensures a != rest
      {
        assert Clear(a, mapped[a], page, n);
      }
      assert rest in Munmap(mapped[page := n], page, size);
    }
  }

  /** Removing an entry just inserted restores the list. */
  lemma InsertRemove(bs: seq<Big>, b: Big)
    requires !BigHas(bs, b.addr)
    ensures var cs := BigInsert(bs, b);
            BigHas(cs, b.addr) && BigRemove(cs, b.addr) == bs && BigSize(cs, b.addr) == b.size
  {
    var k := BigInsertPlace(bs, b);
    hide BigInsert, BigRemove, BigSize;
    var cs := BigInsert(bs, b);
    assert cs[k] == b;
    forall j | 0 <= j < k
      ensures cs[j].addr != cs[k].addr
    {
      assert cs[j] == bs[j];
    }
    BigRemoveAt(cs, k);
    assert cs[..k] + cs[k + 1..] == bs;
  }

  // ---------------------------------------------------------------- is every large chunk listed?

  /** The list holds exactly the large chunks that are mapped. */
  ghost predicate Tracked(s: State) {
    forall a :: a in s.mapped <==> BigHas(s.big, a)
  }

  /** The first heap request while large chunks are mapped. */
  ghost predicate DropsLarge(s: State, c: Call) {
    c.MallocCall? && !IsLarge(c.bytes) && !s.ready && s.mapped != map[]
  }

  /** Freeing a listed large chunk of 2^30 bytes or more. */
  ghost predicate FreesOversized(s: State, c: Call) {
    && c.FreeCall? && LargePayload(s, c.mem)
    && c.mem - HEADER in s.mapped && s.mapped[c.mem - HEADER] >= 0x4000_0000
  }

  lemma InsertHas(bs: seq<Big>, b: Big, a: int)
    ensures BigHas(BigInsert(bs, b), a) <==> a == b.addr || BigHas(bs, a)
  {
    var k := BigInsertPlace(bs, b);
    var cs := BigInsert(bs, b);
    assert cs[k] == b;
    if BigHas(bs, a) {
      var j :| 0 <= j < |bs| && bs[j].addr == a;
      assert cs[if j < k then j else j + 1] == bs[j];
    }
    if BigHas(cs, a) && a != b.addr {
      var j :| 0 <= j < |cs| && cs[j].addr == a;
      assert bs[if j < k then j else j - 1] == cs[j];
    }
  }

  lemma CutHas(bs: seq<Big>, k: nat, x: int)
    requires k < |bs| && BigHas(bs[..k] + bs[k + 1..], x)
    requires forall j :: 0 <= j < |bs| && j != k ==> bs[j].addr != bs[k].addr
    ensures x != bs[k].addr && BigHas(bs, x)
  {
    var cs := bs[..k] + bs[k + 1..];
    var j :| 0 <= j < |cs| && cs[j].addr == x;
    var i := if j < k then j else j + 1;
    assert cs[j] == bs[i];
  }

  lemma HasCut(bs: seq<Big>, k: nat, x: int)
    requires k < |bs| && BigHas(bs, x) && x != bs[k].addr
    ensures BigHas(bs[..k] + bs[k + 1..], x)
  {
    var cs := bs[..k] + bs[k + 1..];
    var j :| 0 <= j < |bs| && bs[j].addr == x;
    assert cs[if j < k then j else j - 1] == bs[j];
  }

  lemma RemoveHas(bs: seq<Big>, mapped: map<int, int>, a: int, x: int)
    requires BigOk(bs, mapped) && BigHas(bs, a)
    ensures BigHas(BigRemove(bs, a), x) <==> x != a && BigHas(bs, x)
  {
    var k := BigSizeZero(bs, a);
    hide BigRemove, BigHas;
    if BigHas(BigRemove(bs, a), x) {
      CutHas(bs, k, x);
    }
    if x != a && BigHas(bs, x) {
      HasCut(bs, k, x);
    }
  }

  lemma MallocTrackedIff(s: State, bytes: int, brk: int, page: int)
    requires Inv(s) && CanMalloc(s, bytes, brk, page) && Tracked(s)
    ensures Tracked(AfterMalloc(s, bytes, brk, page).0) <==> IsLarge(bytes) || s.ready || s.mapped == map[]
  {
    hide BigInsert, Allocate, Taken, HasRoom, Tiles, Unheld, GetProperBin, BigOk, ClearOf, Field31;
    var s' := AfterMalloc(s, bytes, brk, page).0;
    if IsLarge(bytes) {
      forall a
        ensures BigHas(s'.big, a) <==> a == page || BigHas(s.big, a)
      {
        InsertHas(s.big, Big(page, Field31(bytes + HEADER)), a);
      }
    } else if s.ready {
      assert s'.big == s.big;
    } else {
      assert s'.big == [] && s'.mapped == s.mapped;
      assert forall a :: !BigHas(s'.big, a);
      if forall a :: a !in s.mapped {
        assert s.mapped == map[];
      }
    }
  }

  lemma ListedSize(s: State, a: int)
    requires Inv(s) && BigHas(s.big, a)
    ensures a in s.mapped && BigSize(s.big, a) == Field31(s.mapped[a])
    ensures BigSize(s.big, a) >= s.mapped[a] <==> s.mapped[a] < 0x4000_0000
  {
    hide Tiles, Unheld, Field31;
    var k := BigSizeZero(s.big, a);
    assert EntryOk(s.big[k], s.mapped);
    Field31Faithful(s.mapped[a]);
  }

  lemma FreeTrackedIff(s: State, mem: int)
    requires Inv(s) && AfterFree(s, mem).Some? && Tracked(s)
    ensures Tracked(AfterFree(s, mem).value.0) <==> !FreesOversized(s, FreeCall(mem))
  {
    hide BigRemove, BigSize, Tiles, Unheld, Release, BigOk, AfterFree, Munmap, BigHas;
    FreeIs(s, mem);
    PayloadsDisjoint(s, mem);
    var s', a := AfterFree(s, mem).value.0, mem - HEADER;
    if LargePayload(s, mem) {
      ListedSize(s, a);
      forall x
        ensures BigHas(s'.big, x) <==> x != a && BigHas(s.big, x)
      {
        RemoveHas(s.big, s.mapped, a, x);
      }
      InvMapped(s);
      MunmapAllIff(s.mapped, a, BigSize(s.big, a));
    } else {
      assert s'.big == s.big && s'.mapped == s.mapped;
    }
  }

  /** Only these two calls make the list lose a mapped chunk. */
  lemma TrackedIff(s: State, c: Call)
    requires Inv(s) && Enabled(s, c) && Tracked(s)
    ensures Tracked(Step(s, c)) <==> !DropsLarge(s, c) && !FreesOversized(s, c)
  {
    hide Tracked, AfterMalloc, AfterFree;
    match c
    case MallocCall(bytes, brk, page) =>
      MallocTrackedIff(s, bytes, brk, page);
    case FreeCall(mem) =>
      FreeTrackedIff(s, mem);
  }

  // ---------------------------------------------------------------- what the list has lost

  /** A mapping that the list of large chunks does not have. */
  ghost predicate Lost(s: State, a: int, n: int) {
    a in s.mapped && s.mapped[a] == n && !BigHas(s.big, a)
  }

  lemma LostStep(s: State, c: Call, a: int, n: int)
    requires Inv(s) && Enabled(s, c) && Lost(s, a, n)
    ensures Lost(Step(s, c), a, n)
  {
    hide BigInsert, BigRemove, BigSize, Munmap, Allocate, Taken, HasRoom, Tiles, Unheld, BigHas, BigOk, AfterFree,
      Field31, GetProperBin;
    InvMapped(s);
    match c
    case MallocCall(bytes, brk, page) =>
      if IsLarge(bytes) {
        assert Clear(a, n, page, bytes + HEADER);
        InsertHas(s.big, Big(page, Field31(bytes + HEADER)), a);
      } else {
        NothingListed(a);
      }
    case FreeCall(mem) =>
      FreeIs(s, mem);
      if LargePayload(s, mem) {
        PayloadsDisjoint(s, mem);
        RemoveHas(s.big, s.mapped, mem - HEADER, a);
        MunmapOk(s.mapped, mem - HEADER, BigSize(s.big, mem - HEADER));
      }
  }

  lemma NothingListed(a: int)
    ensures !BigHas([], a)
  {
  }

  /** A mapping that the list has lost stays mapped, whatever calls follow. */
  lemma {:induction false} LostForever(s: State, cs: seq<Call>, a: int, n: int)
    requires Inv(s) && IsRun(s, cs) && Lost(s, a, n)
    ensures Lost(RunFrom(s, cs), a, n)
    decreases |cs|
  {
    hide Inv, Enabled, Step, Lost;
    if cs != [] {
      LostStep(s, cs[0], a, n);
      StepInv(s, cs[0]);
      LostForever(Step(s, cs[0]), cs[1..], a, n);
    }
  }
}
