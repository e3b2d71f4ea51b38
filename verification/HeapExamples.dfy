/** Runs from the start that reach the cases the laws single out. */
module HeapExamples {
  import opened Options
  import opened Sizes
  import opened HeapRegion
  import opened HeapLaws
  import opened HeapState
  import opened HeapRuns

  lemma {:induction false} RunSnoc(s: State, cs: seq<Call>, c: Call)
    requires IsRun(s, cs) && Enabled(RunFrom(s, cs), c)
    ensures IsRun(s, cs + [c]) && RunFrom(s, cs + [c]) == Step(RunFrom(s, cs), c)
    decreases |cs|
  {
    hide Enabled, Step;
    if cs == [] {
      assert [] + [c] == [c] && [c][1..] == [];
      assert IsRun(Step(s, c), []);
    } else {
      assert (cs + [c])[1..] == cs[1..] + [c];
      RunSnoc(Step(s, cs[0]), cs[1..], c);
    }
  }

  /** The state with no large chunks and the region `m` at `brk`. */
  ghost function HeapAt(brk: int, m: Region): State {
    State(true, brk, m, [], map[])
  }

  ghost predicate Reaches(cs: seq<Call>, s: State) {
    IsRun(START, cs) && RunFrom(START, cs) == s
  }

  lemma StartReached()
    ensures Reaches([], START)
  {
  }

  lemma ReachesNext(cs: seq<Call>, s: State, c: Call, s': State)
    requires Reaches(cs, s) && Enabled(s, c) && Step(s, c) == s'
    ensures Reaches(cs + [c], s')
  {
    RunSnoc(START, cs, c);
  }

  // ---------------------------------------------------------------- single calls

  /** The first request. */
  lemma FirstServed(brk: int, bytes: int)
    requires 0 < brk && ValidRequest(bytes) && !IsLarge(bytes)
    ensures Enabled(START, MallocCall(bytes, brk, 0))
    ensures var i := GetProperBin(bytes + HEADER);
            && 0 <= i <= TOP && NonEmpty(Carved(brk, i), i)
            && Step(START, MallocCall(bytes, brk, 0)) == HeapAt(brk, Allocate(Carved(brk, i), i))
  {
    PreparedInv(START, bytes, brk);
    CarveLast(brk, GetProperBin(bytes + HEADER));
  }

  /** A request served by the chunk at `a` of its own bin. */
  lemma ServedFromBin(brk: int, m: Region, bytes: int, index: nat, a: int)
    requires ValidRequest(bytes) && !IsLarge(bytes) && GetProperBin(bytes + HEADER) == index <= TOP
    requires IsLowest(m, index, a)
    ensures HasRoom(m, index) && Taken(m, index) == a
    ensures Enabled(HeapAt(brk, m), MallocCall(bytes, 0, 0))
    ensures Step(HeapAt(brk, m), MallocCall(bytes, 0, 0)) == HeapAt(brk, m[a := Chunk(index, Live)])
  {
    AllocateFromBin(m, index);
    assert IsLowest(m, index, Lowest(m, index));
  }

  /** A request served by splitting the chunk at `a`. */
  lemma ServedBySplit(brk: int, m: Region, bytes: int, index: nat, a: int)
    requires ValidRequest(bytes) && !IsLarge(bytes) && GetProperBin(bytes + HEADER) == index <= TOP
    requires !NonEmpty(m, index) && IsSource(m, index, a)
    ensures HasRoom(m, index) && Taken(m, index) == a
    ensures Enabled(HeapAt(brk, m), MallocCall(bytes, 0, 0))
    ensures Step(HeapAt(brk, m), MallocCall(bytes, 0, 0)) == HeapAt(brk, Halved(m, a, m[a].cls, index, Live))
  {
    AllocateFromSource(m, index);
    assert IsSource(m, index, Source(m, index));
  }

  /** A free of the live chunk at `brk + mem - HEADER`. */
  lemma Freed(brk: int, m: Region, mem: int, m': Region)
    requires var a := brk + mem - HEADER;
             a in m && m[a].tag == Live && Release(m, a) == Some(m')
    ensures Enabled(HeapAt(brk, m), FreeCall(mem))
    ensures Step(HeapAt(brk, m), FreeCall(mem)) == HeapAt(brk, m')
  {
    hide Release, AfterHeapFree;
    HeapFreeReleases(HeapAt(brk, m), mem);
  }

  /** The same when nothing is merged. */
  lemma FreedAlone(brk: int, m: Region, mem: int, i: nat)
    requires LiveAt(m, brk + mem - HEADER, i) && !HasPair(m[brk + mem - HEADER := Chunk(i, Free)], i)
    ensures Enabled(HeapAt(brk, m), FreeCall(mem))
    ensures Step(HeapAt(brk, m), FreeCall(mem)) == HeapAt(brk, m[brk + mem - HEADER := Chunk(i, Free)])
  {
    MergeNothing(m[brk + mem - HEADER := Chunk(i, Free)], i);
    Freed(brk, m, mem, m[brk + mem - HEADER := Chunk(i, Free)]);
  }

  // ---------------------------------------------------------------- coalescing lost

  /** A region carved for 128-byte requests, whose second 128-byte chunk has been split. */
  ghost function Shape(base: int, t: Tag, u: Tag, v: Tag): Region {
    Carved(base, 2)[base := Chunk(2, t)][base + 128 := Chunk(1, u)][base + 192 := Chunk(1, v)]
  }

  lemma CarvedIs(base: int, a: int)
    ensures var m := Carved(base, 2);
            && Settled(base, m)
            && base in m && m[base] == Chunk(2, Free)
            && base + 128 in m && m[base + 128] == Chunk(2, Free)
            && (a in m && a != base && a != base + 128 ==>
                  2 < m[a].cls && m[a].tag == Free && a == base + Size(m[a].cls) && base + 256 <= a)
  {
    SizeTable();
    CarveLast(base, 2);
    CarveOnce(base, 2);
    if a in Carved(base, 2) && a != base && a != base + 128 {
      CarvedFromChunks(base, 2, a);
      SizeMonotone(2, Carved(base, 2)[a].cls);
    }
  }

  lemma ShapeIs(base: int, t: Tag, u: Tag, v: Tag, a: int)
    ensures var m := Shape(base, t, u, v);
            && base in m && m[base] == Chunk(2, t)
            && base + 128 in m && m[base + 128] == Chunk(1, u)
            && base + 192 in m && m[base + 192] == Chunk(1, v)
            && (a in m && a != base && a != base + 128 && a != base + 192 ==>
                  2 < m[a].cls && m[a].tag == Free && a == base + Size(m[a].cls) && base + 256 <= a)
  {
    CarvedIs(base, a);
  }

  /** What can be in the bins of such a region. */
  lemma ShapeBin(base: int, t: Tag, u: Tag, v: Tag, i: nat, a: int)
    requires InBin(Shape(base, t, u, v), i, a)
    ensures || (i == 2 && a == base && t == Free)
            || (i == 1 && a == base + 128 && u == Free)
            || (i == 1 && a == base + 192 && v == Free)
            || (2 < i && a == base + Size(i) && base + 256 <= a)
  {
    ShapeIs(base, t, u, v, a);
  }

  /** Step 1: the first request takes the lowest chunk of the bin just carved. */
  lemma FirstTaken(brk: int)
    requires 0 < brk
    ensures Reaches([MallocCall(104, brk, 0)], HeapAt(brk, Carved(brk, 2)[brk := Chunk(2, Live)]))
  {
    FirstServed(brk, 104);
    var m := Carved(brk, 2);
    AllocateFromBin(m, 2);
    CarvedIs(brk, 0);
    assert InBin(m, 2, brk);
    forall b | InBin(m, 2, b)
      ensures brk <= b
    {
      CarvedIs(brk, b);
    }
    assert IsLowest(m, 2, Lowest(m, 2));
    StartReached();
    ReachesNext([], START, MallocCall(104, brk, 0), HeapAt(brk, m[brk := Chunk(2, Live)]));
    assert [] + [MallocCall(104, brk, 0)] == [MallocCall(104, brk, 0)];
  }

  /** Step 2: the next one splits the other chunk. */
  lemma SecondTaken(brk: int)
    ensures var m, c := Carved(brk, 2)[brk := Chunk(2, Live)], MallocCall(40, 0, 0);
            Enabled(HeapAt(brk, m), c) && Step(HeapAt(brk, m), c) == HeapAt(brk, Shape(brk, Live, Live, Free))
  {
    SizeTable();
    CarvedIs(brk, 0);
    var m, a := Carved(brk, 2)[brk := Chunk(2, Live)], brk + 128;
    forall b | b in m && m[b].tag == Free
      ensures 1 < m[b].cls && a <= b
    {
      CarvedIs(brk, b);
    }
    assert LargerFree(m, 1, a);
    ServedBySplit(brk, m, 40, 1, a);
    HalvedNone(m, a, 2, Held);
    assert Halved(m, a, 2, 1, Live) == Shape(brk, Live, Live, Free);
  }

  /** Step 3: the one after it takes the other half. */
  lemma ThirdTaken(brk: int)
    ensures var m, c := Shape(brk, Live, Live, Free), MallocCall(40, 0, 0);
            Enabled(HeapAt(brk, m), c) && Step(HeapAt(brk, m), c) == HeapAt(brk, Shape(brk, Live, Live, Live))
  {
    var m := Shape(brk, Live, Live, Free);
    ShapeIs(brk, Live, Live, Free, 0);
    forall b | InBin(m, 1, b)
      ensures brk + 192 <= b
    {
      ShapeBin(brk, Live, Live, Free, 1, b);
    }
    ServedFromBin(brk, m, 40, 1, brk + 192);
    assert m[brk + 192 := Chunk(1, Live)] == Shape(brk, Live, Live, Live);
  }

  /** Step 4: the first half is freed; its buddy is live. */
  lemma FirstFreed(brk: int)
    ensures var m, c := Shape(brk, Live, Live, Live), FreeCall(152);
            Enabled(HeapAt(brk, m), c) && Step(HeapAt(brk, m), c) == HeapAt(brk, Shape(brk, Live, Free, Live))
  {
    var m := Shape(brk, Live, Live, Live);
    ShapeIs(brk, Live, Live, Live, 0);
    assert m[brk + 128 := Chunk(1, Free)] == Shape(brk, Live, Free, Live);
    NoPairInShape(brk, Live, Free, Live, 1);
    FreedAlone(brk, m, 152, 1);
  }

  /** Step 5: the first chunk is freed. */
  lemma SecondFreed(brk: int)
    ensures var m, c := Shape(brk, Live, Free, Live), FreeCall(24);
            Enabled(HeapAt(brk, m), c) && Step(HeapAt(brk, m), c) == HeapAt(brk, Shape(brk, Free, Free, Live))
  {
    var m := Shape(brk, Live, Free, Live);
    ShapeIs(brk, Live, Free, Live, 0);
    assert m[brk := Chunk(2, Free)] == Shape(brk, Free, Free, Live);
    NoPairInShape(brk, Free, Free, Live, 2);
    FreedAlone(brk, m, 24, 2);
  }

  lemma NoPairInShape(base: int, t: Tag, u: Tag, v: Tag, i: nat)
    requires u != Free || v != Free
    ensures !HasPair(Shape(base, t, u, v), i)
  {
    hide Shape, InBin;
    assert Size(1) == 64 && Size(2) == 128;
    forall a
      ensures !Touching(Shape(base, t, u, v), i, a)
    {
      if Touching(Shape(base, t, u, v), i, a) {
        ShapeBin(base, t, u, v, i, a);
        ShapeBin(base, t, u, v, i, a + Size(i));
        assert false;
      }
    }
  }

  ghost function SplitCalls(brk: int): seq<Call> {
    [MallocCall(104, brk, 0), MallocCall(40, 0, 0), MallocCall(40, 0, 0), FreeCall(152), FreeCall(24)]
  }

  /** Five calls that leave a free 128-byte chunk in front of a free 64-byte one. */
  lemma SplitReached(brk: int)
    requires 0 < brk
    ensures Reaches(SplitCalls(brk), HeapAt(brk, Shape(brk, Free, Free, Live)))
  {
    FirstTaken(brk);
    SecondTaken(brk);
    ThirdTaken(brk);
    FirstFreed(brk);
    SecondFreed(brk);
    hide Reaches, Enabled, Step, Shape, Carved;
    var c1, c2, c4, c5 := MallocCall(104, brk, 0), MallocCall(40, 0, 0), FreeCall(152), FreeCall(24);
    ReachesNext([c1], HeapAt(brk, Carved(brk, 2)[brk := Chunk(2, Live)]), c2,
                HeapAt(brk, Shape(brk, Live, Live, Free)));
    ReachesNext([c1] + [c2], HeapAt(brk, Shape(brk, Live, Live, Free)), c2, HeapAt(brk, Shape(brk, Live, Live, Live)));
    ReachesNext([c1] + [c2] + [c2], HeapAt(brk, Shape(brk, Live, Live, Live)), c4,
                HeapAt(brk, Shape(brk, Live, Free, Live)));
    ReachesNext([c1] + [c2] + [c2] + [c4], HeapAt(brk, Shape(brk, Live, Free, Live)), c5,
                HeapAt(brk, Shape(brk, Free, Free, Live)));
    assert [c1] + [c2] + [c2] + [c4] + [c5] == SplitCalls(brk);
  }

  lemma ReachedOk(cs: seq<Call>, brk: int, m: Region)
    requires Reaches(cs, HeapAt(brk, m))
    ensures Settled(brk, m)
  {
    RunInv(START, cs);
  }

  /** The region after step 6, a request of 8 bytes: the lowest chunk split down to 32 bytes. */
  ghost function TwoHalves(base: int): Region {
    Halved(Shape(base, Free, Free, Live), base, 2, 0, Live)
  }

  lemma LowestSplit(brk: int)
    requires Settled(brk, Shape(brk, Free, Free, Live))
    ensures var m, c := Shape(brk, Free, Free, Live), MallocCall(8, 0, 0);
            && Enabled(HeapAt(brk, m), c) && Step(HeapAt(brk, m), c) == HeapAt(brk, TwoHalves(brk))
    ensures HasRoom(Shape(brk, Free, Free, Live), 0) && Taken(Shape(brk, Free, Free, Live), 0) == brk
  {
    SizeTable();
    var m := Shape(brk, Free, Free, Live);
    ShapeIs(brk, Free, Free, Live, 0);
    forall b | b in m && m[b].tag == Free
      ensures brk <= b && m[b].cls != 0
    {
      ShapeBin(brk, Free, Free, Live, m[b].cls, b);
    }
    assert LargerFree(m, 0, brk);
    ServedBySplit(brk, m, 8, 0, brk);
  }

  /** Its upper half is the first of two touching 64-byte chunks. */
  lemma UpperHalfTouches(brk: int)
    requires Settled(brk, Shape(brk, Free, Free, Live))
    ensures Touching(TwoHalves(brk), 1, brk + 64) && IsLowest(TwoHalves(brk), 1, brk + 64)
  {
    LowestSplit(brk);
    SizeTable();
    var m := Shape(brk, Free, Free, Live);
    ShapeIs(brk, Free, Free, Live, 0);
    SplitMakesPair(brk, m, brk, 2, 0);
    AllocateIsSplit(brk);
    hide Shape, Settled, Halved, HasRoom, Taken, Allocate;
    forall b | InBin(TwoHalves(brk), 1, b)
      ensures brk + 64 <= b
    {
      FreeAfterAllocate(brk, m, 0, 1, b);
      if InBin(m, 1, b) {
        ShapeBin(brk, Free, Free, Live, 1, b);
      }
    }
  }

  lemma AllocateIsSplit(brk: int)
    requires HasRoom(Shape(brk, Free, Free, Live), 0) && Taken(Shape(brk, Free, Free, Live), 0) == brk
    ensures Allocate(Shape(brk, Free, Free, Live), 0) == TwoHalves(brk)
  {
    ShapeIs(brk, Free, Free, Live, 0);
    hide Shape, Halved;
  }

  /** Five calls leave no two touching chunks in a bin below the top one; a sixth, a request, does. */
  lemma CoalescingLostExample(brk: int)
    requires 0 < brk
    ensures var cs, c := SplitCalls(brk), MallocCall(8, 0, 0);
            && IsRun(START, cs + [c])
            && IsRun(START, cs) && Coalesced(RunFrom(START, cs).region)
            && !Coalesced(RunFrom(START, cs + [c]).region)
  {
    hide Shape, Enabled, Step, IsRun, RunFrom, Settled, InBin, Halved;
    var m := Shape(brk, Free, Free, Live);
    SplitReached(brk);
    ReachedOk(SplitCalls(brk), brk, m);
    LowestSplit(brk);
    UpperHalfTouches(brk);
    ReachesNext(SplitCalls(brk), HeapAt(brk, m), MallocCall(8, 0, 0), HeapAt(brk, TwoHalves(brk)));
    forall i: nat, a: int | i < TOP
      ensures !Touching(m, i, a)
    {
      NoPairInShape(brk, Free, Free, Live, i);
    }
  }

  /** In the state these six calls lead to, a request of 40 bytes and a free of what it got leave fewer
      chunks than there were. */
  lemma NotRestoredExample(brk: int)
    requires 0 < brk
    ensures var cs, c, d := SplitCalls(brk) + [MallocCall(8, 0, 0)], MallocCall(40, 0, 0), FreeCall(88);
            && IsRun(START, cs) && IsRun(START, cs + [c] + [d])
            && Enabled(RunFrom(START, cs), c) && AfterMalloc(RunFrom(START, cs), 40, 0, 0).1 == brk + 88
            && |RunFrom(START, cs + [c] + [d]).region| < |RunFrom(START, cs).region|
  {
    hide Shape, IsRun, RunFrom, Halved, Size, Merge, Tiles;
    var m, h := Shape(brk, Free, Free, Live), TwoHalves(brk);
    var cs, c, d := SplitCalls(brk), MallocCall(40, 0, 0), FreeCall(88);
    SplitReached(brk);
    ReachedOk(cs, brk, m);
    LowestSplit(brk);
    UpperHalfTouches(brk);
    ReachesNext(cs, HeapAt(brk, m), MallocCall(8, 0, 0), HeapAt(brk, h));
    cs := cs + [MallocCall(8, 0, 0)];
    ReachedOk(cs, brk, h);
    ServedFromBin(brk, h, 40, 1, brk + 64);
    var l := h[brk + 64 := Chunk(1, Live)];
    assert l[brk + 64 := Chunk(1, Free)] == h;
    MergeBelowTop(h, 1);
    MergeKeepsLive(h, 1);
    Freed(brk, l, 88, Merge(h, 1).value);
    ReachesNext(cs, HeapAt(brk, h), c, HeapAt(brk, l));
    ReachesNext(cs + [c], HeapAt(brk, l), d, HeapAt(brk, Merge(h, 1).value));
  }

  /** The first request ever, freed again, does not give the carved region back: its bin was carved with two
      touching chunks. */
  lemma FirstReleaseExample(brk: int)
    requires 0 < brk
    ensures var cs := [MallocCall(8, brk, 0), FreeCall(24)];
            IsRun(START, cs) && RunFrom(START, cs).base == brk && RunFrom(START, cs).region != Carved(brk, 0)
  {
    hide Carved, Merge, IsRun, RunFrom, Enabled, Step, Unheld, HasPair, LiveAt;
    var m, l, c := Carved(brk, 0), Carved(brk, 0)[brk := Chunk(0, Live)], MallocCall(8, brk, 0);
    FirstOfTwo(brk);
    CarvedPair(brk);
    MergeBelowTop(m, 0);
    MergeKeepsLive(m, 0);
    assert l[brk := Chunk(0, Free)] == m;
    Freed(brk, l, 24, Merge(m, 0).value);
    StartReached();
    ReachesNext([], START, c, HeapAt(brk, l));
    ReachesNext([] + [c], HeapAt(brk, l), FreeCall(24), HeapAt(brk, Merge(m, 0).value));
    assert [] + [c] + [FreeCall(24)] == [c, FreeCall(24)];
  }

  lemma FirstOfTwo(brk: int)
    requires 0 < brk
    ensures var c := MallocCall(8, brk, 0);
            Enabled(START, c) && Step(START, c) == HeapAt(brk, Carved(brk, 0)[brk := Chunk(0, Live)])
  {
    FirstServed(brk, 8);
    LowestCarved(brk, 0);
    AllocateFromBin(Carved(brk, 0), 0);
  }

  lemma CarvedPair(base: int)
    ensures Unheld(Carved(base, 0)) && HasPair(Carved(base, 0), 0)
    ensures base in Carved(base, 0) && Carved(base, 0)[base] == Chunk(0, Free)
  {
    CarveLast(base, 0);
    CarveOnce(base, 0);
    assert Touching(Carved(base, 0), 0, base);
  }

  // ---------------------------------------------------------------- the top bin

  /** A concrete overrun: the first request takes one 32 KiB chunk, and is then freed. */
  lemma OverrunExample(brk: int)
    requires 0 < brk
    ensures CanMalloc(START, 32744, brk, 0)
    ensures var (s, data) := AfterMalloc(START, 32744, brk, 0); AfterFree(s, data - brk).None?
  {
    PreparedInv(START, 32744, brk);
    SizeTable();
    CarvedTop(brk);
    var m := Carved(brk, TOP);
    var (s, data) := AfterMalloc(START, 32744, brk, 0);
    assert InBin(m, TOP, brk) && InBin(m, TOP, brk + Size(TOP));
    MallocInv(START, 32744, brk, 0);
    MallocSafe(START, 32744, brk, 0);
    AllocateFromBin(m, TOP);
    assert IsLowest(m, TOP, Lowest(m, TOP));
    var other := if data - HEADER == brk then brk + Size(TOP) else brk;
    assert InBin(s.region, TOP, other);
    FreeOverrunsIff(s, data - brk);
  }

  lemma CarvedTop(base: int)
    ensures Carved(base, TOP) == map[base := Chunk(TOP, Free), base + Size(TOP) := Chunk(TOP, Free)]
  {
    CarvedNone(base);
    assert CarvedFrom(base, TOP) == map[base + Size(TOP) := Chunk(TOP, Free)];
    SizeTable();
  }

  /** Two requests after which the region can serve no other. */
  lemma ExhaustedExample(brk: int, bytes: int)
    requires 0 < brk && ValidRequest(bytes) && !IsLarge(bytes)
    ensures var cs := [MallocCall(16384, brk, 0), MallocCall(16384, 0, 0)];
            && IsRun(START, cs)
            && forall b: int, page: int :: !CanMalloc(RunFrom(START, cs), bytes, b, page)
  {
    var m, c, d := Carved(brk, TOP), MallocCall(16384, brk, 0), MallocCall(16384, 0, 0);
    SizeTable();
    CarvedTop(brk);
    FirstServed(brk, 16384);
    AllocateFromBin(m, TOP);
    assert InBin(m, TOP, brk);
    assert IsLowest(m, TOP, Lowest(m, TOP));
    var l := m[brk := Chunk(TOP, Live)];
    assert IsLowest(l, TOP, brk + Size(TOP));
    ServedFromBin(brk, l, 16384, TOP, brk + Size(TOP));
    var k := l[brk + Size(TOP) := Chunk(TOP, Live)];
    assert forall i: nat, a: int :: !InBin(k, i, a);
    hide Carved, IsRun, RunFrom, Enabled, Step, InBin, CanMalloc, Tiles;
    StartReached();
    ReachesNext([], START, c, HeapAt(brk, l));
    ReachesNext([] + [c], HeapAt(brk, l), d, HeapAt(brk, k));
    assert [] + [c] + [d] == [c, d];
    RunInv(START, [c, d]);
    forall b: int, page: int
      ensures !CanMalloc(HeapAt(brk, k), bytes, b, page)
    {
      RequestServedIff(HeapAt(brk, k), bytes, b, page);
    }
  }

  // ---------------------------------------------------------------- large chunks

  /** A concrete loss: a large request, then the first heap request. */
  lemma LostChunkExample(brk: int, page: int)
    requires 0 < brk && HEAP_BYTES <= page
    ensures var cs := [MallocCall(40000, 0, page), MallocCall(8, brk, 0)];
            IsRun(START, cs) && page in RunFrom(START, cs).mapped && RunFrom(START, cs).big == []
  {
    var c, d := MallocCall(40000, 0, page), MallocCall(8, brk, 0);
    assert Enabled(START, c);
    var s := Step(START, c);
    MallocInv(START, 40000, 0, page);
    PreparedInv(s, 8, brk);
    assert Enabled(s, d);
    assert page in s.mapped && !s.ready;
    assert page in Step(s, d).mapped && Step(s, d).big == [];
    hide Enabled, Step;
    assert [c, d][1..] == [d] && [d][1..] == [];
    assert IsRun(Step(s, d), []) && IsRun(s, [d]) && IsRun(START, [c, d]);
    assert RunFrom(START, [c, d]) == RunFrom(s, [d]) == RunFrom(Step(s, d), []) == Step(s, d);
  }

  /** A chunk of 2^30 bytes that is freed, and never unmapped. */
  lemma NeverUnmappedExample(page: int, cs: seq<Call>)
    requires HEAP_BYTES <= page
    ensures var c, d := MallocCall(0x4000_0000, 0, page), FreeCall(page + HEADER);
            && IsRun(START, [c, d]) && RunFrom(START, [c, d]).big == []
            && RunFrom(START, [c, d]).mapped == map[page := 0x4000_0000 + HEADER]
            && (IsRun(RunFrom(START, [c, d]), cs) ==> page in RunFrom(RunFrom(START, [c, d]), cs).mapped)
  {
    var c, d, n := MallocCall(0x4000_0000, 0, page), FreeCall(page + HEADER), 0x4000_0000 + HEADER;
    assert Field31(n) < 0;
    LargeRoundTrip(START, 0x4000_0000, 0, page);
    var s, s' := Step(START, c), State(false, 0, map[], [], map[page := n]);
    assert Enabled(START, c) && Enabled(s, d) && Step(s, d) == s';
    assert Lost(s', page, n);
    hide IsRun, RunFrom, Enabled, Step, Field31;
    StartReached();
    ReachesNext([], START, c, s);
    ReachesNext([] + [c], s, d, s');
    assert [] + [c] + [d] == [c, d];
    RunInv(START, [c, d]);
    if IsRun(s', cs) {
      LostForever(s', cs, page, n);
    }
  }
}
