/** What allocation and release mean for the region: which bytes change hands, when a release stays
    inside the bins, when the heap stays coalesced and when a release undoes an allocation. */
module HeapLaws {
  import opened Options
  import opened Sizes
  import opened HeapRegion

  ghost predicate LiveAt(m: Region, b: int, i: nat) {
    b in m && m[b] == Chunk(i, Live)
  }

  /** The live chunks other than the one at `a` are the same in both regions. */
  ghost predicate SameLiveBut(m: Region, m': Region, a: int) {
    forall b: int, i: nat :: b != a ==> (LiveAt(m, b, i) <==> LiveAt(m', b, i))
  }

  /** A region in which every byte belongs to one chunk, which is free or live. */
  ghost predicate Settled(base: int, m: Region) {
    Tiles(base, m) && Unheld(m)
  }

  // ---------------------------------------------------------------- bytes

  /** No byte lies in two chunks. */
  lemma OneHolder(m: Region, a: int, b: int, x: int)
    requires Disjoint(m) && Holds(m, a, x) && Holds(m, b, x)
    ensures a == b
  {
    assert Apart(a, m[a], b, m[b]) || a == b;
  }

  lemma FreeBytesAreTheRest(base: int, m: Region, x: int)
    requires Settled(base, m)
    ensures TagByte(m, Free, x) <==> base <= x < base + HEAP_BYTES && !TagByte(m, Live, x)
  {
    if TagByte(m, Free, x) {
      var a :| Holds(m, a, x) && m[a].tag == Free;
      assert InRegion(base, a, m[a]);
      forall b | Holds(m, b, x)
        ensures b == a
      {
        OneHolder(m, a, b, x);
      }
    } else if base <= x < base + HEAP_BYTES {
      assert Covered(m, x);
      var a :| Holds(m, a, x);
      assert m[a].tag == Live;
    }
  }

  /** Live bytes are those of the other live chunks and those of `a`'s chunk, if it is live. */
  lemma LiveBytesChange(m: Region, m': Region, a: int, x: int)
    requires SameLiveBut(m, m', a)
    requires a in m ==> m[a].tag != Live
    requires a in m' && m'[a].tag == Live
    ensures TagByte(m', Live, x) <==> TagByte(m, Live, x) || Holds(m', a, x)
  {
    if TagByte(m, Live, x) {
      var b :| Holds(m, b, x) && m[b].tag == Live;
      assert LiveAt(m, b, m[b].cls);
      assert LiveAt(m', b, m[b].cls);
      assert Holds(m', b, x);
    }
    if TagByte(m', Live, x) {
      var b :| Holds(m', b, x) && m'[b].tag == Live;
      assert LiveAt(m', b, m'[b].cls);
      if b != a {
        assert LiveAt(m, b, m'[b].cls);
        assert Holds(m, b, x);
      }
    }
  }

  // ---------------------------------------------------------------- allocation

  lemma TakenIsFree(m: Region, index: nat)
    requires HasRoom(m, index)
    ensures var a := Taken(m, index);
            a in m && m[a].tag == Free && index <= m[a].cls
    ensures m[Taken(m, index)].cls == index <==> NonEmpty(m, index)
  {
    if NonEmpty(m, index) {
      assert IsLowest(m, index, Lowest(m, index));
    } else {
      var a := Source(m, index);
      assert IsSource(m, index, a);
    }
  }

  lemma {:induction false} HalvedLive(base: int, m: Region, a: int, k: nat, j: nat, t: Tag)
    requires Tiles(base, m) && Unheld(m) && a in m && m[a].cls == k && j <= k
    requires m[a].tag != Live
    ensures SameLiveBut(m, Halved(m, a, k, j, t), a)
    ensures forall b :: b in Halved(m, a, k, j, t) && b != a ==> Halved(m, a, k, j, t)[b].tag != Held
    decreases k - j
  {
    hide Tiles;
    if j < k {
      HalvedLive(base, m, a, k, j + 1, Held);
      HalvedTiles(base, m, a, k, j + 1, Held);
      SplitTiles(base, Halved(m, a, k, j + 1, Held), a, j, t, Free);
    }
  }

  /** An allocation hands out bytes that were free, and nothing else changes hands. */
  lemma AllocateSafe(base: int, m: Region, index: nat)
    requires Settled(base, m) && HasRoom(m, index) && index <= TOP
    ensures var a, m' := Taken(m, index), Allocate(m, index);
            && Settled(base, m')
            && LiveAt(m', a, index)
            && SameLiveBut(m, m', a)
            && (forall x :: a <= x < a + Size(index) ==> TagByte(m, Free, x) && !TagByte(m, Live, x))
            && (forall x :: TagByte(m', Live, x) <==> TagByte(m, Live, x) || a <= x < a + Size(index))
            && (forall x :: TagByte(m', Free, x) <==> TagByte(m, Free, x) && !(a <= x < a + Size(index)))
            && (forall b: int, i: nat :: b != a && LiveAt(m', b, i) ==>
                  b + Size(i) <= a || a + Size(index) <= b)
  {
    TakenIsFree(m, index);
    var a, m' := Taken(m, index), Allocate(m, index);
    HalvedTiles(base, m, a, m[a].cls, index, Live);
    HalvedLive(base, m, a, m[a].cls, index, Live);
    if index < m[a].cls {
      SizeMonotone(index, m[a].cls);
    }
    forall x
      ensures TagByte(m', Live, x) <==> TagByte(m, Live, x) || a <= x < a + Size(index)
      ensures TagByte(m', Free, x) <==> TagByte(m, Free, x) && !(a <= x < a + Size(index))
      ensures a <= x < a + Size(index) ==> TagByte(m, Free, x) && !TagByte(m, Live, x)
    {
      LiveBytesChange(m, m', a, x);
      FreeBytesAreTheRest(base, m, x);
      FreeBytesAreTheRest(base, m', x);
      if a <= x < a + Size(index) {
        assert Holds(m, a, x);
      }
    }
    forall b: int, i: nat | b != a && LiveAt(m', b, i)
      ensures b + Size(i) <= a || a + Size(index) <= b
    {
      assert Apart(a, m'[a], b, m'[b]);
    }
  }

  /** A corollary of how `Taken` chooses: no chunk of the bin, or, if that is empty, of all larger bins
      together, lies below the chunk taken. */
  lemma TakenIsLowest(m: Region, index: nat, b: int)
    requires HasRoom(m, index)
    requires b in m && m[b].tag == Free
    requires if NonEmpty(m, index) then m[b].cls == index else index < m[b].cls
    ensures Taken(m, index) <= b
  {
    if NonEmpty(m, index) {
      assert IsLowest(m, index, Lowest(m, index));
      assert InBin(m, index, b);
    } else {
      assert IsSource(m, index, Source(m, index));
      assert LargerFree(m, index, b);
    }
  }

  // ---------------------------------------------------------------- release

  lemma JoinRemovesOne(m: Region, a: int, i: nat)
    requires Touching(m, i, a)
    ensures |Join(m, a, i, Free)| == |m| - 1
  {
    var b := a + Size(i);
    var rest := m - {b};
    assert m.Keys == rest.Keys + {b};
    assert Join(m, a, i, Free).Keys == rest.Keys;
    assert |m| == |m.Keys| && |Join(m, a, i, Free)| == |Join(m, a, i, Free).Keys|;
  }

  lemma JoinKeepsLive(m: Region, a: int, i: nat)
    requires Unheld(m) && Touching(m, i, a)
    ensures Unheld(Join(m, a, i, Free))
    ensures forall b: int, c: nat :: LiveAt(m, b, c) <==> LiveAt(Join(m, a, i, Free), b, c)
  {
  }

  /** Merging keeps every live chunk, holds nothing, and loses one chunk per merge. */
  lemma {:induction false} MergeKeepsLive(m: Region, i: nat)
    requires Unheld(m) && Merge(m, i).Some?
    ensures var m' := Merge(m, i).value;
            && Unheld(m')
            && (forall b: int, c: nat :: LiveAt(m, b, c) <==> LiveAt(m', b, c))
            && |m'| <= |m|
            && (m' == m <==> !HasPair(m, i))
            && (HasPair(m, i) ==> |m'| < |m|)
    decreases TOP - i
  {
    if HasPair(m, i) {
      var a := FirstPair(m, i);
      assert Touching(m, i, a);
      JoinRemovesOne(m, a, i);
      JoinKeepsLive(m, a, i);
      if i < TOP && i + 1 < TOP {
        MergeKeepsLive(Join(m, a, i, Free), i + 1);
      }
    }
  }

  /** Freeing a live chunk returns its bytes, and only those, to the free ones; the region stays tiled
      and every other live chunk stays as it was. */
  lemma ReleaseSafe(base: int, m: Region, a: int, i: nat)
    requires Settled(base, m) && LiveAt(m, a, i) && Release(m, a).Some?
    ensures var m' := Release(m, a).value;
            && Settled(base, m')
            && SameLiveBut(m, m', a)
            && (forall c: nat :: !LiveAt(m', a, c))
            && (forall x :: TagByte(m', Free, x) <==> TagByte(m, Free, x) || a <= x < a + Size(i))
            && (forall x :: TagByte(m', Live, x) <==> TagByte(m, Live, x) && !(a <= x < a + Size(i)))
  {
    var m1, m' := m[a := Chunk(i, Free)], Release(m, a).value;
    assert InRegion(base, a, m[a]);
    RetagTiles(base, m, a, Free);
    MergeTiles(base, m1, i);
    MergeKeepsLive(m1, i);
    forall b: int, c: nat
      ensures b != a ==> (LiveAt(m, b, c) <==> LiveAt(m', b, c))
      ensures !LiveAt(m', a, c)
    {
      assert LiveAt(m1, b, c) <==> LiveAt(m', b, c);
      assert !LiveAt(m1, a, c);
    }
    forall x
      ensures TagByte(m', Free, x) <==> TagByte(m, Free, x) || a <= x < a + Size(i)
      ensures TagByte(m', Live, x) <==> TagByte(m, Live, x) && !(a <= x < a + Size(i))
    {
      FreeBytesAreTheRest(base, m, x);
      FreeBytesAreTheRest(base, m', x);
      LiveBytesReleased(base, m, m', a, i, x);
    }
  }

  lemma LiveBytesReleased(base: int, m: Region, m': Region, a: int, i: nat, x: int)
    requires Settled(base, m) && LiveAt(m, a, i) && SameLiveBut(m, m', a)
    requires forall c: nat :: !LiveAt(m', a, c)
    ensures TagByte(m', Live, x) <==> TagByte(m, Live, x) && !(a <= x < a + Size(i))
  {
    if TagByte(m, Live, x) && !(a <= x < a + Size(i)) {
      var b :| Holds(m, b, x) && m[b].tag == Live;
      assert LiveAt(m, b, m[b].cls);
      assert LiveAt(m', b, m[b].cls);
      assert Holds(m', b, x);
    }
    if TagByte(m', Live, x) {
      var b :| Holds(m', b, x) && m'[b].tag == Live;
      assert LiveAt(m', b, m'[b].cls);
      assert LiveAt(m, b, m'[b].cls);
      assert Holds(m, b, x);
      assert Apart(a, m[a], b, m[b]);
    }
  }

  // ---------------------------------------------------------------- the top bin

  lemma {:induction false} MergeBelowTop(m: Region, i: nat)
    requires i < TOP
    ensures Merge(m, i).Some?
    decreases TOP - i
  {
    if HasPair(m, i) && i + 1 < TOP {
      MergeBelowTop(Join(m, FirstPair(m, i), i, Free), i + 1);
    }
  }

  /** A release runs past the top bin exactly when it returns a 32 KiB chunk while the other 32 KiB
      chunk is already free. */
  lemma ReleaseOverrunsIff(base: int, m: Region, a: int, i: nat)
    requires Settled(base, m) && LiveAt(m, a, i)
    ensures Release(m, a).None? <==> i == TOP && NonEmpty(m, TOP)
  {
    assert InRegion(base, a, m[a]);
    SizeTable();
    var m1 := m[a := Chunk(i, Free)];
    RetagTiles(base, m, a, Free);
    if i < TOP {
      MergeBelowTop(m1, i);
    } else if NonEmpty(m, TOP) {
      var b :| InBin(m, TOP, b);
      assert Apart(a, m1[a], b, m1[b]);
      assert InRegion(base, b, m1[b]);
      assert Touching(m1, TOP, if a < b then a else b);
    } else if HasPair(m1, TOP) {
      var b :| Touching(m1, TOP, b);
      assert InBin(m, TOP, if b == a then b + Size(TOP) else b);
    }
  }

  // ---------------------------------------------------------------- coalescing

  /** The only touching chunks in the bins that may merge are pairs of bin `i` that include `a`. */
  ghost predicate CoalescedBut(m: Region, i: nat, a: int) {
    forall j: nat, b: int :: j < TOP && Touching(m, j, b) ==> j == i && (b == a || b + Size(j) == a)
  }

  lemma {:induction false} MergeCoalesces(m: Region, i: nat, a: int)
    requires i < TOP && CoalescedBut(m, i, a)
    ensures Merge(m, i).Some? && Coalesced(Merge(m, i).value)
    decreases TOP - i
  {
    if HasPair(m, i) {
      var b := FirstPair(m, i);
      assert Touching(m, i, b);
      var m1 := Join(m, b, i, Free);
      forall j: nat, c: int | j < TOP && Touching(m1, j, c)
        ensures j == i + 1 && (c == b || c + Size(j) == b)
      {
        assert c != b && c + Size(j) != b ==> Touching(m, j, c);
      }
      if i + 1 < TOP {
        MergeCoalesces(m1, i + 1, b);
      }
    } else {
      forall j: nat, b: int | j < TOP
        ensures !Touching(m, j, b)
      {
      }
    }
  }

  /** A coalesced heap stays coalesced through a release. */
  lemma ReleaseKeepsCoalesced(m: Region, a: int, i: nat)
    requires LiveAt(m, a, i) && i <= TOP && Coalesced(m) && Release(m, a).Some?
    ensures Coalesced(Release(m, a).value)
  {
    var m1 := m[a := Chunk(i, Free)];
    forall j: nat, b: int | j < TOP && Touching(m1, j, b)
      ensures j == i && (b == a || b + Size(j) == a)
    {
      assert !Touching(m, j, b);
    }
    if i < TOP {
      MergeCoalesces(m1, i, a);
    } else {
      assert Merge(m1, i) == Some(m1);
    }
  }

  /** Halving leaves all other chunks as they were. */
  lemma {:induction false} HalvedKeeps(base: int, m: Region, a: int, k: nat, j: nat, t: Tag, b: int)
    requires Tiles(base, m) && a in m && m[a].cls == k && j <= k
    requires b != a && b in m
    ensures b in Halved(m, a, k, j, t) && Halved(m, a, k, j, t)[b] == m[b]
    decreases k - j
  {
    hide Tiles;
    if j < k {
      HalvedKeeps(base, m, a, k, j + 1, Held, b);
      HalvedTiles(base, m, a, k, j + 1, Held);
      SplitTiles(base, Halved(m, a, k, j + 1, Held), a, j, t, Free);
    }
  }

  /** The chunks that halving makes are one free chunk of each class passed. */
  lemma {:induction false} HalvedMakes(m: Region, a: int, k: nat, j: nat, t: Tag, b: int)
    requires j <= k && b != a && b !in m && b in Halved(m, a, k, j, t)
    ensures var c := Halved(m, a, k, j, t)[b];
            j <= c.cls < k && c.tag == Free && b == a + Size(c.cls)
    decreases k - j
  {
    if j < k && b != a + Size(j) {
      HalvedMakes(m, a, k, j + 1, Held, b);
    }
  }

  lemma {:induction false} HalvedHas(m: Region, a: int, k: nat, j: nat, t: Tag, c: nat)
    requires j <= c < k
    ensures InBin(Halved(m, a, k, j, t), c, a + Size(c))
    decreases k - j
  {
    if j < c {
      HalvedHas(m, a, k, j + 1, Held, c);
      SizeMonotone(j, c);
    }
  }

  lemma AllocateIsHalved(m: Region, index: nat)
    requires HasRoom(m, index) && index <= TOP
    ensures var a := Taken(m, index);
            a in m && index <= m[a].cls && Allocate(m, index) == Halved(m, a, m[a].cls, index, Live)
  {
    TakenIsFree(m, index);
    hide Taken, Halved;
  }

  /** What an allocation leaves: the chunk taken, cut to the class asked for and live; one free chunk of each
      class `c` split off; all other chunks as they were; and nothing else. */
  lemma AllocateExactly(base: int, m: Region, index: nat, b: int, c: nat)
    requires Settled(base, m) && HasRoom(m, index) && index <= TOP
    ensures var a, m' := Taken(m, index), Allocate(m, index);
            && a in m && LiveAt(m', a, index)
            && (index <= c < m[a].cls ==> InBin(m', c, a + Size(c)))
            && (b in m && b != a ==> b in m' && m'[b] == m[b])
            && (b in m' && b != a && b !in m ==>
                  index <= m'[b].cls < m[a].cls && m'[b].tag == Free && b == a + Size(m'[b].cls))
  {
    hide Tiles, Unheld, Halved, Size, Taken, Allocate, HasRoom;
    TakenIsFree(m, index);
    AllocateIsHalved(m, index);
    var a, m' := Taken(m, index), Allocate(m, index);
    var k := m[a].cls;
    HalvedTiles(base, m, a, k, index, Live);
    if index <= c < k {
      HalvedHas(m, a, k, index, Live, c);
    }
    if b != a && b in m {
      HalvedKeeps(base, m, a, k, index, Live, b);
    } else if b != a && b in m' {
      HalvedMakes(m, a, k, index, Live, b);
    }
  }

  /** A free chunk after an allocation was free before, or is a half split off. */
  lemma FreeAfterAllocate(base: int, m: Region, index: nat, i: nat, b: int)
    requires Settled(base, m) && HasRoom(m, index) && index <= TOP
    requires InBin(Allocate(m, index), i, b)
    ensures var a := Taken(m, index);
            && a in m && b != a
            && (InBin(m, i, b) || (index <= i < m[a].cls && b == a + Size(i)))
  {
    TakenIsFree(m, index);
    var a := Taken(m, index);
    HalvedTiles(base, m, a, m[a].cls, index, Live);
    if b in m {
      HalvedKeeps(base, m, a, m[a].cls, index, Live, b);
    } else {
      HalvedMakes(m, a, m[a].cls, index, Live, b);
    }
  }

  /** A pair that an allocation creates starts at the last half split off. */
  lemma NewPairIsLast(base: int, m: Region, index: nat, i: nat, b: int)
    requires Settled(base, m) && HasRoom(m, index) && index <= TOP
    requires !Touching(m, i, b) && Touching(Allocate(m, index), i, b)
    ensures var a := Taken(m, index);
            && a in m && index < m[a].cls
            && InBin(m, m[a].cls - 1, a + Size(m[a].cls))
  {
    hide Tiles;
    var a := Taken(m, index);
    FreeAfterAllocate(base, m, index, i, b);
    FreeAfterAllocate(base, m, index, i, b + Size(i));
    if !InBin(m, i, b) && i + 1 < m[a].cls {
      HalvedHas(m, a, m[a].cls, index, Live, i + 1);
    }
    assert Size(i + 1) == 2 * Size(i);
  }

  /** The last half split off touches a free chunk of its class that follows the split chunk. */
  lemma SplitMakesPair(base: int, m: Region, a: int, k: nat, index: nat)
    requires Settled(base, m) && a in m && m[a].cls == k && index < k <= TOP
    requires InBin(m, k - 1, a + Size(k))
    ensures Touching(Halved(m, a, k, index, Live), k - 1, a + Size(k - 1))
  {
    hide Tiles, Unheld, Halved, Size;
    SizeDouble(k - 1);
    var b := a + Size(k);
    HalvedKeeps(base, m, a, k, index, Live, b);
    HalvedHas(m, a, k, index, Live, k - 1);
  }

  /** An allocation that splits a chunk leaves a coalesced heap coalesced, except when the chunk that
      follows the split one is a free one of half its size. */
  lemma AllocateCoalescedIff(base: int, m: Region, index: nat)
    requires Settled(base, m) && HasRoom(m, index) && index <= TOP && Coalesced(m)
    ensures var a := Taken(m, index);
            a in m &&
            var k := m[a].cls;
            Coalesced(Allocate(m, index)) <==> !(index < k && InBin(m, k - 1, a + Size(k)))
  {
    hide Tiles, Unheld, Taken, Allocate, HasRoom, Size;
    TakenIsFree(m, index);
    var a, m' := Taken(m, index), Allocate(m, index);
    var k := m[a].cls;
    ChunkInRegion(base, m, a);
    AllocateIsHalved(m, index);
    if index < k && InBin(m, k - 1, a + Size(k)) {
      SplitMakesPair(base, m, a, k, index);
    } else {
      forall i: nat, b: int | i < TOP
        ensures !Touching(m', i, b)
      {
        assert !Touching(m, i, b);
        if Touching(m', i, b) {
          NewPairIsLast(base, m, index, i, b);
        }
      }
    }
  }

  // ---------------------------------------------------------------- allocate, then release

  /** In a chunk halved down to class `j`, the lowest part is the lowest chunk of its bin. */
  lemma HalfIsLowest(m: Region, index: nat, j: nat, b: int)
    requires !NonEmpty(m, index) && (exists a :: LargerFree(m, index, a))
    requires var a := Source(m, index); index <= j < m[a].cls
    requires forall c :: c in m && c != Source(m, index) ==>
               && c in Halved(m, Source(m, index), m[Source(m, index)].cls, j, Free)
               && Halved(m, Source(m, index), m[Source(m, index)].cls, j, Free)[c] == m[c]
    requires InBin(Halved(m, Source(m, index), m[Source(m, index)].cls, j, Free), j, b)
    ensures Source(m, index) <= b
  {
    var a := Source(m, index);
    assert IsSource(m, index, a);
    var k := m[a].cls;
    if b !in m {
      HalvedMakes(m, a, k, j, Free, b);
    } else if b != a {
      assert InBin(m, index, b) ==> NonEmpty(m, index);
      assert LargerFree(m, index, b);
    }
  }

  /** One merge undoes one halving of the lowest of the larger chunks. */
  lemma MergeUndoesHalving(base: int, m: Region, index: nat, j: nat)
    requires Settled(base, m) && !NonEmpty(m, index) && (exists a :: LargerFree(m, index, a))
    requires var a := Source(m, index); index <= j < m[a].cls <= TOP
    ensures var a := Source(m, index);
            var k := m[a].cls;
            var h := Halved(m, a, k, j, Free);
            && IsFirstPair(h, j, a)
            && Join(h, a, j, Free) == Halved(m, a, k, j + 1, Free)
  {
    hide Tiles, Unheld;
    var a := Source(m, index);
    assert IsSource(m, index, a);
    var k := m[a].cls;
    var h, up := Halved(m, a, k, j, Free), Halved(m, a, k, j + 1, Held);
    HalvedTiles(base, m, a, k, j + 1, Held);
    SplitTiles(base, up, a, j, Free, Free);
    assert Touching(h, j, a);
    forall c | c in m && c != a
      ensures c in h && h[c] == m[c]
    {
      HalvedKeeps(base, m, a, k, j, Free, c);
    }
    forall b | Touching(h, j, b)
      ensures a <= b
    {
      HalfIsLowest(m, index, j, b);
    }
    HalvedRetag(m, a, k, j + 1, Held, Free);
    assert Join(h, a, j, Free) == up[a := Chunk(j + 1, Free)];
  }

  lemma FirstPairUnique(m: Region, i: nat, a: int)
    requires IsFirstPair(m, i, a)
    ensures HasPair(m, i) && FirstPair(m, i) == a && a in m
  {
    assert IsFirstPair(m, i, FirstPair(m, i));
  }

  lemma {:induction false} MergeUndoesHalvings(base: int, m: Region, index: nat, j: nat)
    requires Settled(base, m) && !NonEmpty(m, index) && (exists a :: LargerFree(m, index, a))
    requires var a := Source(m, index); index <= j < m[a].cls <= TOP
    ensures var a := Source(m, index);
            Merge(Halved(m, a, m[a].cls, j, Free), j) ==
            if m[a].cls == TOP then Some(m) else Merge(m, m[a].cls)
    decreases TOP - j
  {
    hide Tiles, Unheld, Join, NonEmpty;
    var a := Source(m, index);
    assert IsSource(m, index, a);
    var k := m[a].cls;
    MergeUndoesHalving(base, m, index, j);
    FirstPairUnique(Halved(m, a, k, j, Free), j, a);
    if j + 1 < k {
      MergeUndoesHalvings(base, m, index, j + 1);
    } else {
      assert Halved(m, a, k, k, Free) == m;
    }
  }

  /** Releasing the chunk just allocated restores the region exactly when the bin it was taken from held
      no touching pair; a split 32 KiB chunk is restored in any case. */
  lemma AllocateReleaseIdentityIff(base: int, m: Region, index: nat)
    requires Settled(base, m) && HasRoom(m, index) && index <= TOP
    ensures var a := Taken(m, index);
            && a in m && a in Allocate(m, index)
            && (Release(Allocate(m, index), a) == Some(m) <==>
                !HasPair(m, m[a].cls) || (index < TOP && m[a].cls == TOP))
  {
    TakenIsFree(m, index);
    var a := Taken(m, index);
    var k := m[a].cls;
    assert InRegion(base, a, m[a]);
    HalvedTiles(base, m, a, k, index, Live);
    HalvedRetag(m, a, k, index, Live, Free);
    if NonEmpty(m, index) {
      assert Halved(m, a, k, index, Free) == m;
    } else {
      MergeUndoesHalvings(base, m, index, index);
    }
    if Merge(m, k).Some? {
      MergeKeepsLive(m, k);
    }
  }
}
