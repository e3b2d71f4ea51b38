/** The 64 KiB region as a map from chunk address to chunk: which chunks exist, in which bin or list
    each one is, and what splitting, merging, allocating and freeing do to them. */
module HeapRegion {
  import opened Options
  import opened Sizes

  /** `Free` chunks are in the bin of their class, `Live` ones in `allocated_heap`, and a `Held` one is
      in neither list while an operation has it unlinked. */
  datatype Tag = Free | Live | Held
  datatype Chunk = Chunk(cls: nat, tag: Tag)
  type Region = map<int, Chunk>

  // ---------------------------------------------------------------- tiling

  ghost predicate InRegion(base: int, a: int, c: Chunk) {
    && c.cls <= TOP
    && base <= a
    && a + Size(c.cls) <= base + HEAP_BYTES
    && (a - base) % 32 == 0
  }

  ghost predicate Apart(a: int, c: Chunk, b: int, d: Chunk) {
    a + Size(c.cls) <= b || b + Size(d.cls) <= a
  }

  ghost predicate Holds(m: Region, a: int, x: int) {
    a in m && a <= x < a + Size(m[a].cls)
  }

  ghost predicate Covered(m: Region, x: int) {
    exists a :: Holds(m, a, x)
  }

  ghost predicate Disjoint(m: Region) {
    forall a, b :: a in m && b in m && a != b ==> Apart(a, m[a], b, m[b])
  }

  /** The chunks are pairwise disjoint and cover exactly the 64 KiB from `base` on. */
  ghost predicate Tiles(base: int, m: Region) {
    && (forall a :: a in m ==> InRegion(base, a, m[a]))
    && Disjoint(m)
    && (forall x :: base <= x < base + HEAP_BYTES ==> Covered(m, x))
  }

  ghost predicate Unheld(m: Region) {
    forall a :: a in m ==> m[a].tag != Held
  }

  ghost predicate TagByte(m: Region, t: Tag, x: int) {
    exists a :: Holds(m, a, x) && m[a].tag == t
  }

  // ---------------------------------------------------------------- bins

  ghost predicate InBin(m: Region, i: nat, a: int) {
    a in m && m[a] == Chunk(i, Free)
  }

  ghost predicate NonEmpty(m: Region, i: nat) {
    exists a :: InBin(m, i, a)
  }

  ghost predicate IsLowest(m: Region, i: nat, a: int) {
    InBin(m, i, a) && forall b :: InBin(m, i, b) ==> a <= b
  }

  ghost predicate LargerFree(m: Region, index: nat, a: int) {
    a in m && m[a].tag == Free && index < m[a].cls
  }

  /** `a` is the chunk of lowest address among all free chunks of all classes above `index`. */
  ghost predicate IsSource(m: Region, index: nat, a: int) {
    LargerFree(m, index, a) && forall b :: LargerFree(m, index, b) ==> a <= b
  }

  ghost predicate HasRoom(m: Region, index: nat) {
    NonEmpty(m, index) || exists a :: LargerFree(m, index, a)
  }

  ghost predicate Touching(m: Region, i: nat, a: int) {
    InBin(m, i, a) && InBin(m, i, a + Size(i))
  }

  ghost predicate HasPair(m: Region, i: nat) {
    exists a :: Touching(m, i, a)
  }

  ghost predicate IsFirstPair(m: Region, i: nat, a: int) {
    Touching(m, i, a) && forall b :: Touching(m, i, b) ==> a <= b
  }

  /** No bin that may merge holds two touching chunks. */
  ghost predicate Coalesced(m: Region) {
    forall i: nat, a: int :: i < TOP ==> !Touching(m, i, a)
  }

  // ---------------------------------------------------------------- minima

  lemma {:induction false} LeastExists(s: set<int>, w: int) returns (a: int)
    requires w in s
    ensures a in s
    ensures forall b :: b in s ==> a <= b
    decreases |s|
  {
    var rest := s - {w};
    assert s == rest + {w};
    if r :| r in rest {
      a := LeastExists(rest, r);
      if w < a {
        a := w;
      }
    } else {
      a := w;
    }
  }

  lemma LowestExists(m: Region, i: nat)
    requires NonEmpty(m, i)
    ensures exists a :: IsLowest(m, i, a)
  {
    var s := set a | a in m && InBin(m, i, a);
    var w :| InBin(m, i, w);
    assert w in s;
    var a := LeastExists(s, w);
    assert forall b :: InBin(m, i, b) ==> b in s;
    assert IsLowest(m, i, a);
  }

  lemma SourceExists(m: Region, index: nat)
    requires exists a :: LargerFree(m, index, a)
    ensures exists a :: IsSource(m, index, a)
  {
    var s := set a | a in m && LargerFree(m, index, a);
    var w :| LargerFree(m, index, w);
    assert w in s;
    var a := LeastExists(s, w);
    assert forall b :: LargerFree(m, index, b) ==> b in s;
    assert IsSource(m, index, a);
  }

  lemma FirstPairExists(m: Region, i: nat)
    requires HasPair(m, i)
    ensures exists a :: IsFirstPair(m, i, a)
  {
    var s := set a | a in m && Touching(m, i, a);
    var w :| Touching(m, i, w);
    assert w in s;
    var a := LeastExists(s, w);
    assert forall b :: Touching(m, i, b) ==> b in s;
    assert IsFirstPair(m, i, a);
  }

  ghost function Lowest(m: Region, i: nat): (a: int)
    requires NonEmpty(m, i)
    ensures IsLowest(m, i, a)
  {
    LowestExists(m, i);
    var a :| IsLowest(m, i, a);
    a
  }

  ghost function Source(m: Region, index: nat): (a: int)
    requires exists a :: LargerFree(m, index, a)
    ensures IsSource(m, index, a)
  {
    SourceExists(m, index);
    var a :| IsSource(m, index, a);
    a
  }

  ghost function FirstPair(m: Region, i: nat): (a: int)
    requires HasPair(m, i)
    ensures IsFirstPair(m, i, a)
  {
    FirstPairExists(m, i);
    var a :| IsFirstPair(m, i, a);
    a
  }

  // ---------------------------------------------------------------- operations

  /** The chunk at `a`, of class `k`, halved until it has class `j`: it keeps the lowest part, tagged
      `t`, and the upper halves are free. */
  ghost function Halved(m: Region, a: int, k: nat, j: nat, t: Tag): Region
    requires j <= k
    decreases k - j
  {
    if j == k then m[a := Chunk(k, t)]
    else Halved(m, a, k, j + 1, Held)[a := Chunk(j, t)][a + Size(j) := Chunk(j, Free)]
  }

  /** The chunk that a request of class `index` takes from the bins. */
  ghost function Taken(m: Region, index: nat): int
    requires HasRoom(m, index)
  {
    if NonEmpty(m, index) then Lowest(m, index) else Source(m, index)
  }

  ghost function Allocate(m: Region, index: nat): Region
    requires HasRoom(m, index) && index <= TOP
  {
    var a := Taken(m, index);
    if index <= m[a].cls then Halved(m, a, m[a].cls, index, Live) else m
  }

  lemma AllocateFromBin(m: Region, index: nat)
    requires NonEmpty(m, index) && index <= TOP
    ensures HasRoom(m, index) && Taken(m, index) == Lowest(m, index)
    ensures Allocate(m, index) == m[Lowest(m, index) := Chunk(index, Live)]
  {
    assert IsLowest(m, index, Lowest(m, index));
  }

  lemma AllocateFromSource(m: Region, index: nat)
    requires !NonEmpty(m, index) && (exists a :: LargerFree(m, index, a)) && index <= TOP
    ensures var a := Source(m, index);
            && a in m && m[a].tag == Free && index < m[a].cls
            && HasRoom(m, index) && Taken(m, index) == a
            && Allocate(m, index) == Halved(m, a, m[a].cls, index, Live)
  {
    assert IsSource(m, index, Source(m, index));
  }

  ghost function Join(m: Region, a: int, i: nat, t: Tag): Region {
    (m - {a + Size(i)})[a := Chunk(i + 1, t)]
  }

  /** Merging from bin `i` upwards. `None` stands for the write to a bin past the top one. */
  ghost function Merge(m: Region, i: nat): Option<Region>
    decreases TOP - i
  {
    if !HasPair(m, i) then Some(m)
    else if i >= TOP then None
    else
      var m' := Join(m, FirstPair(m, i), i, Free);
      if i + 1 == TOP then Some(m') else Merge(m', i + 1)
  }

  /** Freeing the live chunk at `a`. */
  ghost function Release(m: Region, a: int): Option<Region>
    requires a in m
  {
    Merge(m[a := Chunk(m[a].cls, Free)], m[a].cls)
  }

  /** The region after the first carving: one free chunk of each class from `index` to the top, and
      one more of class `index` at the bottom. */
  ghost function Carved(base: int, index: nat): Region
    requires index <= TOP
    decreases TOP - index
  {
    CarvedFrom(base, index)[base := Chunk(index, Free)]
  }

  /** The chunks inserted by the carving loop while it has gone down to `index`. */
  ghost function CarvedFrom(base: int, index: nat): Region
    requires index <= TOP + 1
    decreases TOP + 1 - index
  {
    if index == TOP + 1 then map[]
    else CarvedFrom(base, index + 1)[base + Size(index) := Chunk(index, Free)]
  }

  // ---------------------------------------------------------------- each step keeps the tiling

  lemma RetagTiles(base: int, m: Region, a: int, t: Tag)
    requires Tiles(base, m) && a in m
    ensures Tiles(base, m[a := Chunk(m[a].cls, t)])
  {
    var m' := m[a := Chunk(m[a].cls, t)];
    forall x | base <= x < base + HEAP_BYTES
      ensures Covered(m', x)
    {
      assert Covered(m, x);
      var b :| Holds(m, b, x);
      assert Holds(m', b, x);
    }
    forall b, c | b in m' && c in m' && b != c
      ensures Apart(b, m'[b], c, m'[c])
    {
      assert Apart(b, m[b], c, m[c]);
    }
    hide Covered;
  }

  /** The upper half of a chunk is no chunk. */
  lemma UpperHalfIsNew(m: Region, a: int, j: nat)
    requires Disjoint(m) && a in m && m[a].cls == j + 1
    ensures a + Size(j) !in m && Size(j + 1) == 2 * Size(j)
  {
    var b := a + Size(j);
    assert b in m ==> Apart(a, m[a], b, m[b]);
  }

  lemma SplitDisjoint(m: Region, a: int, j: nat, t: Tag, u: Tag)
    requires Disjoint(m) && a in m && m[a].cls == j + 1
    ensures Disjoint(m[a := Chunk(j, t)][a + Size(j) := Chunk(j, u)])
  {
    UpperHalfIsNew(m, a, j);
    var b := a + Size(j);
    var m' := m[a := Chunk(j, t)][b := Chunk(j, u)];
    forall c, d | c in m' && d in m' && c != d
      ensures Apart(c, m'[c], d, m'[d])
    {
      var c', d' := if c == b then a else c, if d == b then a else d;
      if c' != d' {
        assert Apart(c', m[c'], d', m[d']);
      }
    }
  }

  lemma SplitCovers(m: Region, a: int, j: nat, t: Tag, u: Tag, x: int)
    requires a in m && m[a].cls == j + 1 && a + Size(j) !in m && Covered(m, x)
    ensures Covered(m[a := Chunk(j, t)][a + Size(j) := Chunk(j, u)], x)
  {
    var m' := m[a := Chunk(j, t)][a + Size(j) := Chunk(j, u)];
    assert Size(j + 1) == 2 * Size(j);
    var c :| Holds(m, c, x);
    assert Holds(m', c, x) || Holds(m', a + Size(j), x);
  }

  lemma HalvesInRegion(base: int, a: int, j: nat, r: Tag, t: Tag, u: Tag)
    requires InRegion(base, a, Chunk(j + 1, r))
    ensures InRegion(base, a, Chunk(j, t)) && InRegion(base, a + Size(j), Chunk(j, u))
  {
    hide Size;
    SizeAligned(j);
    SizeDouble(j);
    AlignedSum(a - base, Size(j));
    assert a + Size(j) - base == (a - base) + Size(j);
  }

  lemma SplitTiles(base: int, m: Region, a: int, j: nat, t: Tag, u: Tag)
    requires Tiles(base, m) && a in m && m[a].cls == j + 1
    ensures a + Size(j) !in m
    ensures Tiles(base, m[a := Chunk(j, t)][a + Size(j) := Chunk(j, u)])
  {
    hide Disjoint, Covered, InRegion, Size;
    UpperHalfIsNew(m, a, j);
    SplitDisjoint(m, a, j, t, u);
    HalvesInRegion(base, a, j, m[a].tag, t, u);
    var m' := m[a := Chunk(j, t)][a + Size(j) := Chunk(j, u)];
    forall x | base <= x < base + HEAP_BYTES
      ensures Covered(m', x)
    {
      SplitCovers(m, a, j, t, u, x);
    }
  }

  lemma JoinDisjoint(m: Region, a: int, i: nat, t: Tag)
    requires Disjoint(m)
    requires a in m && m[a].cls == i && a + Size(i) in m && m[a + Size(i)].cls == i
    ensures Disjoint(Join(m, a, i, t))
  {
    var b := a + Size(i);
    assert Size(i + 1) == 2 * Size(i);
    var m' := Join(m, a, i, t);
    forall c, d | c in m' && d in m' && c != d
      ensures Apart(c, m'[c], d, m'[d])
    {
      assert Apart(c, m[c], d, m[d]);
      if c == a {
        assert Apart(b, m[b], d, m[d]);
      } else if d == a {
        assert Apart(c, m[c], b, m[b]);
      }
    }
  }

  lemma JoinCovers(m: Region, a: int, i: nat, t: Tag, x: int)
    requires a in m && m[a].cls == i && a + Size(i) in m && m[a + Size(i)].cls == i && Covered(m, x)
    ensures Covered(Join(m, a, i, t), x)
  {
    assert Size(i + 1) == 2 * Size(i);
    var c :| Holds(m, c, x);
    assert Holds(Join(m, a, i, t), if c == a + Size(i) then a else c, x);
  }

  lemma JoinTiles(base: int, m: Region, a: int, i: nat, t: Tag)
    requires Tiles(base, m) && i < TOP
    requires a in m && m[a].cls == i && a + Size(i) in m && m[a + Size(i)].cls == i
    ensures Tiles(base, Join(m, a, i, t))
  {
    hide Disjoint, Covered;
    JoinDisjoint(m, a, i, t);
    assert InRegion(base, a, m[a]) && InRegion(base, a + Size(i), m[a + Size(i)]);
    assert Size(i + 1) == 2 * Size(i);
    forall x | base <= x < base + HEAP_BYTES
      ensures Covered(Join(m, a, i, t), x)
    {
      JoinCovers(m, a, i, t, x);
    }
  }

  lemma {:induction false} HalvedTiles(base: int, m: Region, a: int, k: nat, j: nat, t: Tag)
    requires Tiles(base, m) && a in m && m[a].cls == k && j <= k
    ensures Tiles(base, Halved(m, a, k, j, t))
    ensures a in Halved(m, a, k, j, t) && Halved(m, a, k, j, t)[a] == Chunk(j, t)
    decreases k - j
  {
    hide Tiles;
    if j == k {
      RetagTiles(base, m, a, t);
    } else {
      HalvedTiles(base, m, a, k, j + 1, Held);
      SplitTiles(base, Halved(m, a, k, j + 1, Held), a, j, t, Free);
    }
  }

  lemma ChunkInRegion(base: int, m: Region, a: int)
    requires Tiles(base, m) && a in m
    ensures InRegion(base, a, m[a])
  {
  }

  lemma ClassesBounded(base: int, m: Region)
    requires Tiles(base, m)
    ensures forall a :: a in m ==> m[a].cls <= TOP
  {
    assert forall a :: a in m ==> InRegion(base, a, m[a]);
  }

  lemma HalvedNone(m: Region, a: int, k: nat, t: Tag)
    ensures Halved(m, a, k, k, t) == m[a := Chunk(k, t)]
  {
  }

  /** One more halving of a held chunk: its upper half is new, inside the region and free. */
  lemma HalveOnce(base: int, m: Region, a: int, k: nat, j: nat)
    requires Tiles(base, m) && a in m && m[a].cls == k && j < k
    ensures var h := Halved(m, a, k, j + 1, Held);
            && a in h && h[a] == Chunk(j + 1, Held) && base <= a < base + HEAP_BYTES
            && a + Size(j) !in h && base <= a + Size(j) < base + HEAP_BYTES
            && Halved(m, a, k, j, Held) == h[a + Size(j) := Chunk(j, Free)][a := Chunk(j, Held)]
  {
    HalvedTiles(base, m, a, k, j + 1, Held);
    var h := Halved(m, a, k, j + 1, Held);
    SplitTiles(base, h, a, j, Held, Free);
    ChunkInRegion(base, h, a);
    hide Tiles;
  }

  lemma HalvedRetag(m: Region, a: int, k: nat, j: nat, t: Tag, u: Tag)
    requires j <= k
    ensures Halved(m, a, k, j, t)[a := Chunk(j, u)] == Halved(m, a, k, j, u)
  {
  }

  lemma {:induction false} MergeTiles(base: int, m: Region, i: nat)
    requires Tiles(base, m) && i <= TOP && Merge(m, i).Some?
    ensures Tiles(base, Merge(m, i).value)
    decreases TOP - i
  {
    hide Tiles, Join;
    if HasPair(m, i) {
      var a := FirstPair(m, i);
      assert Touching(m, i, a);
      JoinTiles(base, m, a, i, Free);
      if i + 1 < TOP {
        MergeTiles(base, Join(m, a, i, Free), i + 1);
      }
    }
  }

  /** Chunks that tile the region from address `lo` on. */
  ghost predicate TilesFrom(base: int, lo: int, m: Region) {
    && (forall a :: a in m ==> InRegion(base, a, m[a]) && lo <= a)
    && Disjoint(m)
    && (forall x :: lo <= x < base + HEAP_BYTES ==> Covered(m, x))
  }

  /** Adding a chunk in front of all others. */
  lemma AddDisjoint(m: Region, a: int, c: Chunk)
    requires Disjoint(m) && (forall b :: b in m ==> a + Size(c.cls) <= b)
    ensures a !in m && Disjoint(m[a := c])
  {
    var m' := m[a := c];
    forall b, d | b in m' && d in m' && b != d
      ensures Apart(b, m'[b], d, m'[d])
    {
      assert b != a && d != a ==> Apart(b, m[b], d, m[d]);
    }
  }

  lemma AddCovers(m: Region, a: int, c: Chunk, x: int)
    requires a !in m && (Covered(m, x) || a <= x < a + Size(c.cls))
    ensures Covered(m[a := c], x)
  {
    var m' := m[a := c];
    if a <= x < a + Size(c.cls) {
      assert Holds(m', a, x);
    } else {
      var b :| Holds(m, b, x);
      assert Holds(m', b, x);
    }
  }

  lemma AddInFront(base: int, lo: int, m: Region, c: Chunk)
    requires TilesFrom(base, lo + Size(c.cls), m) && InRegion(base, lo, c)
    ensures lo !in m && TilesFrom(base, lo, m[lo := c])
  {
    hide Disjoint, Covered, Size, InRegion;
    AddDisjoint(m, lo, c);
    var m' := m[lo := c];
    forall x | lo <= x < base + HEAP_BYTES
      ensures Covered(m', x)
    {
      assert x < lo + Size(c.cls) || Covered(m, x);
      AddCovers(m, lo, c, x);
    }
  }

  lemma FrontInRegion(base: int, index: nat)
    requires index <= TOP
    ensures InRegion(base, base + Size(index), Chunk(index, Free)) && InRegion(base, base, Chunk(index, Free))
    ensures base + Size(index) + Size(index) == base + Size(index + 1)
  {
    SizeBound(index);
    SizeAligned(index);
  }

  lemma {:induction false} CarvedFromTiles(base: int, index: nat)
    requires index <= TOP + 1
    ensures TilesFrom(base, base + Size(index), CarvedFrom(base, index))
    decreases TOP + 1 - index
  {
    hide TilesFrom, InRegion, Size;
    if index <= TOP {
      CarvedFromTiles(base, index + 1);
      FrontInRegion(base, index);
      AddInFront(base, base + Size(index), CarvedFrom(base, index + 1), Chunk(index, Free));
    } else {
      NothingAbove(base);
    }
  }

  lemma NothingAbove(base: int)
    ensures TilesFrom(base, base + Size(TOP + 1), map[])
  {
    SizeTable();
  }

  lemma CarvedTiles(base: int, index: nat)
    requires index <= TOP
    ensures base !in CarvedFrom(base, index) && Tiles(base, Carved(base, index))
  {
    CarvedFromTiles(base, index);
    FrontInRegion(base, index);
    AddInFront(base, base, CarvedFrom(base, index), Chunk(index, Free));
    hide Disjoint, Covered, InRegion, CarvedFrom, Size;
  }

  lemma {:induction false} CarvedFromHas(base: int, index: nat, c: nat)
    requires index <= c <= TOP
    ensures InBin(CarvedFrom(base, index), c, base + Size(c))
    decreases c - index
  {
    if index < c {
      CarvedFromHas(base, index + 1, c);
      SizeMonotone(index, c);
    }
  }

  lemma {:induction false} CarvedFromChunks(base: int, index: nat, a: int)
    requires index <= TOP + 1 && a in CarvedFrom(base, index)
    ensures var c := CarvedFrom(base, index)[a];
            index <= c.cls <= TOP && c.tag == Free && a == base + Size(c.cls)
    decreases TOP + 1 - index
  {
    if index <= TOP && a != base + Size(index) {
      CarvedFromChunks(base, index + 1, a);
    }
  }

  /** The first carving leaves one free chunk of each class `c` from `index` to the top, at its own size from
      the start, one more of class `index` at the start, and nothing else. */
  lemma CarvedExactly(base: int, index: nat, a: int, c: nat)
    requires index <= TOP
    ensures var m := Carved(base, index);
            && InBin(m, index, base)
            && (index <= c <= TOP ==> InBin(m, c, base + Size(c)))
            && (a in m && a != base ==>
                  index <= m[a].cls <= TOP && m[a].tag == Free && a == base + Size(m[a].cls))
  {
    hide CarvedFrom, Size;
    if index <= c <= TOP {
      CarvedFromHas(base, index, c);
    }
    if a in Carved(base, index) && a != base {
      CarvedFromChunks(base, index, a);
    }
  }

  lemma CarvedNone(base: int)
    ensures CarvedFrom(base, TOP + 1) == map[]
  {
  }

  /** One turn of the carving loop. */
  lemma CarveOnce(base: int, index: nat)
    requires index <= TOP
    ensures var m := CarvedFrom(base, index + 1);
            && base + Size(index) !in m && base < base + Size(index) < base + HEAP_BYTES
            && CarvedFrom(base, index) == m[base + Size(index) := Chunk(index, Free)]
  {
    hide TilesFrom, Size;
    CarvedFromTiles(base, index + 1);
    FrontInRegion(base, index);
    AddInFront(base, base + Size(index), CarvedFrom(base, index + 1), Chunk(index, Free));
  }

  lemma CarveLast(base: int, index: nat)
    requires index <= TOP
    ensures base !in CarvedFrom(base, index)
    ensures Tiles(base, Carved(base, index)) && Unheld(Carved(base, index))
    ensures NonEmpty(Carved(base, index), index)
  {
    CarvedTiles(base, index);
    CarvedUnheld(base, index);
    assert InBin(Carved(base, index), index, base);
  }

  lemma {:induction false} CarvedUnheld(base: int, index: nat)
    requires index <= TOP + 1
    ensures Unheld(CarvedFrom(base, index))
    decreases TOP + 1 - index
  {
    if index <= TOP {
      CarvedUnheld(base, index + 1);
    }
  }

  lemma MergeNothing(m: Region, i: nat)
    requires !HasPair(m, i)
    ensures Merge(m, i) == Some(m)
  {
  }

  /** One merge: the first pair of bin `i` becomes one chunk of the next class. */
  lemma MergeOnce(base: int, m: Region, i: nat, a: int)
    requires Tiles(base, m) && Unheld(m) && IsFirstPair(m, i, a) && Merge(m, i).Some?
    ensures i < TOP && a in m && a in Join(m, a, i, Held)
    ensures Join(m, a, i, Held)[a := Chunk(i + 1, Free)] == Join(m, a, i, Free)
    ensures Merge(m, i) == if i + 1 == TOP then Some(Join(m, a, i, Free)) else Merge(Join(m, a, i, Free), i + 1)
    ensures Tiles(base, Join(m, a, i, Free)) && Unheld(Join(m, a, i, Free))
    ensures NonEmpty(Join(m, a, i, Free), i + 1)
  {
    hide Tiles, Size;
    assert HasPair(m, i);
    assert IsFirstPair(m, i, FirstPair(m, i));
    JoinTiles(base, m, a, i, Free);
    assert InBin(Join(m, a, i, Free), i + 1, a);
  }
}
