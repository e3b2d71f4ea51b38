/** The allocator's whole state and what one call of `hw_malloc` or `hw_free` makes of it. */
module HeapState {
  import opened Options
  import opened Sizes
  import opened HeapRegion
  import opened HeapLaws

  /** An entry of the list of large chunks: its address and the size its header records. */
  datatype Big = Big(addr: int, size: int)

  /** `ready` is the source's `first_time`; `mapped` gives the byte count of each stretch of memory that
      `mmap` gave and `munmap` has not taken back, by its address. */
  datatype State = State(ready: bool, base: int, region: Region, big: seq<Big>, mapped: map<int, int>)

  const START: State := State(false, 0, map[], [], map[])

  // ---------------------------------------------------------------- mappings

  ghost predicate Clear(a: int, m: int, b: int, n: int) {
    a + m <= b || b + n <= a
  }

  ghost predicate MappedOk(mapped: map<int, int>) {
    && (forall a :: a in mapped ==> 0 < mapped[a])
    && (forall a, b :: a in mapped && b in mapped && a != b ==> Clear(a, mapped[a], b, mapped[b]))
  }

  ghost predicate ClearOf(mapped: map<int, int>, page: int, bytes: int) {
    forall a :: a in mapped ==> Clear(a, mapped[a], page, bytes)
  }

  /** `munmap` of `length` bytes. The argument is unsigned: 0 is refused, and so is what a negative size
      turns into. A length that is too short leaves the rest mapped. */
  function Munmap(mapped: map<int, int>, page: int, length: int): map<int, int> {
    if page !in mapped || length <= 0 then mapped
    else if length < mapped[page] then (mapped - {page})[page + length := mapped[page] - length]
    else mapped - {page}
  }

  // ---------------------------------------------------------------- the list of large chunks

  /** Insertion in front, or else behind the head by `InsertTail`. */
  function BigInsert(bs: seq<Big>, b: Big): seq<Big> {
    if bs == [] || bs[0].size > b.size then [b] + bs
    else [bs[0]] + InsertTail(bs[1..], b)
  }

  /** Insertion in front of the first entry that is not smaller. */
  function InsertTail(bs: seq<Big>, b: Big): seq<Big> {
    if bs == [] || bs[0].size >= b.size then [b] + bs
    else [bs[0]] + InsertTail(bs[1..], b)
  }

  predicate BigHas(bs: seq<Big>, addr: int) {
    exists k :: 0 <= k < |bs| && bs[k].addr == addr
  }

  function BigSize(bs: seq<Big>, addr: int): int {
    if bs == [] then 0 else if bs[0].addr == addr then bs[0].size else BigSize(bs[1..], addr)
  }

  function BigRemove(bs: seq<Big>, addr: int): seq<Big> {
    if bs == [] then [] else if bs[0].addr == addr then bs[1..] else [bs[0]] + BigRemove(bs[1..], addr)
  }

  // ---------------------------------------------------------------- calls

  predicate IsLarge(bytes: int) {
    bytes + HEADER > MMAP_THRESHOLD
  }

  /** What the code demands of a byte count: the header added to it neither wraps nor leaves it too
      small for every bin. */
  predicate ValidRequest(bytes: int) {
    0 < bytes < TWO_POW_64 - HEADER
  }

  /** The state in which a heap request is served: the first one carves the region at `brk`. */
  ghost function Prepared(s: State, bytes: int, brk: int): State
    requires ValidRequest(bytes) && !IsLarge(bytes)
  {
    ProperBinFits(bytes + HEADER);
    if s.ready then s
    else s.(ready := true, base := brk, region := Carved(brk, GetProperBin(bytes + HEADER)), big := [])
  }

  /** What the system calls give: `brk` starts the region, `page` a new mapping. */
  ghost predicate FreshBreak(s: State, brk: int) {
    s.ready || 0 < brk
  }

  ghost predicate FreshPage(s: State, page: int, bytes: int) {
    HEAP_BYTES <= page && ClearOf(s.mapped, page, bytes) && Clear(page, bytes, s.base, HEAP_BYTES)
  }

  ghost predicate CanMalloc(s: State, bytes: int, brk: int, page: int) {
    && ValidRequest(bytes)
    && (IsLarge(bytes) ==> FreshPage(s, page, bytes + HEADER))
    && (!IsLarge(bytes) ==>
          FreshBreak(s, brk) && HasRoom(Prepared(s, bytes, brk).region, GetProperBin(bytes + HEADER)))
  }

  /** The state after the call and the address returned. */
  ghost function AfterMalloc(s: State, bytes: int, brk: int, page: int): (State, int)
    requires CanMalloc(s, bytes, brk, page)
  {
    if IsLarge(bytes) then
      (s.(big := BigInsert(s.big, Big(page, Field31(bytes + HEADER))), mapped := s.mapped[page := bytes + HEADER]),
       page + HEADER)
    else
      var index := GetProperBin(bytes + HEADER);
      ProperBinFits(bytes + HEADER);
      var s1 := Prepared(s, bytes, brk);
      (s1.(region := Allocate(s1.region, index)), Taken(s1.region, index) + HEADER)
  }

  /** The state in which the chunk at `a`, if it is live, is held, and the size it has; 0 if it is not. */
  ghost function Unlived(s: State, a: int): (State, int) {
    if a in s.region && s.region[a].tag == Live then
      (s.(region := s.region[a := Chunk(s.region[a].cls, Held)]), Size(s.region[a].cls))
    else (s, 0)
  }

  /** Freeing by offset in the region. `None` is the write past the top bin. */
  ghost function AfterHeapFree(s: State, mem: int): Option<(State, int)> {
    var a := s.base + mem - HEADER;
    var (s1, size) := Unlived(s, a);
    if size != 0 then
      match Release(s1.region, a)
      case Some(m) => Some((s1.(region := m), size))
      case None => None
    else Some((s1, 0))
  }

  /** The state without the large chunk listed at `a`, and its recorded size, which is the length passed
      to `munmap`; 0 if there is none. */
  ghost function Unmapped(s: State, a: int): (State, int) {
    if a != 0 && BigHas(s.big, a) then
      var size := BigSize(s.big, a);
      (s.(big := BigRemove(s.big, a), mapped := Munmap(s.mapped, a, size)), size)
    else (s, 0)
  }

  /** A large chunk is freed by its address, a heap chunk by its offset from the start of the region. */
  ghost function AfterFree(s: State, mem: int): Option<(State, int)> {
    var (s1, size) := Unmapped(s, mem - HEADER);
    if size != 0 then Some((s1, size)) else AfterHeapFree(s1, mem)
  }

  // ---------------------------------------------------------------- invariant

  ghost predicate SizeOrdered(bs: seq<Big>) {
    forall j, k :: 0 <= j < k < |bs| ==> bs[j].size <= bs[k].size
  }

  /** Each entry is mapped, with the byte count that its size records in 31 bits. */
  ghost predicate BigOk(bs: seq<Big>, mapped: map<int, int>) {
    && MappedOk(mapped) && SizeOrdered(bs)
    && (forall j, k :: 0 <= j < k < |bs| ==> bs[j].addr != bs[k].addr)
    && (forall k :: 0 <= k < |bs| ==> HEAP_BYTES <= bs[k].addr && EntryOk(bs[k], mapped))
  }

  ghost predicate EntryOk(b: Big, mapped: map<int, int>) {
    b.addr in mapped && b.size == Field31(mapped[b.addr])
  }

  ghost predicate BigOutside(s: State) {
    forall k :: 0 <= k < |s.big| ==> !(s.base <= s.big[k].addr < s.base + HEAP_BYTES)
  }

  /** Before the first heap request there is no region; afterwards its chunks tile it. */
  ghost predicate RegionOk(s: State) {
    if s.ready then 0 < s.base && Tiles(s.base, s.region) else s.base == 0 && s.region == map[]
  }

  ghost predicate InBounds(s: State) {
    0 <= s.base && forall x :: x in s.region ==> 0 < x && s.base <= x < s.base + HEAP_BYTES
  }

  ghost predicate Inv(s: State) {
    BigOk(s.big, s.mapped) && BigOutside(s) && RegionOk(s) && Unheld(s.region)
  }

  lemma AllocateKeepsOk(s: State, index: nat)
    requires RegionOk(s) && Unheld(s.region) && HasRoom(s.region, index) && index <= TOP
    ensures RegionOk(s.(region := Allocate(s.region, index))) && Unheld(Allocate(s.region, index))
  {
    TakenIsFree(s.region, index);
    AllocateSafe(s.base, s.region, index);
  }

  /** The steps of freeing the live chunk at `a`: it is held, it becomes free, and its bin is merged. */
  lemma ReleaseSteps(s: State, a: int)
    requires RegionOk(s) && Unheld(s.region) && a in s.region && s.region[a].tag == Live
    ensures var i := s.region[a].cls;
            var m, h := s.region[a := Chunk(i, Free)], s.region[a := Chunk(i, Held)];
            && s.ready && i <= TOP
            && h[a := Chunk(i, Free)] == m
            && RegionOk(s.(region := m)) && Unheld(m) && NonEmpty(m, i)
            && Release(s.region, a) == Release(h, a) == Merge(m, i)
  {
    assert InRegion(s.base, a, s.region[a]);
    RetagTiles(s.base, s.region, a, Free);
    assert InBin(s.region[a := Chunk(s.region[a].cls, Free)], s.region[a].cls, a);
    HeldReleases(s.region, a);
  }

  lemma HeldReleases(m: Region, a: int)
    requires a in m
    ensures Release(m[a := Chunk(m[a].cls, Held)], a) == Release(m, a)
  {
    assert m[a := Chunk(m[a].cls, Held)][a := Chunk(m[a].cls, Free)] == m[a := Chunk(m[a].cls, Free)];
  }

  /** That the chunk is held in between does not show. */
  lemma HeapFreeReleases(s: State, mem: int)
    ensures var a := s.base + mem - HEADER;
            if a in s.region && s.region[a].tag == Live then
              AfterHeapFree(s, mem) == match Release(s.region, a)
                                       case Some(m) => Some((s.(region := m), Size(s.region[a].cls)))
                                       case None => None
            else AfterHeapFree(s, mem) == Some((s, 0))
  {
    var a := s.base + mem - HEADER;
    if a in s.region {
      HeldReleases(s.region, a);
    }
    hide Release;
  }

  // ---------------------------------------------------------------- lemmas about mappings

  lemma MmapOk(mapped: map<int, int>, page: int, bytes: int)
    requires MappedOk(mapped) && ClearOf(mapped, page, bytes) && 0 < bytes
    ensures page !in mapped && MappedOk(mapped[page := bytes])
  {
    assert page in mapped ==> Clear(page, mapped[page], page, bytes);
  }

  /** Unmapping leaves the other mappings as they are. */
  lemma MunmapOk(mapped: map<int, int>, page: int, length: int)
    requires MappedOk(mapped)
    ensures var after := Munmap(mapped, page, length);
            && MappedOk(after)
            && forall a :: a in mapped && a != page ==> a in after && after[a] == mapped[a]
  {
    if page in mapped {
      forall a | a in mapped && a != page
        ensures Clear(a, mapped[a], page, mapped[page])
      {
      }
    }
  }

  /** It takes exactly that mapping away when it is given the full length. */
  lemma MunmapAllIff(mapped: map<int, int>, page: int, length: int)
    requires MappedOk(mapped) && page in mapped
    ensures (forall a :: a in Munmap(mapped, page, length) <==> a in mapped && a != page) <==> mapped[page] <= length
  {
    if 0 < length < mapped[page] {
      var rest := page + length;
      forall a | a in mapped && a != page
        ensures a != rest
      {
        assert Clear(a, mapped[a], page, mapped[page]);
      }
      assert rest in Munmap(mapped, page, length);
    }
  }

  // ---------------------------------------------------------------- lemmas about the list

  lemma ShiftInsert(bs: seq<Big>, b: Big, k: nat)
    requires 0 < k <= |bs|
    ensures [bs[0]] + (bs[1..][..k - 1] + [b] + bs[1..][k - 1..]) == bs[..k] + [b] + bs[k..]
  {
  }

  /** Insertion places the entry at `k` when everything before it, behind the head, is smaller. */
  lemma {:induction false} InsertTailAt(bs: seq<Big>, b: Big, k: nat)
    requires k <= |bs|
    requires forall j :: 0 <= j < k ==> bs[j].size < b.size
    requires k < |bs| ==> bs[k].size >= b.size
    ensures InsertTail(bs, b) == bs[..k] + [b] + bs[k..]
  {
    if k > 0 {
      InsertTailAt(bs[1..], b, k - 1);
      ShiftInsert(bs, b, k);
    }
  }

  lemma BigInsertAt(bs: seq<Big>, b: Big, k: nat)
    requires k <= |bs|
    requires k == 0 ==> bs == [] || bs[0].size > b.size
    requires k > 0 ==> bs[0].size <= b.size
    requires forall j :: 0 < j < k ==> bs[j].size < b.size
    requires 0 < k < |bs| ==> bs[k].size >= b.size
    ensures BigInsert(bs, b) == bs[..k] + [b] + bs[k..]
  {
    if k > 0 {
      InsertTailAt(bs[1..], b, k - 1);
      ShiftInsert(bs, b, k);
    }
  }

  lemma {:induction false} InsertTailPlace(bs: seq<Big>, b: Big) returns (k: nat)
    ensures k <= |bs|
    ensures forall j :: 0 <= j < k ==> bs[j].size < b.size
    ensures k < |bs| ==> bs[k].size >= b.size
    ensures InsertTail(bs, b) == bs[..k] + [b] + bs[k..]
  {
    k := 0;
    while k < |bs| && bs[k].size < b.size
      invariant k <= |bs|
      invariant forall j :: 0 <= j < k ==> bs[j].size < b.size
    {
      k := k + 1;
    }
    InsertTailAt(bs, b, k);
  }

  /** Where an insertion puts the entry. */
  lemma BigInsertPlace(bs: seq<Big>, b: Big) returns (k: nat)
    ensures k <= |bs| && BigInsert(bs, b) == bs[..k] + [b] + bs[k..]
    ensures k == 0 <==> bs == [] || bs[0].size > b.size
    ensures forall j :: 0 < j < k ==> bs[j].size < b.size
    ensures 0 < k < |bs| ==> b.size <= bs[k].size
    ensures SizeOrdered(bs) ==> forall j :: 0 <= j < k ==> bs[j].size <= b.size
    ensures SizeOrdered(bs) ==> forall j :: k <= j < |bs| ==> b.size <= bs[j].size
  {
    if bs == [] || bs[0].size > b.size {
      k := 0;
    } else {
      k := InsertTailPlace(bs[1..], b);
      k := k + 1;
      ShiftInsert(bs, b, k);
      forall j | SizeOrdered(bs) && 0 <= j < k
        ensures bs[j].size <= b.size
      {
        assert j > 0 ==> bs[j] == bs[1..][j - 1];
      }
    }
  }

  /** Removal takes out the entry at `k`, the first one with its address. */
  lemma {:induction false} BigRemoveAt(bs: seq<Big>, k: nat)
    requires k < |bs|
    requires forall j :: 0 <= j < k ==> bs[j].addr != bs[k].addr
    ensures BigRemove(bs, bs[k].addr) == bs[..k] + bs[k + 1..]
    ensures BigSize(bs, bs[k].addr) == bs[k].size
  {
    if k > 0 {
      BigRemoveAt(bs[1..], k - 1);
      assert bs[..k] == [bs[0]] + bs[1..][..k - 1];
      assert bs[k + 1..] == bs[1..][k..];
    }
  }

  /** Insertion keeps the list in order of size, without duplicates. */
  lemma BigInsertOk(bs: seq<Big>, mapped: map<int, int>, page: int, bytes: int)
    requires BigOk(bs, mapped) && ClearOf(mapped, page, bytes) && HEAP_BYTES <= page && 0 < bytes
    ensures page !in mapped
    ensures BigOk(BigInsert(bs, Big(page, Field31(bytes))), mapped[page := bytes])
  {
    MmapOk(mapped, page, bytes);
    hide MappedOk, ClearOf, Field31, BigInsert;
    var b := Big(page, Field31(bytes));
    var k := BigInsertPlace(bs, b);
    assert forall i :: 0 <= i < |bs| ==> EntryOk(bs[i], mapped) && EntryOk(bs[i], mapped[page := bytes]);
    assert EntryOk(b, mapped[page := bytes]);
    hide EntryOk;
    InsertAtOk(bs, b, k, mapped[page := bytes]);
  }

  lemma InsertAtOk(bs: seq<Big>, b: Big, k: nat, mapped: map<int, int>)
    requires k <= |bs| && BigOk(bs, mapped) && HEAP_BYTES <= b.addr && EntryOk(b, mapped)
    requires forall j :: 0 <= j < |bs| ==> bs[j].addr != b.addr
    requires forall j :: 0 <= j < k ==> bs[j].size <= b.size
    requires forall j :: k <= j < |bs| ==> b.size <= bs[j].size
    ensures BigOk(bs[..k] + [b] + bs[k..], mapped)
  {
    hide MappedOk, EntryOk;
    var cs := bs[..k] + [b] + bs[k..];
    forall i | 0 <= i < |cs|
      ensures cs[i] == if i == k then b else bs[if i < k then i else i - 1]
    {
    }
  }

  /** Removal keeps the list in order of size, without duplicates, and takes out one address. */
  lemma BigRemoveOk(bs: seq<Big>, mapped: map<int, int>, k: nat)
    requires BigOk(bs, mapped) && k < |bs|
    ensures BigOk(BigRemove(bs, bs[k].addr), Munmap(mapped, bs[k].addr, bs[k].size))
    ensures forall i :: 0 <= i < |BigRemove(bs, bs[k].addr)| ==> BigRemove(bs, bs[k].addr)[i].addr != bs[k].addr
  {
    hide MappedOk, Munmap, BigRemove, Field31;
    MunmapOk(mapped, bs[k].addr, bs[k].size);
    BigRemoveAt(bs, k);
    var after := Munmap(mapped, bs[k].addr, bs[k].size);
    assert forall i :: 0 <= i < |bs| && i != k ==> EntryOk(bs[i], mapped) && EntryOk(bs[i], after);
    hide EntryOk;
    CutOk(bs, k, after);
  }

  lemma CutOk(bs: seq<Big>, k: nat, mapped: map<int, int>)
    requires k < |bs| && MappedOk(mapped) && SizeOrdered(bs)
    requires forall i, j :: 0 <= i < j < |bs| ==> bs[i].addr != bs[j].addr
    requires forall i :: 0 <= i < |bs| && i != k ==> HEAP_BYTES <= bs[i].addr && EntryOk(bs[i], mapped)
    ensures var cs := bs[..k] + bs[k + 1..];
            BigOk(cs, mapped) && forall i :: 0 <= i < |cs| ==> cs[i].addr != bs[k].addr
  {
    hide MappedOk, EntryOk;
    var cs := bs[..k] + bs[k + 1..];
    forall i | 0 <= i < |cs|
      ensures cs[i] == bs[if i < k then i else i + 1] && cs[i].addr != bs[k].addr
    {
    }
  }
}
