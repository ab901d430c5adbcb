/** The slab allocator: zones of equal chunks, one list of zones per size class,
    on top of the page allocator.  Addresses are byte addresses; a page's number is
    its address divided by the page size. */
module Slab {
  import opened Lists
  import opened Machine
  import opened Pages
  import opened SlabZone

  const MIN_ZONE: nat := 32 * 1024
  const MAX_ZONE: nat := 128 * 1024
  const ZONE_LIMIT: nat := 16 * 1024
  const RELEASE_THRESH: nat := 2

  /** An entry of the page table: a page of a zone and its place in it, or the
      first page of a large block and its length. */
  datatype Usage = Unused | Small(offset: nat) | Large(pages: nat)

  /** What a run of allocated pages is for. */
  datatype Holding = ZoneInUse | SpareZone | Big(pages: nat)

  function PagesOf(h: Holding, cnt: nat): nat {
    if h.Big? then h.pages else cnt
  }

  /** The pages of a large request, rounded up in 32-bit arithmetic. */
  function PagesFor(bytes: u32): nat {
    (bytes + PAGE - 1) % WORD / PAGE
  }

  /** Whole pages, as few as hold the bytes, unless rounding wraps around: then none. */
  lemma PagesForCovers(bytes: u32)
    ensures bytes <= WORD - PAGE ==> bytes <= PagesFor(bytes) * PAGE < bytes + PAGE
    ensures bytes > WORD - PAGE ==> PagesFor(bytes) == 0
  {}

  /** The zone size for a region of `bytes` bytes: doubled while twice as much still is
      less than a thousandth of the region. */
  function ZoneSizeFor(bytes: nat): nat {
    if bytes / 1024 <= 2 * MIN_ZONE then MIN_ZONE else if bytes / 1024 <= 4 * MIN_ZONE then 2 * MIN_ZONE else MAX_ZONE
  }

  /** The pages the page table takes, four bytes for each page of the region. */
  function TablePages(npages: nat): nat {
    (npages * 4 + PAGE - 1) / PAGE
  }

  lemma TableHolds(npages: nat)
    ensures 4 * npages <= TablePages(npages) * PAGE < 4 * npages + PAGE
  {}

  predicate ZoneSizeOk(zoneSize: nat) {
    zoneSize == MIN_ZONE || zoneSize == 2 * MIN_ZONE || zoneSize == MAX_ZONE
  }

  /** Zone `z` is laid out in its pages as its size class says, with as many chunks as fit. */
  ghost predicate Fitted(z: nat, zone: Zone, zoneSize: nat) {
    && zone.index < NZONES && zone.size == ChunkSize(zone.index) && zone.size > 0
    && zone.base == z * PAGE + Offset(zone.size)
    && Offset(zone.size) + zone.nmax * zone.size <= zoneSize < Offset(zone.size) + zone.nmax * zone.size + zone.size
    && zone.nmax >= 2
  }

  ghost predicate ZonesOk(zones: map<nat, Zone>, out: map<nat, iset<int>>, zoneSize: nat) {
    && zones.Keys == out.Keys
    && forall z | z in zones :: z in out && Fitted(z, zones[z], zoneSize) && ZoneOk(zones[z], out[z])
  }

  /** The list of class `c` holds exactly the zones of that class with free chunks. */
  ghost predicate ListOk(list: seq<nat>, c: nat, zones: map<nat, Zone>) {
    && Distinct(list)
    && (forall z | z in list :: z in zones && zones[z].index == c && zones[z].nfree > 0)
    && (forall z | z in zones && zones[z].nfree > 0 && zones[z].index == c :: z in list)
  }

  ghost predicate ListsOk(zoneArray: seq<seq<nat>>, zones: map<nat, Zone>) {
    |zoneArray| == NZONES && forall c: nat | c < NZONES :: ListOk(zoneArray[c], c, zones)
  }

  /** The allocated runs do not overlap each other or the free pages. */
  ghost predicate OwnedOk(owned: map<nat, Holding>, cnt: nat, free: iset<int>) {
    && 0 !in free
    && (forall p | p in owned :: p > 0 && PagesOf(owned[p], cnt) > 0 && Range(p, PagesOf(owned[p], cnt)) !! free)
    && forall p, q | p in owned && q in owned && p < q :: p + PagesOf(owned[p], cnt) <= q
  }

  ghost predicate HeldBy(owned: map<nat, Holding>, cnt: nat, q: nat, page: int) {
    q in owned && Within(page, q, PagesOf(owned[q], cnt))
  }

  ghost predicate Held(owned: map<nat, Holding>, cnt: nat, page: int) {
    exists q :: HeldBy(owned, cnt, q, page)
  }

  /** The pages of the region are the free ones and those of the allocated runs: none is lost, none is invented. */
  ghost predicate Covers(owned: map<nat, Holding>, cnt: nat, free: iset<int>, region: iset<int>) {
    forall page :: page in region <==> page in free || Held(owned, cnt, page)
  }

  /** Every run is a zone in use, a spare zone or a large block, and known as such. */
  ghost predicate KindsOk(owned: map<nat, Holding>, inUse: set<nat>, zoneFree: seq<nat>) {
    && Distinct(zoneFree)
    && (forall p | p in inUse :: p in owned && owned[p] == ZoneInUse)
    && (forall p | p in zoneFree :: p in owned && owned[p] == SpareZone)
    && forall p | p in owned :: (owned[p] == ZoneInUse ==> p in inUse) && (owned[p] == SpareZone ==> p in zoneFree)
  }

  /** The page table describes every allocated run. */
  ghost predicate UsageOk(usage: map<nat, Usage>, owned: map<nat, Holding>, cnt: nat) {
    forall p | p in owned :: Described(usage, p, owned[p], cnt)
  }

  ghost predicate Described(usage: map<nat, Usage>, p: nat, h: Holding, cnt: nat) {
    if h.Big? then p in usage && usage[p] == Large(h.pages)
    else forall o: nat | o < cnt :: Entry(usage, p + o) == Small(o)
  }

  function Entry(usage: map<nat, Usage>, p: nat): Usage {
    if p in usage then usage[p] else Unused
  }

  // ----- address arithmetic

  /** A chunk handed out lies within its zone's pages, so the page table leads from
      its address back to its zone. */
  lemma ChunkLeadsToZone(z: nat, zone: Zone, zoneSize: nat, a: int)
    requires ZoneSizeOk(zoneSize) && Fitted(z, zone, zoneSize) && UsedChunk(zone, a) && zone.uindex < zone.nmax
    ensures z * PAGE < a && z <= a / PAGE < z + zoneSize / PAGE
    ensures a + zone.size <= (z + zoneSize / PAGE) * PAGE
  {
    var k :| 0 <= k <= zone.uindex && a == Chunk(zone, k);
    Multiples(k, zone.nmax, zone.size);
    assert k * zone.size >= 0;
    assert zoneSize / PAGE * PAGE == zoneSize;
  }

  /** A zone of any class has room for at least two chunks. */
  lemma NewZoneFits(n: nat, zoneSize: nat)
    requires ZoneSizeOk(zoneSize) && 0 < n && n < zoneSize / 4 && n < ZONE_LIMIT
    ensures var size := ZoneIndex(n).size; var off := Offset(size);
      && size > 0 && off < zoneSize && (zoneSize - off) / size >= 2
      && off + (zoneSize - off) / size * size <= zoneSize < off + (zoneSize - off) / size * size + size
  {
    hide ZoneIndex, Offset;
    ZoneIndexIsTightest(n);
    LimitRounds(n, zoneSize);
    var size := ZoneIndex(n).size;
    var off := Offset(size);
    assert off < HEADER + size;
    AtLeastTwo(zoneSize - off, size);
  }

  lemma AtLeastTwo(m: nat, s: nat)
    requires s > 0 && m >= 2 * s
    ensures m / s >= 2 && m / s * s <= m < m / s * s + s
  {
    var q := m / s;
    assert m == q * s + m % s;
    if q < 2 { Multiples(q, 2, s); }
  }

  /** Rounding a request up to its chunk size does not take it over the limit. */
  lemma LimitRounds(n: nat, zoneSize: nat)
    requires ZoneSizeOk(zoneSize) && 0 < n && n < zoneSize / 4 && n < ZONE_LIMIT
    ensures ZoneIndex(n).size <= zoneSize / 4
  {
    var q := ZoneIndexGrains(n);
  }

  // ----- runs of pages

  lemma DisjointRanges(a: int, m: int, b: int, n: int)
    requires m > 0 && n > 0 && Range(a, m) !! Range(b, n)
    ensures a + m <= b || b + n <= a
  {
    assert Within(a, b, n) ==> a in Range(a, m) && a in Range(b, n);
    assert Within(b, a, m) ==> b in Range(a, m) && b in Range(b, n);
  }

  /** Free pages become an allocated run ... */
  lemma OwnedAdd(owned: map<nat, Holding>, cnt: nat, free: iset<int>, p: nat, h: Holding)
    requires OwnedOk(owned, cnt, free) && PagesOf(h, cnt) > 0 && Range(p, PagesOf(h, cnt)) <= free
    ensures p > 0 && p !in owned && OwnedOk(owned[p := h], cnt, free - Range(p, PagesOf(h, cnt)))
    ensures forall q | q in owned :: p + PagesOf(h, cnt) <= q || q + PagesOf(owned[q], cnt) <= p
  {
    var n := PagesOf(h, cnt);
    assert Within(p, p, n);
    forall q | q in owned ensures p + n <= q || q + PagesOf(owned[q], cnt) <= p {
      DisjointRanges(p, n, q, PagesOf(owned[q], cnt));
    }
  }

  /** ... and an allocated run becomes free pages. */
  lemma OwnedDrop(owned: map<nat, Holding>, cnt: nat, free: iset<int>, p: nat)
    requires OwnedOk(owned, cnt, free) && p in owned
    ensures Range(p, PagesOf(owned[p], cnt)) !! free
    ensures OwnedOk(owned - {p}, cnt, free + Range(p, PagesOf(owned[p], cnt)))
  {
    var n := PagesOf(owned[p], cnt);
    forall q | q in owned && q != p ensures Range(q, PagesOf(owned[q], cnt)) !! Range(p, n) {
      assert if p < q then p + n <= q else q + PagesOf(owned[q], cnt) <= p;
    }
  }

  /** Changing what a run is for changes no run's pages. */
  lemma OwnedRename(owned: map<nat, Holding>, cnt: nat, free: iset<int>, p: nat, h: Holding)
    requires OwnedOk(owned, cnt, free) && p in owned && PagesOf(h, cnt) == PagesOf(owned[p], cnt)
    ensures OwnedOk(owned[p := h], cnt, free)
  {}

  lemma CoversAdd(owned: map<nat, Holding>, cnt: nat, free: iset<int>, region: iset<int>, p: nat, h: Holding)
    requires Covers(owned, cnt, free, region) && p !in owned && Range(p, PagesOf(h, cnt)) <= free
    ensures Covers(owned[p := h], cnt, free - Range(p, PagesOf(h, cnt)), region)
  {
    var owned2 := owned[p := h];
    forall page ensures Held(owned2, cnt, page) <==> Held(owned, cnt, page) || page in Range(p, PagesOf(h, cnt)) {
      if q :| HeldBy(owned, cnt, q, page) { assert HeldBy(owned2, cnt, q, page); }
      if page in Range(p, PagesOf(h, cnt)) { assert HeldBy(owned2, cnt, p, page); }
      if q :| HeldBy(owned2, cnt, q, page) { assert q != p ==> HeldBy(owned, cnt, q, page); }
    }
  }

  lemma CoversDrop(owned: map<nat, Holding>, cnt: nat, free: iset<int>, region: iset<int>, p: nat)
    requires Covers(owned, cnt, free, region) && OwnedOk(owned, cnt, free) && p in owned
    ensures Covers(owned - {p}, cnt, free + Range(p, PagesOf(owned[p], cnt)), region)
  {
    var owned2, run := owned - {p}, Range(p, PagesOf(owned[p], cnt));
    forall page ensures page in run || Held(owned2, cnt, page) <==> Held(owned, cnt, page) {
      if q :| HeldBy(owned, cnt, q, page) { assert q != p ==> HeldBy(owned2, cnt, q, page); }
      if q :| HeldBy(owned2, cnt, q, page) { assert HeldBy(owned, cnt, q, page); }
      if page in run { assert HeldBy(owned, cnt, p, page); }
    }
  }

  lemma CoversRename(owned: map<nat, Holding>, cnt: nat, free: iset<int>, region: iset<int>, p: nat, h: Holding)
    requires Covers(owned, cnt, free, region) && p in owned && PagesOf(h, cnt) == PagesOf(owned[p], cnt)
    ensures Covers(owned[p := h], cnt, free, region)
  {
    var owned2 := owned[p := h];
    forall page ensures Held(owned2, cnt, page) <==> Held(owned, cnt, page) {
      if q :| HeldBy(owned, cnt, q, page) { assert HeldBy(owned2, cnt, q, page); }
      if q :| HeldBy(owned2, cnt, q, page) { assert HeldBy(owned, cnt, q, page); }
    }
  }

  /** What a page of the region is used for. */
  datatype Use = FreePage | InZone(z: nat) | InSpare(z: nat) | InLarge(p: nat)

  ghost predicate UsedAs(owned: map<nat, Holding>, inUse: set<nat>, zoneFree: seq<nat>, cnt: nat, free: iset<int>,
                         page: int, u: Use)
  {
    match u
    case FreePage => page in free
    case InZone(z) => z in inUse && Within(page, z, cnt)
    case InSpare(z) => z in zoneFree && Within(page, z, cnt)
    case InLarge(p) => p in owned && owned[p].Big? && Within(page, p, owned[p].pages)
  }

  /** Every page of the region has exactly one use, and every other page none. */
  lemma PageHasOneUse(owned: map<nat, Holding>, inUse: set<nat>, zoneFree: seq<nat>, cnt: nat, free: iset<int>,
                      region: iset<int>, page: int)
    requires OwnedOk(owned, cnt, free) && KindsOk(owned, inUse, zoneFree) && Covers(owned, cnt, free, region)
    ensures page in region <==> exists u :: UsedAs(owned, inUse, zoneFree, cnt, free, page, u)
    ensures forall u, v | UsedAs(owned, inUse, zoneFree, cnt, free, page, u)
      && UsedAs(owned, inUse, zoneFree, cnt, free, page, v) :: u == v
  {
    forall u | UsedAs(owned, inUse, zoneFree, cnt, free, page, u)
      ensures page in region && (page in free <==> u.FreePage?)
      ensures !u.FreePage? ==> HeldBy(owned, cnt, RunOf(u), page)
    {
      UseInRegion(owned, inUse, zoneFree, cnt, free, region, page, u);
    }
    forall u, v | UsedAs(owned, inUse, zoneFree, cnt, free, page, u)
      && UsedAs(owned, inUse, zoneFree, cnt, free, page, v) ensures u == v
    {
      if !u.FreePage? { OnlyRun(owned, cnt, free, RunOf(u), RunOf(v), page); }
    }
    if page in free {
      assert UsedAs(owned, inUse, zoneFree, cnt, free, page, FreePage);
    } else if q :| HeldBy(owned, cnt, q, page) {
      var u := match owned[q] case ZoneInUse => InZone(q) case SpareZone => InSpare(q) case Big(_) => InLarge(q);
      assert UsedAs(owned, inUse, zoneFree, cnt, free, page, u);
    }
  }

  function RunOf(u: Use): nat {
    match u case FreePage => 0 case InZone(z) => z case InSpare(z) => z case InLarge(p) => p
  }

  lemma UseInRegion(owned: map<nat, Holding>, inUse: set<nat>, zoneFree: seq<nat>, cnt: nat, free: iset<int>,
                    region: iset<int>, page: int, u: Use)
    requires OwnedOk(owned, cnt, free) && KindsOk(owned, inUse, zoneFree) && Covers(owned, cnt, free, region)
    requires UsedAs(owned, inUse, zoneFree, cnt, free, page, u)
    ensures page in region && (page in free <==> u.FreePage?)
    ensures !u.FreePage? ==> HeldBy(owned, cnt, RunOf(u), page)
  {
    if !u.FreePage? {
      assert HeldBy(owned, cnt, RunOf(u), page);
      assert page in Range(RunOf(u), PagesOf(owned[RunOf(u)], cnt));
    }
  }

  /** Entries outside a run are not needed to describe it. */
  lemma UsageElsewhere(usage: map<nat, Usage>, usage2: map<nat, Usage>, owned: map<nat, Holding>, cnt: nat, p: nat,
                       n: nat)
    requires UsageOk(usage, owned, cnt) && n > 0
    requires forall q | q in owned :: PagesOf(owned[q], cnt) > 0 && (p + n <= q || q + PagesOf(owned[q], cnt) <= p)
    requires forall q: nat | q < p || p + n <= q :: Entry(usage2, q) == Entry(usage, q)
    ensures UsageOk(usage2, owned, cnt)
  {
    forall q | q in owned ensures Described(usage2, q, owned[q], cnt) {
      assert Described(usage, q, owned[q], cnt);
      assert Entry(usage2, q) == Entry(usage, q);
    }
  }

  /** The table entries of a fresh zone. */
  ghost predicate Marked(usage: map<nat, Usage>, usage2: map<nat, Usage>, z: nat, cnt: nat) {
    && (forall o: nat | o < cnt :: Entry(usage2, z + o) == Small(o))
    && (forall q: nat | q < z || z + cnt <= q :: Entry(usage2, q) == Entry(usage, q))
  }

  lemma UsageAdd(usage: map<nat, Usage>, owned: map<nat, Holding>, cnt: nat, p: nat, h: Holding)
    requires UsageOk(usage, owned, cnt) && Described(usage, p, h, cnt)
    ensures UsageOk(usage, owned[p := h], cnt)
  {}

  // ----- blocks handed out

  datatype Block = Block(addr: int, bytes: int)

  ghost predicate ChunkBlock(zones: map<nat, Zone>, out: map<nat, iset<int>>, z: nat, b: Block) {
    z in zones && z in out && b.addr in out[z] && b.bytes == zones[z].size
  }

  ghost predicate LargeBlock(owned: map<nat, Holding>, p: nat, b: Block) {
    p in owned && owned[p].Big? && b.addr == p * PAGE && b.bytes == owned[p].pages * PAGE
  }

  ghost predicate IsLive(zones: map<nat, Zone>, out: map<nat, iset<int>>, owned: map<nat, Holding>, b: Block) {
    (exists z :: ChunkBlock(zones, out, z, b)) || (exists p :: LargeBlock(owned, p, b))
  }

  ghost function LiveBlocks(zones: map<nat, Zone>, out: map<nat, iset<int>>, owned: map<nat, Holding>): iset<Block> {
    iset b | IsLive(zones, out, owned, b)
  }

  ghost predicate WellFormed(zones: map<nat, Zone>, out: map<nat, iset<int>>, owned: map<nat, Holding>,
                             zoneFree: seq<nat>, zoneSize: nat, free: iset<int>)
  {
    && ZoneSizeOk(zoneSize) && ZonesOk(zones, out, zoneSize)
    && OwnedOk(owned, zoneSize / PAGE, free) && KindsOk(owned, zones.Keys, zoneFree)
  }

  lemma KindOf(owned: map<nat, Holding>, inUse: set<nat>, zoneFree: seq<nat>, z: nat)
    requires KindsOk(owned, inUse, zoneFree) && z in inUse
    ensures z in owned && owned[z] == ZoneInUse
  {}

  /** A page lies in one run only. */
  lemma OnlyRun(owned: map<nat, Holding>, cnt: nat, free: iset<int>, p: nat, q: nat, page: int)
    requires OwnedOk(owned, cnt, free) && p in owned && q in owned
    requires p <= page < p + PagesOf(owned[p], cnt) && q <= page < q + PagesOf(owned[q], cnt)
    ensures p == q
  {}

  lemma ChunkInZone(zones: map<nat, Zone>, out: map<nat, iset<int>>, zoneSize: nat, z: nat, b: Block)
    requires ZoneSizeOk(zoneSize) && ZonesOk(zones, out, zoneSize) && ChunkBlock(zones, out, z, b)
    ensures z in zones && z * PAGE < b.addr && z <= b.addr / PAGE < z + zoneSize / PAGE
    ensures b.bytes > 0 && b.addr + b.bytes <= (z + zoneSize / PAGE) * PAGE
  {
    ChunkLeadsToZone(z, zones[z], zoneSize, b.addr);
  }

  lemma LargePages(owned: map<nat, Holding>, cnt: nat, free: iset<int>, p: nat, b: Block)
    requires OwnedOk(owned, cnt, free) && LargeBlock(owned, p, b)
    ensures p in owned && owned[p].Big? && b.addr / PAGE == p && PagesOf(owned[p], cnt) > 0
    ensures b.addr == p * PAGE && b.bytes == owned[p].pages * PAGE && b.bytes > 0
  {}

  /** Where a live block lies: inside one allocated run. */
  lemma LiveInRun(zones: map<nat, Zone>, out: map<nat, iset<int>>, owned: map<nat, Holding>, zoneFree: seq<nat>,
                  zoneSize: nat, free: iset<int>, b: Block) returns (p: nat)
    requires WellFormed(zones, out, owned, zoneFree, zoneSize, free) && IsLive(zones, out, owned, b)
    ensures ChunkBlock(zones, out, p, b) || LargeBlock(owned, p, b)
    ensures p in owned && p * PAGE <= b.addr && b.addr + b.bytes <= (p + PagesOf(owned[p], zoneSize / PAGE)) * PAGE
      && b.bytes > 0
  {
    hide OwnedOk, KindsOk, ZonesOk, ZoneSizeOk, ChunkBlock, LargeBlock;
    if z :| ChunkBlock(zones, out, z, b) {
      p := z;
      ChunkInZone(zones, out, zoneSize, z, b);
      KindOf(owned, zones.Keys, zoneFree, z);
    } else {
      p :| LargeBlock(owned, p, b);
      LargePages(owned, zoneSize / PAGE, free, p, b);
    }
  }

  /** Two chunks of one zone do not overlap. */
  lemma ChunksDisjoint(zone: Zone, used: iset<int>, a: int, b: int)
    requires ZoneOk(zone, used) && a in used && b in used && a != b
    ensures a + zone.size <= b || b + zone.size <= a
  {
    var i :| 0 <= i <= zone.uindex && a == Chunk(zone, i);
    var j :| 0 <= j <= zone.uindex && b == Chunk(zone, j);
    hide ChunkIn;
    ChunksDiffer(zone, i, j);
    ChunksDiffer(zone, j, i);
  }

  /** No two blocks handed out overlap. */
  lemma LiveBlocksDisjoint(zones: map<nat, Zone>, out: map<nat, iset<int>>, owned: map<nat, Holding>,
                           zoneFree: seq<nat>, zoneSize: nat, free: iset<int>, b: Block, c: Block)
    requires WellFormed(zones, out, owned, zoneFree, zoneSize, free) && b != c
    requires IsLive(zones, out, owned, b) && IsLive(zones, out, owned, c)
    ensures b.addr + b.bytes <= c.addr || c.addr + c.bytes <= b.addr
  {
    hide ZoneOk, Fitted, IsLive, ZoneSizeOk;
    var p: nat := LiveInRun(zones, out, owned, zoneFree, zoneSize, free, b);
    var q := LiveInRun(zones, out, owned, zoneFree, zoneSize, free, c);
    if p == q && p in zones {
      ChunksDisjoint(zones[p], out[p], b.addr, c.addr);
    }
  }

  /** A block whose size is a power of two is aligned to it exactly when the size is at most
      a page or the run of pages it lies in is so aligned. */
  lemma PowerAligned(zones: map<nat, Zone>, out: map<nat, iset<int>>, owned: map<nat, Holding>, zoneFree: seq<nat>,
                     zoneSize: nat, free: iset<int>, b: Block) returns (p: nat)
    requires WellFormed(zones, out, owned, zoneFree, zoneSize, free) && IsLive(zones, out, owned, b)
    requires b.bytes > 0 && IsPowerOfTwo(b.bytes)
    ensures p in owned && p * PAGE <= b.addr < (p + PagesOf(owned[p], zoneSize / PAGE)) * PAGE
    ensures b.addr % b.bytes == 0 <==> b.bytes <= PAGE || p * PAGE % b.bytes == 0
  {
    hide IsPowerOfTwo, Offset, ChunkBlock, LargeBlock, OwnedOk, KindsOk, ZonesOk, ZoneSizeOk;
    p := LiveInRun(zones, out, owned, zoneFree, zoneSize, free, b);
    AlignedInRun(zones, out, owned, zoneSize, p, b);
  }

  lemma AlignedInRun(zones: map<nat, Zone>, out: map<nat, iset<int>>, owned: map<nat, Holding>, zoneSize: nat, p: nat,
                     b: Block)
    requires ZonesOk(zones, out, zoneSize) && (ChunkBlock(zones, out, p, b) || LargeBlock(owned, p, b))
    requires b.bytes > 0 && IsPowerOfTwo(b.bytes)
    ensures b.addr % b.bytes == 0 <==> b.bytes <= PAGE || p * PAGE % b.bytes == 0
  {
    hide IsPowerOfTwo, Offset;
    if ChunkBlock(zones, out, p, b) {
      var k :| 0 <= k <= zones[p].uindex && b.addr == Chunk(zones[p], k);
      ChunkAligned(p, b.bytes, k);
    } else if b.bytes <= PAGE {
      PageMultiple(p, b.bytes);
    }
  }

  // ----- whole steps

  lemma FitIsFree(list: seq<Run>, p: nat, n: nat)
    requires LowestFit(list, p, n)
    ensures Range(p, n) <= FreePages(list)
  {
    forall q | q in Range(p, n) ensures q in FreePages(list) { assert IsFree(list, q); }
  }

  lemma FirstFits(start: nat, npages: nat, n: nat)
    requires 0 < n <= npages
    ensures !NoRun([Run(start, npages)], n)
  {
    var list := [Run(start, npages)];
    forall q | start <= q < start + n ensures IsFree(list, q) { assert InRun(list, 0, q); }
    assert AllFree(list, start, n);
  }

  lemma LargeFacts(zones: map<nat, Zone>, out: map<nat, iset<int>>, owned: map<nat, Holding>, zoneFree: seq<nat>,
                   zoneSize: nat, free: iset<int>, usage: map<nat, Usage>, p: nat, n: nat)
    requires WellFormed(zones, out, owned, zoneFree, zoneSize, free) && UsageOk(usage, owned, zoneSize / PAGE)
    requires n > 0 && Range(p, n) <= free
    ensures p > 0
    ensures var owned2 := owned[p := Big(n)];
      && WellFormed(zones, out, owned2, zoneFree, zoneSize, free - Range(p, n))
      && UsageOk(usage[p := Large(n)], owned2, zoneSize / PAGE)
  {
    hide ZonesOk, ZoneSizeOk, Distinct;
    var cnt := zoneSize / PAGE;
    OwnedAdd(owned, cnt, free, p, Big(n));
    UsageElsewhere(usage, usage[p := Large(n)], owned, cnt, p, n);
    UsageAdd(usage[p := Large(n)], owned, cnt, p, Big(n));
  }

  lemma LargeIsNew(zones: map<nat, Zone>, out: map<nat, iset<int>>, owned: map<nat, Holding>, zoneFree: seq<nat>,
                   zoneSize: nat, free: iset<int>, p: nat, n: nat)
    requires WellFormed(zones, out, owned, zoneFree, zoneSize, free) && n > 0 && Range(p, n) <= free
    ensures Block(p * PAGE, n * PAGE) !in LiveBlocks(zones, out, owned)
    ensures LiveBlocks(zones, out, owned[p := Big(n)])
      == LiveBlocks(zones, out, owned) + iset{Block(p * PAGE, n * PAGE)}
  {
    var b, owned2 := Block(p * PAGE, n * PAGE), owned[p := Big(n)];
    hide ZonesOk;
    OwnedAdd(owned, zoneSize / PAGE, free, p, Big(n));
    if IsLive(zones, out, owned, b) {
      var q: nat := LiveInRun(zones, out, owned, zoneFree, zoneSize, free, b);
    }
    hide WellFormed, ChunkBlock;
    forall c ensures IsLive(zones, out, owned2, c) <==> IsLive(zones, out, owned, c) || c == b {
      forall q: nat | q != p ensures LargeBlock(owned2, q, c) <==> LargeBlock(owned, q, c) {}
      assert LargeBlock(owned2, p, c) <==> c == b;
    }
  }

  /** One zone's list and its entry change together. */
  lemma ListsUpdate(zoneArray: seq<seq<nat>>, zones: map<nat, Zone>, z: nat, zone: Zone, list: seq<nat>)
    requires ListsOk(zoneArray, zones) && zone.index < NZONES && Distinct(list)
    requires z in zones ==> zones[z].index == zone.index
    requires forall y: nat | y != z :: y in list <==> y in zoneArray[zone.index]
    requires z in list <==> zone.nfree > 0
    ensures ListsOk(zoneArray[zone.index := list], zones[z := zone])
  {
    var lists2, zones2 := zoneArray[zone.index := list], zones[z := zone];
    forall c: nat | c < NZONES ensures ListOk(lists2[c], c, zones2) {
      assert ListOk(zoneArray[c], c, zones);
    }
  }

  lemma ListsRemove(zoneArray: seq<seq<nat>>, zones: map<nat, Zone>, z: nat, list: seq<nat>)
    requires ListsOk(zoneArray, zones) && z in zones && zones[z].index < NZONES && Distinct(list)
    requires forall y: nat :: y in list <==> y in zoneArray[zones[z].index] && y != z
    ensures ListsOk(zoneArray[zones[z].index := list], zones - {z})
  {
    var lists2, zones2 := zoneArray[zones[z].index := list], zones - {z};
    forall c: nat | c < NZONES ensures ListOk(lists2[c], c, zones2) {
      assert ListOk(zoneArray[c], c, zones);
    }
  }

  lemma TailMembers(list: seq<nat>)
    requires Distinct(list) && list != []
    ensures Distinct(list[1..]) && forall y: nat :: y in list[1..] <==> y in list && y != list[0]
  {
    forall y: nat | y in list && y != list[0] ensures y in list[1..] {
      var i :| 0 <= i < |list| && list[i] == y;
      assert list[1..][i - 1] == y;
    }
    forall i | 0 <= i < |list[1..]| ensures list[1..][i] == list[i + 1] && list[1..][i] != list[0] {}
  }

  lemma PushMembers(list: seq<nat>, z: nat)
    requires Distinct(list) && z !in list
    ensures Distinct([z] + list) && forall y: nat :: y in [z] + list <==> y in list || y == z
  {}

  /** A zone's chunks change hands; nothing else does. */
  lemma ChunkStep(zones: map<nat, Zone>, out: map<nat, iset<int>>, owned: map<nat, Holding>, zoneFree: seq<nat>,
                  zoneSize: nat, free: iset<int>, z: nat, zone: Zone, used: iset<int>)
    requires WellFormed(zones, out, owned, zoneFree, zoneSize, free) && z in zones
    requires Fitted(z, zone, zoneSize) && ZoneOk(zone, used)
    ensures WellFormed(zones[z := zone], out[z := used], owned, zoneFree, zoneSize, free)
  {
    assert zones[z := zone].Keys == zones.Keys;
  }

  ghost predicate LiveElsewhere(zones: map<nat, Zone>, out: map<nat, iset<int>>, owned: map<nat, Holding>, z: nat,
                                b: Block)
  {
    (exists y :: y != z && ChunkBlock(zones, out, y, b)) || (exists p :: LargeBlock(owned, p, b))
  }

  /** The blocks handed out when zone `z` hands out `used`. */
  lemma ChunkLive(zones: map<nat, Zone>, out: map<nat, iset<int>>, owned: map<nat, Holding>, z: nat, zone: Zone,
                  used: iset<int>, b: Block)
    ensures IsLive(zones[z := zone], out[z := used], owned, b) <==>
      (b.addr in used && b.bytes == zone.size) || LiveElsewhere(zones, out, owned, z, b)
  {
    var zones2, out2 := zones[z := zone], out[z := used];
    if y :| ChunkBlock(zones2, out2, y, b) {
      if y != z { assert ChunkBlock(zones, out, y, b); }
    }
    if y :| y != z && ChunkBlock(zones, out, y, b) {
      assert ChunkBlock(zones2, out2, y, b);
    }
    assert ChunkBlock(zones2, out2, z, b) <==> b.addr in used && b.bytes == zone.size;
  }

  lemma ChunkIsNew(zones: map<nat, Zone>, out: map<nat, iset<int>>, owned: map<nat, Holding>, zoneFree: seq<nat>,
                   zoneSize: nat, free: iset<int>, z: nat, zone: Zone, a: int)
    requires WellFormed(zones, out, owned, zoneFree, zoneSize, free) && z in owned && owned[z] == ZoneInUse
    requires Fitted(z, zone, zoneSize) && UsedChunk(zone, a) && zone.uindex < zone.nmax
    requires z in out ==> a !in out[z]
    ensures forall n :: Block(a, n) !in LiveBlocks(zones, out, owned)
  {
    ChunkLeadsToZone(z, zone, zoneSize, a);
    forall n | IsLive(zones, out, owned, Block(a, n)) ensures false {
      var p: nat := LiveInRun(zones, out, owned, zoneFree, zoneSize, free, Block(a, n));
    }
  }

  lemma HeadFacts(zoneArray: seq<seq<nat>>, zones: map<nat, Zone>, zi: nat)
    requires ListsOk(zoneArray, zones) && zi < NZONES && zoneArray[zi] != []
    ensures |zoneArray| == NZONES
    ensures var z := zoneArray[zi][0]; z in zones && zones[z].index == zi && zones[z].nfree > 0
  {
    var z := zoneArray[zi][0];
    assert ListOk(zoneArray[zi], zi, zones) && z in zoneArray[zi];
  }

  /** Everything about taking a chunk from the first zone of class `zi`. */
  lemma TakeStep(zones: map<nat, Zone>, out: map<nat, iset<int>>, owned: map<nat, Holding>, zoneFree: seq<nat>,
                 zoneArray: seq<seq<nat>>, zoneSize: nat, free: iset<int>, zi: nat)
    requires WellFormed(zones, out, owned, zoneFree, zoneSize, free) && ListsOk(zoneArray, zones)
    requires zi < NZONES && zoneArray[zi] != [] && zoneArray[zi][0] in zones && zones[zoneArray[zi][0]].index == zi
    requires zones[zoneArray[zi][0]].nfree > 0
    ensures var z := zoneArray[zi][0];
      && z in out && ZoneOk(zones[z], out[z]) && zones[z].size == ChunkSize(zi)
      && (zones[z].uindex + 1 == zones[z].nmax ==> zones[z].free != [])
      && var zone := TakeChunk(zones[z]); var a := TakenChunk(zones[z]);
         && WellFormed(zones[z := zone], out[z := out[z] + iset{a}], owned, zoneFree, zoneSize, free)
         && ListsOk(if zone.nfree == 0 then zoneArray[zi := zoneArray[zi][1..]] else zoneArray, zones[z := zone])
         && Block(a, ChunkSize(zi)) !in LiveBlocks(zones, out, owned)
         && LiveBlocks(zones[z := zone], out[z := out[z] + iset{a}], owned)
            == LiveBlocks(zones, out, owned) + iset{Block(a, ChunkSize(zi))}
  {
    var z := zoneArray[zi][0];
    var zone0 := zones[z];
    TakeKeeps(zone0, out[z]);
    var zone, a := TakeChunk(zone0), TakenChunk(zone0);
    hide ZoneOk, UsedChunk, OwnedOk, ListsOk;
    ChunkStep(zones, out, owned, zoneFree, zoneSize, free, z, zone, out[z] + iset{a});
    UIndexBound(zone, out[z] + iset{a});
    ChunkIsNew(zones, out, owned, zoneFree, zoneSize, free, z, zone, a);
    LiveAdds(zones, out, owned, z, zone, a);
    TakeLists(zoneArray, zones, zi, zone);
  }

  /** Zone `z` has handed out `a`: a chunk never used before if there is one, else the last that came back. */
  ghost predicate TakenFrom(zones: map<nat, Zone>, zones2: map<nat, Zone>, z: nat, a: int) {
    && z in zones
    && var zone := zones[z];
       if zone.uindex + 1 < zone.nmax
       then a == zone.base + (zone.uindex + 1) * zone.size
            && zones2 == zones[z := zone.(nfree := zone.nfree - 1, uindex := zone.uindex + 1)]
       else zone.free != [] && a == zone.free[0]
            && zones2 == zones[z := zone.(nfree := zone.nfree - 1, free := zone.free[1..])]
  }

  /** The first zone of a class goes off the list when it has no free chunk left. */
  function OffWhenFull(zoneArray: seq<seq<nat>>, c: nat, zones: map<nat, Zone>): seq<seq<nat>>
    requires c < |zoneArray| && zoneArray[c] != [] && zoneArray[c][0] in zones
  {
    if zones[zoneArray[c][0]].nfree == 0 then zoneArray[c := zoneArray[c][1..]] else zoneArray
  }

  lemma OffFull(zoneArray: seq<seq<nat>>, c: nat, zones: map<nat, Zone>)
    requires c < |zoneArray| && zoneArray[c] != [] && zoneArray[c][0] in zones
    ensures OffWhenFull(zoneArray, c, zones)
      == if zones[zoneArray[c][0]].nfree == 0 then zoneArray[c := zoneArray[c][1..]] else zoneArray
  {}

  lemma TookIt(zones: map<nat, Zone>, z: nat, zone: Zone, a: int)
    requires z in zones && (zones[z].uindex + 1 == zones[z].nmax ==> zones[z].free != [])
    requires zones[z].uindex < zones[z].nmax
    requires zone == TakeChunk(zones[z]) && a == TakenChunk(zones[z])
    ensures TakenFrom(zones, zones[z := zone], z, a)
  {}

  /** Zone `z` was set up for chunks of class `index`, and its first chunk `a` handed out. */
  ghost predicate OpenedFor(zones: map<nat, Zone>, zones2: map<nat, Zone>, zoneArray: seq<seq<nat>>,
                            zoneArray2: seq<seq<nat>>, z: nat, index: nat, size: nat, zoneSize: nat, a: int)
  {
    && size > 0 && Offset(size) <= zoneSize && index < |zoneArray| && a == z * PAGE + Offset(size)
    && zones2 == zones[z := NewZone(z, index, size, zoneSize)]
    && zoneArray2 == zoneArray[index := [z] + zoneArray[index]]
  }

  lemma OpenedSo(zones: map<nat, Zone>, zoneArray: seq<seq<nat>>, z: nat, index: nat, size: nat, zoneSize: nat)
    requires size > 0 && Offset(size) <= zoneSize && index < |zoneArray|
    ensures var zone := NewZone(z, index, size, zoneSize);
      OpenedFor(zones, zones[z := zone], zoneArray, zoneArray[index := [z] + zoneArray[index]], z, index, size,
                zoneSize, zone.base)
  {}

  lemma NfreeTaken(zone: Zone)
    requires zone.uindex + 1 == zone.nmax ==> zone.free != []
    ensures TakeChunk(zone).nfree == zone.nfree - 1
  {}

  lemma UIndexBound(zone: Zone, used: iset<int>)
    requires ZoneOk(zone, used)
    ensures 0 <= zone.uindex < zone.nmax
  {}

  lemma TakeLists(zoneArray: seq<seq<nat>>, zones: map<nat, Zone>, zi: nat, zone: Zone)
    requires ListsOk(zoneArray, zones) && zi < NZONES && zoneArray[zi] != []
    requires var z := zoneArray[zi][0]; z in zones && zone.index == zi == zones[z].index && zone.nfree >= 0
    ensures ListsOk(if zone.nfree == 0 then zoneArray[zi := zoneArray[zi][1..]] else zoneArray,
                    zones[zoneArray[zi][0] := zone])
  {
    var list := zoneArray[zi];
    assert ListOk(list, zi, zones) && list[0] in list;
    TailMembers(list);
    if zone.nfree == 0 {
      ListsUpdate(zoneArray, zones, list[0], zone, list[1..]);
    } else {
      ListsUpdate(zoneArray, zones, list[0], zone, list);
      assert zoneArray[zi := list] == zoneArray;
    }
  }

  lemma LiveAdds(zones: map<nat, Zone>, out: map<nat, iset<int>>, owned: map<nat, Holding>, z: nat, zone: Zone, a: int)
    requires z in zones && z in out && zone.size == zones[z].size
    ensures LiveBlocks(zones[z := zone], out[z := out[z] + iset{a}], owned)
      == LiveBlocks(zones, out, owned) + iset{Block(a, zone.size)}
  {
    hide LargeBlock, IsLive, LiveElsewhere;
    forall b ensures IsLive(zones[z := zone], out[z := out[z] + iset{a}], owned, b) <==>
      IsLive(zones, out, owned, b) || b == Block(a, zone.size)
    {
      ChunkLive(zones, out, owned, z, zone, out[z] + iset{a}, b);
      ChunkLive(zones, out, owned, z, zones[z], out[z], b);
      assert zones[z := zones[z]] == zones && out[z := out[z]] == out;
    }
  }

  /** The run at `z` is the first spare zone's, or else the lowest one that is free. */
  ghost predicate RunFrom(zoneFree: seq<nat>, list: seq<Run>, zoneFree2: seq<nat>, list2: seq<Run>, z: nat, cnt: nat) {
    if zoneFree != [] then z == zoneFree[0] && zoneFree2 == zoneFree[1..] && list2 == list
    else zoneFree2 == [] && LowestFit(list, z, cnt) && FreePages(list2) == FreePages(list) - Range(z, cnt)
  }

  lemma RunSpare(zoneFree: seq<nat>, list: seq<Run>, cnt: nat)
    requires zoneFree != []
    ensures RunFrom(zoneFree, list, zoneFree[1..], list, zoneFree[0], cnt)
  {}

  lemma RunFresh(list: seq<Run>, list2: seq<Run>, z: nat, cnt: nat)
    requires LowestFit(list, z, cnt) && FreePages(list2) == FreePages(list) - Range(z, cnt)
    ensures RunFrom([], list, [], list2, z, cnt)
  {}

  /** A run of pages set aside for zone `z`, whose header is not written yet. */
  ghost predicate Prepared(zones: map<nat, Zone>, out: map<nat, iset<int>>, owned: map<nat, Holding>,
                           zoneFree: seq<nat>, zoneSize: nat, free: iset<int>, z: nat)
  {
    && ZoneSizeOk(zoneSize) && ZonesOk(zones, out, zoneSize) && z !in zones
    && OwnedOk(owned, zoneSize / PAGE, free) && KindsOk(owned, zones.Keys + {z}, zoneFree)
  }

  /** Free pages become a zone's run. */
  lemma PrepareFresh(zones: map<nat, Zone>, out: map<nat, iset<int>>, owned: map<nat, Holding>, zoneFree: seq<nat>,
                     zoneSize: nat, free: iset<int>, usage: map<nat, Usage>, usage2: map<nat, Usage>, p: nat)
    requires WellFormed(zones, out, owned, zoneFree, zoneSize, free) && UsageOk(usage, owned, zoneSize / PAGE)
    requires Range(p, zoneSize / PAGE) <= free && Marked(usage, usage2, p, zoneSize / PAGE)
    ensures var owned2 := owned[p := ZoneInUse];
      && Prepared(zones, out, owned2, zoneFree, zoneSize, free - Range(p, zoneSize / PAGE), p)
      && UsageOk(usage2, owned2, zoneSize / PAGE)
      && LiveBlocks(zones, out, owned2) == LiveBlocks(zones, out, owned)
  {
    hide ZonesOk;
    var cnt := zoneSize / PAGE;
    OwnedAdd(owned, cnt, free, p, ZoneInUse);
    UsageElsewhere(usage, usage2, owned, cnt, p, cnt);
    UsageAdd(usage2, owned, cnt, p, ZoneInUse);
    SameLarge(zones, out, owned, owned[p := ZoneInUse]);
  }

  lemma SameLarge(zones: map<nat, Zone>, out: map<nat, iset<int>>, owned: map<nat, Holding>, owned2: map<nat, Holding>)
    requires forall p: nat, b :: LargeBlock(owned2, p, b) <==> LargeBlock(owned, p, b)
    ensures LiveBlocks(zones, out, owned2) == LiveBlocks(zones, out, owned)
  {
    hide ChunkBlock, LargeBlock;
    forall b ensures IsLive(zones, out, owned2, b) <==> IsLive(zones, out, owned, b) {}
  }

  /** A spare zone becomes one in use. */
  lemma PrepareSpare(zones: map<nat, Zone>, out: map<nat, iset<int>>, owned: map<nat, Holding>, zoneFree: seq<nat>,
                     zoneSize: nat, free: iset<int>, usage: map<nat, Usage>)
    requires WellFormed(zones, out, owned, zoneFree, zoneSize, free) && UsageOk(usage, owned, zoneSize / PAGE)
      && zoneFree != []
    ensures var owned2 := owned[zoneFree[0] := ZoneInUse];
      && Prepared(zones, out, owned2, zoneFree[1..], zoneSize, free, zoneFree[0])
      && UsageOk(usage, owned2, zoneSize / PAGE)
      && LiveBlocks(zones, out, owned2) == LiveBlocks(zones, out, owned)
  {
    hide ZonesOk;
    var z := zoneFree[0];
    assert z in zoneFree;
    TailMembers(zoneFree);
    OwnedRename(owned, zoneSize / PAGE, free, z, ZoneInUse);
    assert Described(usage, z, owned[z], zoneSize / PAGE);
    UsageAdd(usage, owned, zoneSize / PAGE, z, ZoneInUse);
    SameLarge(zones, out, owned, owned[z := ZoneInUse]);
  }

  /** The zone the code sets up for chunks of `size` bytes, its first chunk handed out. */
  function NewZone(z: nat, index: nat, size: nat, zoneSize: nat): Zone
    requires size > 0 && Offset(size) <= zoneSize
  {
    var off := Offset(size);
    var nmax := (zoneSize - off) / size;
    Zone(nmax - 1, nmax, 0, z * PAGE + off, size, index, [])
  }

  lemma NewZoneOk(z: nat, n: nat, zoneSize: nat)
    requires ZoneSizeOk(zoneSize) && 0 < n && n < zoneSize / 4 && n < ZONE_LIMIT
    ensures ZoneIndex(n).size > 0 && ZoneIndex(n).index < NZONES && Offset(ZoneIndex(n).size) <= zoneSize
    ensures ZoneIndex(n).size == ChunkSize(ZoneIndex(n).index) && n <= ZoneIndex(n).size
    ensures var zone := NewZone(z, ZoneIndex(n).index, ZoneIndex(n).size, zoneSize);
      && Fitted(z, zone, zoneSize) && ZoneOk(zone, iset{zone.base}) && UsedChunk(zone, zone.base)
      && zone.uindex < zone.nmax && zone.nfree > 0
  {
    hide ZoneIndex, Offset, ChunkSize, NewZone, Fitted, ZoneOk, UsedChunk, ZoneSizeOk;
    ZoneIndexIsTightest(n);
    NewZoneFits(n, zoneSize);
    NewZoneFitted(z, ZoneIndex(n).index, ZoneIndex(n).size, zoneSize);
    NewZoneFresh(z, ZoneIndex(n).index, ZoneIndex(n).size, zoneSize);
  }

  lemma NewZoneFitted(z: nat, index: nat, size: nat, zoneSize: nat)
    requires index < NZONES && size == ChunkSize(index) && size > 0 && Offset(size) <= zoneSize
    requires var nmax := (zoneSize - Offset(size)) / size;
      nmax >= 2 && Offset(size) + nmax * size <= zoneSize < Offset(size) + nmax * size + size
    ensures Fitted(z, NewZone(z, index, size, zoneSize), zoneSize)
  {
    hide Offset, ChunkSize;
  }

  lemma NewZoneFresh(z: nat, index: nat, size: nat, zoneSize: nat)
    requires size > 0 && Offset(size) <= zoneSize && (zoneSize - Offset(size)) / size >= 2
    ensures var zone := NewZone(z, index, size, zoneSize);
      && ZoneOk(zone, iset{zone.base}) && UsedChunk(zone, zone.base) && zone.uindex < zone.nmax && zone.nfree > 0
  {
    hide Offset;
    var zone := NewZone(z, index, size, zoneSize);
    hide NewZone;
    assert zone.base == Chunk(zone, 0);
    forall k | 0 <= k < zone.nmax ensures ChunkIn(zone, iset{zone.base}, k) {
      ChunksDiffer(zone, k, 0);
    }
  }

  /** Everything about opening a zone. */
  lemma OpenStep(zones: map<nat, Zone>, out: map<nat, iset<int>>, owned: map<nat, Holding>, zoneFree: seq<nat>,
                 zoneArray: seq<seq<nat>>, zoneSize: nat, free: iset<int>, z: nat, zone: Zone)
    requires Prepared(zones, out, owned, zoneFree, zoneSize, free, z) && ListsOk(zoneArray, zones)
    requires Fitted(z, zone, zoneSize) && ZoneOk(zone, iset{zone.base}) && UsedChunk(zone, zone.base)
    requires zone.uindex < zone.nmax && zone.nfree > 0
    ensures zone.index < |zoneArray|
    ensures WellFormed(zones[z := zone], out[z := iset{zone.base}], owned, zoneFree, zoneSize, free)
    ensures ListsOk(zoneArray[zone.index := [z] + zoneArray[zone.index]], zones[z := zone])
    ensures Block(zone.base, zone.size) !in LiveBlocks(zones, out, owned)
    ensures LiveBlocks(zones[z := zone], out[z := iset{zone.base}], owned)
      == LiveBlocks(zones, out, owned) + iset{Block(zone.base, zone.size)}
  {
    hide *;
    PreparedZone(zones, out, owned, zoneFree, zoneArray, zoneSize, free, z, zone);
    OpenLists(zoneArray, zones, z, zone);
    OpenWellFormed(zones, out, owned, zoneFree, zoneSize, free, z, zone);
    OpenIsNew(zones, out, owned, zoneFree, zoneSize, free, z, zone);
    OpenLive(zones, out, owned, z, zone);
  }

  lemma PreparedZone(zones: map<nat, Zone>, out: map<nat, iset<int>>, owned: map<nat, Holding>, zoneFree: seq<nat>,
                     zoneArray: seq<seq<nat>>, zoneSize: nat, free: iset<int>, z: nat, zone: Zone)
    requires Prepared(zones, out, owned, zoneFree, zoneSize, free, z)
    requires ListsOk(zoneArray, zones) && Fitted(z, zone, zoneSize)
    ensures z !in zones && zone.index < NZONES && zone.index < |zoneArray|
  {}

  lemma OpenWellFormed(zones: map<nat, Zone>, out: map<nat, iset<int>>, owned: map<nat, Holding>, zoneFree: seq<nat>,
                       zoneSize: nat, free: iset<int>, z: nat, zone: Zone)
    requires Prepared(zones, out, owned, zoneFree, zoneSize, free, z)
    requires Fitted(z, zone, zoneSize) && ZoneOk(zone, iset{zone.base})
    ensures WellFormed(zones[z := zone], out[z := iset{zone.base}], owned, zoneFree, zoneSize, free)
  {
    hide Fitted, ZoneOk, OwnedOk;
    assert zones[z := zone].Keys == zones.Keys + {z};
  }

  lemma OpenLive(zones: map<nat, Zone>, out: map<nat, iset<int>>, owned: map<nat, Holding>, z: nat, zone: Zone)
    requires z !in zones
    ensures LiveBlocks(zones[z := zone], out[z := iset{zone.base}], owned)
      == LiveBlocks(zones, out, owned) + iset{Block(zone.base, zone.size)}
  {
    hide IsLive, LiveElsewhere;
    var used := iset{zone.base};
    forall b
      ensures IsLive(zones[z := zone], out[z := used], owned, b) <==>
        IsLive(zones, out, owned, b) || b == Block(zone.base, zone.size)
    {
      ChunkLive(zones, out, owned, z, zone, used, b);
      NotYetLive(zones, out, owned, z, b);
    }
  }

  lemma NotYetLive(zones: map<nat, Zone>, out: map<nat, iset<int>>, owned: map<nat, Holding>, z: nat, b: Block)
    requires z !in zones
    ensures LiveElsewhere(zones, out, owned, z, b) <==> IsLive(zones, out, owned, b)
  {}

  lemma OpenLists(zoneArray: seq<seq<nat>>, zones: map<nat, Zone>, z: nat, zone: Zone)
    requires ListsOk(zoneArray, zones) && z !in zones && zone.index < NZONES && zone.nfree > 0
    ensures ListsOk(zoneArray[zone.index := [z] + zoneArray[zone.index]], zones[z := zone])
  {
    assert ListOk(zoneArray[zone.index], zone.index, zones);
    PushMembers(zoneArray[zone.index], z);
    ListsUpdate(zoneArray, zones, z, zone, [z] + zoneArray[zone.index]);
  }

  lemma OpenIsNew(zones: map<nat, Zone>, out: map<nat, iset<int>>, owned: map<nat, Holding>, zoneFree: seq<nat>,
                  zoneSize: nat, free: iset<int>, z: nat, zone: Zone)
    requires Prepared(zones, out, owned, zoneFree, zoneSize, free, z)
    requires Fitted(z, zone, zoneSize) && UsedChunk(zone, zone.base) && zone.uindex < zone.nmax
    ensures Block(zone.base, zone.size) !in LiveBlocks(zones, out, owned)
  {
    hide OwnedOk, KindsOk, UsedChunk, Fitted, ZoneOk, ZoneSizeOk;
    var b, cnt := Block(zone.base, zone.size), zoneSize / PAGE;
    ChunkLeadsToZone(z, zone, zoneSize, zone.base);
    KindOf(owned, zones.Keys + {z}, zoneFree, z);
    forall y: nat | ChunkBlock(zones, out, y, b) ensures false {
      ChunkInZone(zones, out, zoneSize, y, b);
      KindOf(owned, zones.Keys + {z}, zoneFree, y);
      OnlyRun(owned, cnt, free, y, z, b.addr / PAGE);
    }
    forall p: nat | LargeBlock(owned, p, b) ensures false {
      LargePages(owned, cnt, free, p, b);
      OnlyRun(owned, cnt, free, p, z, b.addr / PAGE);
    }
  }

  lemma LimitFacts(zoneSize: nat, zoneLimit: nat, n: nat)
    requires ZoneSizeOk(zoneSize) && zoneLimit == (if zoneSize / 4 > ZONE_LIMIT then ZONE_LIMIT else zoneSize / 4)
    requires n < zoneLimit
    ensures n < zoneSize / 4 && n < ZONE_LIMIT
  {}

  lemma NewZoneFields(z: nat, index: nat, size: nat, zoneSize: nat)
    requires size > 0 && Offset(size) <= zoneSize
    ensures var zone := NewZone(z, index, size, zoneSize); zone.index == index && zone.size == size
  {}

  /** Rounding to whole pages loses no bytes unless it wraps around to zero. */
  lemma PageRounding(bytes: u32, len: int)
    requires len == PagesFor(bytes) * PAGE && len > 0
    ensures len >= bytes
  {}

  // ----- freeing

  /** The page table leads from an address handed out to the run it lies in. */
  lemma LookUp(zones: map<nat, Zone>, out: map<nat, iset<int>>, owned: map<nat, Holding>, zoneFree: seq<nat>,
               zoneSize: nat, free: iset<int>, usage: map<nat, Usage>, b: Block)
    requires WellFormed(zones, out, owned, zoneFree, zoneSize, free) && UsageOk(usage, owned, zoneSize / PAGE)
    requires b in LiveBlocks(zones, out, owned)
    ensures b.addr >= 0 && b.addr / PAGE in usage
    ensures var page := b.addr / PAGE; var e := usage[page];
      && (e.Large? ==>
            && LargeBlock(owned, page, b) && owned[page].pages == e.pages
            && b.addr == page * PAGE && b.bytes == e.pages * PAGE)
      && (!e.Large? ==>
            && e.Small? && e.offset <= page && ChunkBlock(zones, out, page - e.offset, b)
            && page - e.offset in zones && page - e.offset in out && b.addr > (page - e.offset) * PAGE)
  {
    hide OwnedOk, KindsOk, ZonesOk, ZoneSizeOk, ChunkBlock, LargeBlock, UsageOk;
    var p: nat := LiveInRun(zones, out, owned, zoneFree, zoneSize, free, b);
    if ChunkBlock(zones, out, p, b) {
      ChunkInZone(zones, out, zoneSize, p, b);
      KindOf(owned, zones.Keys, zoneFree, p);
      ChunkKnown(zones, out, p, b);
      ZoneEntry(usage, owned, zoneSize / PAGE, p, b.addr / PAGE);
    } else {
      LargePages(owned, zoneSize / PAGE, free, p, b);
      LargeEntry(usage, owned, zoneSize / PAGE, p);
    }
  }

  lemma ZoneEntry(usage: map<nat, Usage>, owned: map<nat, Holding>, cnt: nat, p: nat, page: nat)
    requires UsageOk(usage, owned, cnt) && p in owned && owned[p] == ZoneInUse && p <= page < p + cnt
    ensures page in usage && usage[page] == Small(page - p)
  {
    assert Described(usage, p, owned[p], cnt);
    var off: nat := page - p;
    assert Entry(usage, p + off) == Small(off);
  }

  lemma LargeEntry(usage: map<nat, Usage>, owned: map<nat, Holding>, cnt: nat, p: nat)
    requires UsageOk(usage, owned, cnt) && p in owned && owned[p].Big?
    ensures p in usage && usage[p] == Large(owned[p].pages)
  {
    assert Described(usage, p, owned[p], cnt);
  }

  lemma FreeLargeFacts(zones: map<nat, Zone>, out: map<nat, iset<int>>, owned: map<nat, Holding>, zoneFree: seq<nat>,
                       zoneSize: nat, free: iset<int>, usage: map<nat, Usage>, p: nat, u: Usage)
    requires WellFormed(zones, out, owned, zoneFree, zoneSize, free) && UsageOk(usage, owned, zoneSize / PAGE)
    requires p in owned && owned[p].Big?
    ensures var n := owned[p].pages; var owned2 := owned - {p};
      && n > 0 && Range(p, n) !! free
      && WellFormed(zones, out, owned2, zoneFree, zoneSize, free + Range(p, n))
      && UsageOk(usage[p := u], owned2, zoneSize / PAGE)
  {
    hide ZonesOk, OwnedOk, UsageOk;
    var cnt := zoneSize / PAGE;
    OwnedDrop(owned, cnt, free, p);
    LargePages(owned, cnt, free, p, Block(p * PAGE, owned[p].pages * PAGE));
    DropUsage(usage, owned, cnt, free, p, u);
  }

  lemma DropUsage(usage: map<nat, Usage>, owned: map<nat, Holding>, cnt: nat, free: iset<int>, p: nat, u: Usage)
    requires UsageOk(usage, owned, cnt) && OwnedOk(owned, cnt, free) && p in owned && owned[p].Big?
    ensures UsageOk(usage[p := u], owned - {p}, cnt)
  {
    assert UsageOk(usage, owned - {p}, cnt);
    UsageElsewhere(usage, usage[p := u], owned - {p}, cnt, p, owned[p].pages);
  }

  lemma FreeLargeLive(zones: map<nat, Zone>, out: map<nat, iset<int>>, owned: map<nat, Holding>, zoneFree: seq<nat>,
                      zoneSize: nat, free: iset<int>, p: nat, b: Block)
    requires WellFormed(zones, out, owned, zoneFree, zoneSize, free) && LargeBlock(owned, p, b)
    ensures LiveBlocks(zones, out, owned - {p}) == LiveBlocks(zones, out, owned) - iset{b}
  {
    forall z: nat | ChunkBlock(zones, out, z, b) ensures false {
      ChunkLeadsToZone(z, zones[z], zoneSize, b.addr);
    }
    hide WellFormed, ChunkBlock;
    forall c ensures IsLive(zones, out, owned - {p}, c) <==> IsLive(zones, out, owned, c) && c != b {
      forall q: nat ensures LargeBlock(owned - {p}, q, c) <==> LargeBlock(owned, q, c) && q != p {}
      forall q: nat | LargeBlock(owned, q, c) && q != p ensures c != b {}
    }
  }

  /** A chunk goes back to its zone, which stays in use. */
  lemma GiveStep(zones: map<nat, Zone>, out: map<nat, iset<int>>, owned: map<nat, Holding>, zoneFree: seq<nat>,
                 zoneArray: seq<seq<nat>>, zoneSize: nat, free: iset<int>, z: nat, b: Block)
    requires WellFormed(zones, out, owned, zoneFree, zoneSize, free) && ListsOk(zoneArray, zones)
      && ChunkBlock(zones, out, z, b)
    ensures zones[z].index < |zoneArray|
    ensures var zone := GiveChunk(zones[z], b.addr); var c := zone.index;
      var lists := if zones[z].nfree == 0 then zoneArray[c := [z] + zoneArray[c]] else zoneArray;
      && WellFormed(zones[z := zone], out[z := out[z] - iset{b.addr}], owned, zoneFree, zoneSize, free)
      && ListsOk(lists, zones[z := zone]) && z in lists[c] && c < |lists|
      && (zone.nfree == zone.nmax <==> out[z] == iset{b.addr})
        && (zone.nfree == zone.nmax ==> out[z] - iset{b.addr} == iset{})
      && LiveBlocks(zones[z := zone], out[z := out[z] - iset{b.addr}], owned) == LiveBlocks(zones, out, owned) - iset{b}
  {
    var zone := GiveChunk(zones[z], b.addr);
    GiveKeeps(zones[z], out[z], b.addr);
    NfreeKnown(zones[z], out[z]);
    NoneHandedOut(zone, out[z] - iset{b.addr});
    assert out[z] == iset{b.addr} <==> out[z] - iset{b.addr} == iset{};
    hide ZoneOk;
    assert Fitted(z, zones[z], zoneSize);
    ChunkStep(zones, out, owned, zoneFree, zoneSize, free, z, zone, out[z] - iset{b.addr});
    GiveLists(zoneArray, zones, z, zone);
    GiveLive(zones, out, owned, zoneFree, zoneSize, free, z, zone, b);
  }

  lemma NfreeKnown(zone: Zone, used: iset<int>)
    requires ZoneOk(zone, used)
    ensures zone.nfree >= 0
  {}

  lemma GiveLists(zoneArray: seq<seq<nat>>, zones: map<nat, Zone>, z: nat, zone: Zone)
    requires ListsOk(zoneArray, zones) && z in zones && zone.index == zones[z].index < NZONES
    requires zones[z].nfree >= 0 && zone.nfree == zones[z].nfree + 1
    ensures var c := zone.index; var lists := if zones[z].nfree == 0 then zoneArray[c := [z] + zoneArray[c]]
      else zoneArray;
      ListsOk(lists, zones[z := zone]) && z in lists[c]
  {
    var c := zone.index;
    assert ListOk(zoneArray[c], c, zones);
    if zones[z].nfree == 0 {
      PushMembers(zoneArray[c], z);
      ListsUpdate(zoneArray, zones, z, zone, [z] + zoneArray[c]);
    } else {
      ListsUpdate(zoneArray, zones, z, zone, zoneArray[c]);
      assert zoneArray[c := zoneArray[c]] == zoneArray;
    }
  }

  lemma GiveLive(zones: map<nat, Zone>, out: map<nat, iset<int>>, owned: map<nat, Holding>, zoneFree: seq<nat>,
                 zoneSize: nat, free: iset<int>, z: nat, zone: Zone, b: Block)
    requires WellFormed(zones, out, owned, zoneFree, zoneSize, free) && ChunkBlock(zones, out, z, b)
      && zone.size == zones[z].size
    ensures LiveBlocks(zones[z := zone], out[z := out[z] - iset{b.addr}], owned)
      == LiveBlocks(zones, out, owned) - iset{b}
  {
    hide *;
    BlockOnce(zones, out, owned, zoneFree, zoneSize, free, z, b);
    ChunkKnown(zones, out, z, b);
    var zones2, out2 := zones[z := zone], out[z := out[z] - iset{b.addr}];
    forall c ensures IsLive(zones2, out2, owned, c) <==> IsLive(zones, out, owned, c) && c != b {
      GiveLiveOne(zones, out, owned, z, zone, b, c);
    }
    LiveMinus(zones, out, owned, zones2, out2, b);
  }

  lemma LiveMinus(zones: map<nat, Zone>, out: map<nat, iset<int>>, owned: map<nat, Holding>, zones2: map<nat, Zone>,
                  out2: map<nat, iset<int>>, b: Block)
    requires forall c :: IsLive(zones2, out2, owned, c) <==> IsLive(zones, out, owned, c) && c != b
    ensures LiveBlocks(zones2, out2, owned) == LiveBlocks(zones, out, owned) - iset{b}
  {
    hide IsLive;
  }

  lemma GiveLiveOne(zones: map<nat, Zone>, out: map<nat, iset<int>>, owned: map<nat, Holding>, z: nat, zone: Zone,
                    b: Block, c: Block)
    requires z in zones && z in out && zone.size == zones[z].size == b.bytes
    requires b.addr in out[z] && !LiveElsewhere(zones, out, owned, z, b)
    ensures IsLive(zones[z := zone], out[z := out[z] - iset{b.addr}], owned, c) <==>
      IsLive(zones, out, owned, c) && c != b
  {
    hide IsLive, LiveElsewhere;
    assert zones[z := zones[z]] == zones && out[z := out[z]] == out;
    ChunkLive(zones, out, owned, z, zone, out[z] - iset{b.addr}, c);
    ChunkLive(zones, out, owned, z, zones[z], out[z], c);
    assert c.addr in out[z] - iset{b.addr} <==> c.addr in out[z] && c.addr != b.addr;
  }

  /** A chunk handed out belongs to one run only. */
  lemma BlockOnce(zones: map<nat, Zone>, out: map<nat, iset<int>>, owned: map<nat, Holding>, zoneFree: seq<nat>,
                  zoneSize: nat, free: iset<int>, z: nat, b: Block)
    requires WellFormed(zones, out, owned, zoneFree, zoneSize, free) && ChunkBlock(zones, out, z, b)
    ensures !LiveElsewhere(zones, out, owned, z, b)
  {
    ChunkLeadsToZone(z, zones[z], zoneSize, b.addr);
    forall y: nat | y != z && ChunkBlock(zones, out, y, b) ensures false {
      ChunkLeadsToZone(y, zones[y], zoneSize, b.addr);
    }
  }

  /** A zone none of whose chunks are handed out is put aside. */
  lemma RetireStep(zones: map<nat, Zone>, out: map<nat, iset<int>>, owned: map<nat, Holding>, zoneFree: seq<nat>,
                   zoneArray: seq<seq<nat>>, zoneSize: nat, free: iset<int>, usage: map<nat, Usage>, z: nat, i: nat)
    requires WellFormed(zones, out, owned, zoneFree, zoneSize, free) && ListsOk(zoneArray, zones)
      && UsageOk(usage, owned, zoneSize / PAGE)
    requires z in zones && z in out && out[z] == iset{} && zones[z].index < NZONES
    requires i < |zoneArray[zones[z].index]| && zoneArray[zones[z].index][i] == z
    ensures var c := zones[z].index; var list := zoneArray[c]; var owned2 := owned[z := SpareZone];
      && WellFormed(zones - {z}, out - {z}, owned2, [z] + zoneFree, zoneSize, free)
      && ListsOk(zoneArray[c := Without(list, i)], zones - {z})
      && UsageOk(usage, owned2, zoneSize / PAGE)
      && LiveBlocks(zones - {z}, out - {z}, owned2) == LiveBlocks(zones, out, owned)
  {
    hide *;
    RetireLists(zoneArray, zones, z, i);
    RetireRuns(zones, out, owned, zoneFree, zoneSize, free, usage, z);
    RetireLive(zones, out, owned, z);
  }

  lemma RetireLists(zoneArray: seq<seq<nat>>, zones: map<nat, Zone>, z: nat, i: nat)
    requires ListsOk(zoneArray, zones) && z in zones && zones[z].index < NZONES
    requires i < |zoneArray[zones[z].index]| && zoneArray[zones[z].index][i] == z
    ensures var c := zones[z].index; var list := zoneArray[c];
      ListsOk(zoneArray[c := Without(list, i)], zones - {z})
  {
    var c := zones[z].index;
    assert ListOk(zoneArray[c], c, zones);
    WithoutKeeps(zoneArray[c], i);
    ListsRemove(zoneArray, zones, z, Without(zoneArray[c], i));
  }

  lemma RetireLive(zones: map<nat, Zone>, out: map<nat, iset<int>>, owned: map<nat, Holding>, z: nat)
    requires z in zones && z in out && out[z] == iset{} && z in owned && owned[z] == ZoneInUse
    ensures LiveBlocks(zones - {z}, out - {z}, owned[z := SpareZone]) == LiveBlocks(zones, out, owned)
  {
    var owned2 := owned[z := SpareZone];
    SameLarge(zones, out, owned, owned2);
    forall b ensures IsLive(zones - {z}, out - {z}, owned2, b) <==> IsLive(zones, out, owned2, b) {
      forall y: nat ensures ChunkBlock(zones - {z}, out - {z}, y, b) <==> ChunkBlock(zones, out, y, b) {}
    }
  }

  lemma RetireRuns(zones: map<nat, Zone>, out: map<nat, iset<int>>, owned: map<nat, Holding>, zoneFree: seq<nat>,
                   zoneSize: nat, free: iset<int>, usage: map<nat, Usage>, z: nat)
    requires WellFormed(zones, out, owned, zoneFree, zoneSize, free) && UsageOk(usage, owned, zoneSize / PAGE)
    requires z in zones && z in out
    ensures z in owned && owned[z] == ZoneInUse
    ensures WellFormed(zones - {z}, out - {z}, owned[z := SpareZone], [z] + zoneFree, zoneSize, free)
    ensures UsageOk(usage, owned[z := SpareZone], zoneSize / PAGE)
  {
    hide OwnedOk, KindsOk, ZonesOk, UsageOk;
    assert (zones - {z}).Keys == zones.Keys - {z};
    KindOf(owned, zones.Keys, zoneFree, z);
    OwnedRename(owned, zoneSize / PAGE, free, z, SpareZone);
    RetireKinds(owned, zones.Keys, zoneFree, z);
    RetireZones(zones, out, zoneSize, z);
    RetireUsage(usage, owned, zoneSize / PAGE, z);
  }

  lemma RetireKinds(owned: map<nat, Holding>, inUse: set<nat>, zoneFree: seq<nat>, z: nat)
    requires KindsOk(owned, inUse, zoneFree) && z in inUse
    ensures KindsOk(owned[z := SpareZone], inUse - {z}, [z] + zoneFree)
  {
    assert z !in zoneFree;
    PushMembers(zoneFree, z);
  }

  lemma RetireZones(zones: map<nat, Zone>, out: map<nat, iset<int>>, zoneSize: nat, z: nat)
    requires ZonesOk(zones, out, zoneSize)
    ensures ZonesOk(zones - {z}, out - {z}, zoneSize)
  {
    hide Fitted, ZoneOk;
    assert (zones - {z}).Keys == zones.Keys - {z} && (out - {z}).Keys == out.Keys - {z};
  }

  lemma RetireUsage(usage: map<nat, Usage>, owned: map<nat, Holding>, cnt: nat, z: nat)
    requires UsageOk(usage, owned, cnt) && z in owned && owned[z] == ZoneInUse
    ensures UsageOk(usage, owned[z := SpareZone], cnt)
  {
    assert Described(usage, z, owned[z], cnt);
    UsageAdd(usage, owned, cnt, z, SpareZone);
  }

  /** A spare zone's pages go back. */
  lemma ReleaseFacts(zones: map<nat, Zone>, out: map<nat, iset<int>>, owned: map<nat, Holding>, zoneFree: seq<nat>,
                     zoneSize: nat, free: iset<int>, usage: map<nat, Usage>, usage2: map<nat, Usage>)
    requires WellFormed(zones, out, owned, zoneFree, zoneSize, free) && UsageOk(usage, owned, zoneSize / PAGE)
      && zoneFree != []
    requires forall q: nat | q < zoneFree[0] || zoneFree[0] + zoneSize / PAGE <= q ::
      Entry(usage2, q) == Entry(usage, q)
    ensures var z := zoneFree[0]; var cnt := zoneSize / PAGE; var owned2 := owned - {z};
      && Range(z, cnt) !! free
      && WellFormed(zones, out, owned2, zoneFree[1..], zoneSize, free + Range(z, cnt))
      && UsageOk(usage2, owned2, cnt)
      && LiveBlocks(zones, out, owned2) == LiveBlocks(zones, out, owned)
  {
    hide ZonesOk, KindsOk, OwnedOk, UsageOk;
    var z, cnt := zoneFree[0], zoneSize / PAGE;
    SpareFirst(owned, zones.Keys, zoneFree);
    OwnedDrop(owned, cnt, free, z);
    SpareUsage(usage, usage2, owned, cnt, free, z);
    SameLarge(zones, out, owned, owned - {z});
  }

  lemma SpareFirst(owned: map<nat, Holding>, inUse: set<nat>, zoneFree: seq<nat>)
    requires KindsOk(owned, inUse, zoneFree) && zoneFree != []
    ensures zoneFree[0] in owned && owned[zoneFree[0]] == SpareZone
    ensures KindsOk(owned - {zoneFree[0]}, inUse, zoneFree[1..])
  {
    assert zoneFree[0] in zoneFree;
    TailMembers(zoneFree);
  }

  lemma SpareUsage(usage: map<nat, Usage>, usage2: map<nat, Usage>, owned: map<nat, Holding>, cnt: nat, free: iset<int>,
                   z: nat)
    requires UsageOk(usage, owned, cnt) && OwnedOk(owned, cnt, free) && z in owned && owned[z] == SpareZone
    requires forall q: nat | q < z || z + cnt <= q :: Entry(usage2, q) == Entry(usage, q)
    ensures UsageOk(usage2, owned - {z}, cnt)
  {
    assert UsageOk(usage, owned - {z}, cnt);
    UsageElsewhere(usage, usage2, owned - {z}, cnt, z, cnt);
  }

  lemma CountSpares(zoneFree: seq<nat>, zoneSize: nat)
    requires |zoneFree| <= RELEASE_THRESH + 1 && zoneFree != []
    ensures |zoneFree[1..]| <= RELEASE_THRESH && zoneSize / PAGE * PAGE <= zoneSize
  {}

  lemma ListedAreZones(zoneArray: seq<seq<nat>>, zones: map<nat, Zone>, z: nat)
    requires ListsOk(zoneArray, zones) && z !in zones
    ensures forall c | 0 <= c < |zoneArray| :: z !in zoneArray[c]
  {
    forall c: nat | c < |zoneArray| ensures z !in zoneArray[c] { assert ListOk(zoneArray[c], c, zones); }
  }

  /** Whether `z` is alone on the list, as the code asks it. */
  lemma AloneOnList(list: seq<nat>, z: nat)
    requires Distinct(list) && z in list
    ensures list[|list| - 1] != z || list[0] != z <==> exists y :: y in list && y != z
  {
    assert list[0] in list && list[|list| - 1] in list;
  }

  /** Zone `z` left the list of class `c`; everything else is in its old order. */
  ghost predicate Unlisted(zoneArray: seq<seq<nat>>, zoneArray2: seq<seq<nat>>, c: nat, z: nat) {
    c < |zoneArray| && exists i: nat :: UnlistedAt(zoneArray, zoneArray2, c, z, i)
  }

  ghost predicate UnlistedAt(zoneArray: seq<seq<nat>>, zoneArray2: seq<seq<nat>>, c: nat, z: nat, i: nat)
    requires c < |zoneArray|
  {
    var list := zoneArray[c];
    i < |list| && list[i] == z && zoneArray2 == zoneArray[c := list[..i] + list[i + 1..]]
  }

  lemma UnlistedSo(zoneArray: seq<seq<nat>>, c: nat, i: nat)
    requires c < |zoneArray| && i < |zoneArray[c]|
    ensures Unlisted(zoneArray, zoneArray[c := Without(zoneArray[c], i)], c, zoneArray[c][i])
  {
    assert UnlistedAt(zoneArray, zoneArray[c := Without(zoneArray[c], i)], c, zoneArray[c][i], i);
  }

  /** Chunk `a` came back to zone `z`: it is the first on the free list, and a zone that had no free chunk is put
      in front of the list of its class. */
  ghost predicate GivenBack(zones: map<nat, Zone>, zones2: map<nat, Zone>, zoneArray: seq<seq<nat>>,
                            zoneArray2: seq<seq<nat>>, z: nat, a: int)
  {
    && z in zones && zones[z].index < |zoneArray|
    && zones2 == zones[z := zones[z].(nfree := zones[z].nfree + 1, free := [a] + zones[z].free)]
    && zoneArray2 == if zones[z].nfree == 0
                     then zoneArray[zones[z].index := [z] + zoneArray[zones[z].index]] else zoneArray
  }

  lemma GivenSo(zones: map<nat, Zone>, zoneArray: seq<seq<nat>>, z: nat, a: int)
    requires z in zones && zones[z].index < |zoneArray|
    ensures var c := zones[z].index;
      GivenBack(zones, zones[z := zones[z].(free := [a] + zones[z].free, nfree := zones[z].nfree + 1)], zoneArray,
                if zones[z].nfree == 0 then zoneArray[c := [z] + zoneArray[c]] else zoneArray, z, a)
  {}

  /** A zone with its last chunk coming back was on its list already. */
  lemma NotFull(zones: map<nat, Zone>, out: map<nat, iset<int>>, owned: map<nat, Holding>, zoneFree: seq<nat>,
                zoneSize: nat, free: iset<int>, z: nat)
    requires WellFormed(zones, out, owned, zoneFree, zoneSize, free) && z in zones
    ensures zones[z].nmax >= 2
  {
    assert Fitted(z, zones[z], zoneSize);
  }

  lemma GoneFrom(zones: map<nat, Zone>, zone: Zone, out: map<nat, iset<int>>, used: iset<int>, z: nat)
    ensures zones[z := zone] - {z} == zones - {z} && out[z := used] - {z} == out - {z}
  {}

  /** Some other zone of the class of `z` has free chunks. */
  ghost predicate AnotherOpen(zones: map<nat, Zone>, z: nat)
    requires z in zones
  {
    exists y :: y in zones && y != z && zones[y].index == zones[z].index && zones[y].nfree > 0
  }

  /** Which is what the code asks of the list of the class. */
  lemma ListedOthers(zoneArray: seq<seq<nat>>, zones0: map<nat, Zone>, zones: map<nat, Zone>, z: nat)
    requires ListsOk(zoneArray, zones) && z in zones0 && z in zones && zones[z].index == zones0[z].index < NZONES
    requires zones == zones0[z := zones[z]] && zones[z].index < |zoneArray| && z in zoneArray[zones[z].index]
    ensures var list := zoneArray[zones[z].index];
      |list| > 0 && (list[|list| - 1] != z || list[0] != z <==> AnotherOpen(zones0, z))
  {
    var list := zoneArray[zones[z].index];
    assert ListOk(list, zones[z].index, zones);
    AloneOnList(list, z);
    if y :| y in list && y != z {
      assert y in zones0 && zones0[y] == zones[y];
    }
    if y :| y in zones0 && y != z && zones0[y].index == zones0[z].index && zones0[y].nfree > 0 {
      assert y in zones && zones[y] == zones0[y];
    }
  }

  lemma MoreSpares(zoneFree: seq<nat>)
    requires |zoneFree| >= 1 && |zoneFree[1..]| <= RELEASE_THRESH
    ensures |zoneFree| <= RELEASE_THRESH + 1
  {}

  lemma ChunkKnown(zones: map<nat, Zone>, out: map<nat, iset<int>>, z: nat, b: Block)
    requires ChunkBlock(zones, out, z, b)
    ensures z in zones && z in out && b.addr in out[z] && b.bytes == zones[z].size
  {}

  lemma LargeKnown(owned: map<nat, Holding>, p: nat, b: Block)
    requires LargeBlock(owned, p, b)
    ensures p in owned && owned[p].Big? && b.addr == p * PAGE
  {}

  lemma GiveFields(zone: Zone, a: int)
    ensures GiveChunk(zone, a) == zone.(free := [a] + zone.free, nfree := zone.nfree + 1)
  {}

  // ----- no page is lost

  lemma LargeCovered(zones: map<nat, Zone>, out: map<nat, iset<int>>, owned: map<nat, Holding>,
                     zoneFree: seq<nat>, zoneSize: nat, free: iset<int>, region: iset<int>, p: nat, n: nat)
    requires WellFormed(zones, out, owned, zoneFree, zoneSize, free) && Covers(owned, zoneSize / PAGE, free, region)
    requires n > 0 && Range(p, n) <= free
    ensures Covers(owned[p := Big(n)], zoneSize / PAGE, free - Range(p, n), region)
  {
    hide ZonesOk, Covers;
    OwnedAdd(owned, zoneSize / PAGE, free, p, Big(n));
    CoversAdd(owned, zoneSize / PAGE, free, region, p, Big(n));
  }

  lemma FreshCovered(zones: map<nat, Zone>, out: map<nat, iset<int>>, owned: map<nat, Holding>,
                     zoneFree: seq<nat>, zoneSize: nat, free: iset<int>, region: iset<int>, p: nat)
    requires WellFormed(zones, out, owned, zoneFree, zoneSize, free) && Covers(owned, zoneSize / PAGE, free, region)
    requires Range(p, zoneSize / PAGE) <= free
    ensures Covers(owned[p := ZoneInUse], zoneSize / PAGE, free - Range(p, zoneSize / PAGE), region)
  {
    hide ZonesOk, Covers;
    OwnedAdd(owned, zoneSize / PAGE, free, p, ZoneInUse);
    CoversAdd(owned, zoneSize / PAGE, free, region, p, ZoneInUse);
  }

  lemma SpareCovered(zones: map<nat, Zone>, out: map<nat, iset<int>>, owned: map<nat, Holding>,
                     zoneFree: seq<nat>, zoneSize: nat, free: iset<int>, region: iset<int>)
    requires WellFormed(zones, out, owned, zoneFree, zoneSize, free) && Covers(owned, zoneSize / PAGE, free, region)
    requires zoneFree != []
    ensures Covers(owned[zoneFree[0] := ZoneInUse], zoneSize / PAGE, free, region)
  {
    hide ZonesOk, Covers;
    SpareFirst(owned, zones.Keys, zoneFree);
    CoversRename(owned, zoneSize / PAGE, free, region, zoneFree[0], ZoneInUse);
  }

  lemma RetireCovered(zones: map<nat, Zone>, out: map<nat, iset<int>>, owned: map<nat, Holding>,
                      zoneFree: seq<nat>, zoneSize: nat, free: iset<int>, region: iset<int>, z: nat)
    requires WellFormed(zones, out, owned, zoneFree, zoneSize, free) && Covers(owned, zoneSize / PAGE, free, region)
    requires z in zones
    ensures Covers(owned[z := SpareZone], zoneSize / PAGE, free, region)
  {
    hide ZonesOk, Covers;
    KindOf(owned, zones.Keys, zoneFree, z);
    CoversRename(owned, zoneSize / PAGE, free, region, z, SpareZone);
  }

  lemma ReleaseCovered(zones: map<nat, Zone>, out: map<nat, iset<int>>, owned: map<nat, Holding>,
                       zoneFree: seq<nat>, zoneSize: nat, free: iset<int>, region: iset<int>)
    requires WellFormed(zones, out, owned, zoneFree, zoneSize, free) && Covers(owned, zoneSize / PAGE, free, region)
    requires zoneFree != []
    ensures var z, cnt := zoneFree[0], zoneSize / PAGE; Covers(owned - {z}, cnt, free + Range(z, cnt), region)
  {
    hide ZonesOk, Covers;
    SpareFirst(owned, zones.Keys, zoneFree);
    CoversDrop(owned, zoneSize / PAGE, free, region, zoneFree[0]);
  }

  lemma FreeCovered(zones: map<nat, Zone>, out: map<nat, iset<int>>, owned: map<nat, Holding>,
                    zoneFree: seq<nat>, zoneSize: nat, free: iset<int>, region: iset<int>, p: nat)
    requires WellFormed(zones, out, owned, zoneFree, zoneSize, free) && Covers(owned, zoneSize / PAGE, free, region)
    requires p in owned && owned[p].Big?
    ensures Covers(owned - {p}, zoneSize / PAGE, free + Range(p, owned[p].pages), region)
  {
    hide ZonesOk, Covers;
    CoversDrop(owned, zoneSize / PAGE, free, region, p);
  }

  class Allocator {
    const pages: PageAllocator
    const zoneSize: nat
    const zoneLimit: nat
    var usage: map<nat, Usage>
    var zones: map<nat, Zone>
    var zoneArray: seq<seq<nat>>
    var zoneFree: seq<nat>
    ghost var out: map<nat, iset<int>>       // the chunks handed out, zone by zone
    ghost var owned: map<nat, Holding>       // the runs of pages taken
    ghost const region: iset<int>            // the pages behind the page table

    ghost predicate Valid()
      reads this, pages
    {
      && pages.Valid() && zoneLimit == (if zoneSize / 4 > ZONE_LIMIT then ZONE_LIMIT else zoneSize / 4)
      && WellFormed(zones, out, owned, zoneFree, zoneSize, FreePages(pages.list))
      && Covers(owned, zoneSize / PAGE, FreePages(pages.list), region)
      && UsageOk(usage, owned, zoneSize / PAGE)
      && ListsOk(zoneArray, zones)
      && |zoneFree| <= RELEASE_THRESH
    }

    ghost function Live(): iset<Block>
      reads this
    {
      LiveBlocks(zones, out, owned)
    }

    lemma Unpack()
      requires Valid()
      ensures pages.Valid() && zoneLimit == (if zoneSize / 4 > ZONE_LIMIT then ZONE_LIMIT else zoneSize / 4)
      ensures ZoneSizeOk(zoneSize)
      ensures WellFormed(zones, out, owned, zoneFree, zoneSize, FreePages(pages.list))
      ensures Covers(owned, zoneSize / PAGE, FreePages(pages.list), region)
      ensures UsageOk(usage, owned, zoneSize / PAGE)
      ensures ListsOk(zoneArray, zones) && |zoneArray| == NZONES && |zoneFree| <= RELEASE_THRESH
      ensures Live() == LiveBlocks(zones, out, owned)
    {}

    lemma Pack()
      requires pages.Valid() && zoneLimit == (if zoneSize / 4 > ZONE_LIMIT then ZONE_LIMIT else zoneSize / 4)
      requires WellFormed(zones, out, owned, zoneFree, zoneSize, FreePages(pages.list))
      requires Covers(owned, zoneSize / PAGE, FreePages(pages.list), region)
      requires UsageOk(usage, owned, zoneSize / PAGE)
      requires ListsOk(zoneArray, zones) && |zoneFree| <= RELEASE_THRESH
      ensures Valid() && Live() == LiveBlocks(zones, out, owned)
    {}

    constructor (start: nat, npages: nat)
      requires start > 0 && npages > 0 && npages * PAGE < WORD
      ensures Valid() && Live() == iset{} && fresh(pages)
      ensures zoneSize == ZoneSizeFor(npages * PAGE)
      // the first of the three sizes of which twice as much is not less than a thousandth of the region
      ensures zoneSize < MAX_ZONE ==> 2 * zoneSize >= npages * PAGE / 1024
      ensures zoneSize > MIN_ZONE ==> zoneSize < npages * PAGE / 1024
      ensures zoneFree == [] && zoneArray == seq(NZONES, _ => [])
      // the page table itself takes pages; nothing gives them back
      ensures FreePages(pages.list) == Range(start + TablePages(npages), npages - TablePages(npages)) == region
    {
      var zs := MIN_ZONE;
      while zs < MAX_ZONE && zs * 2 < npages * PAGE / 1024
        invariant ZoneSizeOk(zs)
        invariant zs > MIN_ZONE ==> zs < npages * PAGE / 1024
        decreases MAX_ZONE - zs
      {
        zs := zs * 2;
      }
      pages := new PageAllocator(start, npages);
      zoneSize := zs;
      zoneLimit := if zs / 4 > ZONE_LIMIT then ZONE_LIMIT else zs / 4;
      usage, zones, zoneArray, zoneFree := map[], map[], seq(NZONES, _ => []), [];
      out, owned := map[], map[];
      region := Range(start + TablePages(npages), npages - TablePages(npages));
      new;
      OneRun(start, npages);
      FirstFits(start, npages, TablePages(npages));
      var memusage := pages.Alloc((npages * 4 + PAGE - 1) / PAGE);
      RestOfRun([Run(start, npages)], start, npages, memusage.value, TablePages(npages));
    }

    /** A large block: whole pages. */
    method MallocLarge(bytes: u32) returns (r: Option<int>, ghost len: nat)
      requires Valid() && bytes > 0
      modifies this, pages
      ensures Valid()
      ensures r.None? <==> NoRun(old(pages.list), PagesFor(bytes))
      ensures r.None? ==> Live() == old(Live()) && pages.list == old(pages.list)
      ensures r.Some? ==> Block(r.value, len) !in old(Live()) && Live() == old(Live()) + iset{Block(r.value, len)}
      ensures len == PagesFor(bytes) * PAGE && (r.Some? ==> len > 0)
      ensures zones == old(zones) && zoneArray == old(zoneArray) && zoneFree == old(zoneFree)
      ensures r.Some? ==>
        && r.value >= 0 && r.value % PAGE == 0 && LowestFit(old(pages.list), r.value / PAGE, PagesFor(bytes))
        && FreePages(pages.list) == FreePages(old(pages.list)) - Range(r.value / PAGE, PagesFor(bytes))
        && LargeBlock(owned, r.value / PAGE, Block(r.value, len))
    {
      hide ZonesOk, OwnedOk, Covers, KindsOk, UsageOk, ListsOk, IsLive, Canonical;
      var n := PagesFor(bytes);
      len := n * PAGE;
      ghost var f0 := FreePages(pages.list);
      var p := pages.Alloc(n);
      if p.None? {
        return None, len;
      }
      var c := p.value;
      FitIsFree(old(pages.list), c, n);
      LargeFacts(zones, out, owned, zoneFree, zoneSize, f0, usage, c, n);
      LargeIsNew(zones, out, owned, zoneFree, zoneSize, f0, c, n);
      LargeCovered(zones, out, owned, zoneFree, zoneSize, f0, region, c, n);
      usage := usage[c := Large(n)];
      owned := owned[c := Big(n)];
      r := Some(c * PAGE);
    }

    /** The next chunk of a zone whose count of free chunks has been lowered already. */
    static method PopChunk(z: Zone) returns (r: Zone, a: int)
      requires z.uindex + 1 == z.nmax ==> z.free != []
      ensures r == TakeChunk(z.(nfree := z.nfree + 1)) && a == TakenChunk(z.(nfree := z.nfree + 1))
    {
      if z.uindex + 1 != z.nmax {
        r := z.(uindex := z.uindex + 1);
        a := r.base + r.uindex * r.size;
      } else {
        a := z.free[0];
        r := z.(free := z.free[1..]);
      }
    }

    /** A chunk from the first zone of the class. */
    method TakeFrom(zi: nat) returns (a: int)
      requires Valid() && zi < NZONES && |zoneArray| == NZONES && zoneArray[zi] != []
      modifies this`zones, this`zoneArray, this`out
      ensures Valid()
      // it is a chunk of the first zone of the class, which leaves the list with its last free chunk
      ensures var z := old(zoneArray)[zi][0];
        && z in old(out) && out == old(out)[z := old(out)[z] + iset{a}] && z in zones
        && zoneArray == OffWhenFull(old(zoneArray), zi, zones)
        && TakenFrom(old(zones), zones, z, a)
      ensures Block(a, ChunkSize(zi)) !in old(Live()) && Live() == old(Live()) + iset{Block(a, ChunkSize(zi))}
    {
      hide *;
      Unpack();
      HeadFacts(zoneArray, zones, zi);
      TakeStep(zones, out, owned, zoneFree, zoneArray, zoneSize, FreePages(pages.list), zi);
      var z := zoneArray[zi][0];
      var zone := zones[z];
      NfreeTaken(zone);
      var left := zone.(nfree := zone.nfree - 1);
      assert left.(nfree := left.nfree + 1) == zone;
      if left.nfree == 0 {
        zoneArray := zoneArray[zi := zoneArray[zi][1..]];
      }
      left, a := PopChunk(left);
      UIndexBound(zone, out[z]);
      TookIt(zones, z, left, a);
      OffFull(old(zoneArray), zi, zones[z := left]);
      zones := zones[z := left];
      out := out[z := out[z] + iset{a}];
      Pack();
    }

    /** A run of pages for a new zone: a spare zone's, or fresh pages entered in the table. */
    method Prepare() returns (r: Option<nat>)
      requires Valid()
      modifies this`zoneFree, this`usage, this`owned, pages
      ensures pages.Valid() && UsageOk(usage, owned, zoneSize / PAGE) && |zoneFree| <= RELEASE_THRESH
      ensures LiveBlocks(zones, out, owned) == old(Live())
      ensures Covers(owned, zoneSize / PAGE, FreePages(pages.list), region)
      ensures r.None? <==> old(zoneFree) == [] && NoRun(old(pages.list), zoneSize / PAGE)
      ensures r.None? ==> Valid() && pages.list == old(pages.list)
      ensures r.Some? ==> Prepared(zones, out, owned, zoneFree, zoneSize, FreePages(pages.list), r.value)
      ensures r.Some? ==> RunFrom(old(zoneFree), old(pages.list), zoneFree, pages.list, r.value, zoneSize / PAGE)
    {
      assert PAGE > 0;
      hide *;
      Unpack();
      var cnt := zoneSize / PAGE;
      if zoneFree != [] {
        PrepareSpare(zones, out, owned, zoneFree, zoneSize, FreePages(pages.list), usage);
        var z := zoneFree[0];
        RunSpare(zoneFree, pages.list, cnt);
        SpareCovered(zones, out, owned, zoneFree, zoneSize, FreePages(pages.list), region);
        zoneFree := zoneFree[1..];
        owned := owned[z := ZoneInUse];
        return Some(z);
      }
      ghost var list0 := pages.list;
      r := pages.Alloc(cnt);
      if r.Some? {
        var z := r.value;
        FitIsFree(list0, z, cnt);
        RunFresh(list0, pages.list, z, cnt);
        ghost var usage0 := usage;
        MarkPages(z, cnt);
        PrepareFresh(zones, out, owned, zoneFree, zoneSize, FreePages(list0), usage0, usage, z);
        FreshCovered(zones, out, owned, zoneFree, zoneSize, FreePages(list0), region, z);
        owned := owned[z := ZoneInUse];
      } else {
        Pack();
      }
    }

    /** Enters the pages of a zone in the page table. */
    method MarkPages(z: nat, cnt: nat)
      modifies this`usage
      ensures Marked(old(usage), usage, z, cnt)
    {
      var off := 0;
      while off < cnt
        invariant off <= cnt
        invariant forall o: nat | o < off :: Entry(usage, z + o) == Small(o)
        invariant forall q: nat | q < z || z + off <= q :: Entry(usage, q) == Entry(old(usage), q)
      {
        usage := usage[z + off := Small(off)];
        off := off + 1;
      }
    }

    /** Sets up a zone for chunks of `size` bytes and hands out its first chunk. */
    method OpenZone(index: nat, size: nat, ghost n: nat) returns (r: Option<int>, ghost z: nat)
      requires Valid() && 0 < n && n < zoneLimit && ZoneIndex(n) == SizeClass(index, size)
      modifies this, pages
      ensures Valid()
      ensures r.None? <==> old(zoneFree) == [] && NoRun(old(pages.list), zoneSize / PAGE)
      ensures r.None? ==> Live() == old(Live()) && pages.list == old(pages.list)
      ensures r.Some? ==> RunFrom(old(zoneFree), old(pages.list), zoneFree, pages.list, z, zoneSize / PAGE)
      ensures r.Some? ==>
        OpenedFor(old(zones), zones, old(zoneArray), zoneArray, z, index, size, zoneSize, r.value)
      ensures r.Some? ==> Block(r.value, size) !in old(Live()) && Live() == old(Live()) + iset{Block(r.value, size)}
    {
      hide *;
      Unpack();
      LimitFacts(zoneSize, zoneLimit, n);
      var p := Prepare();
      if p.None? {
        Unpack();
        return None, 0;
      }
      var zn := p.value;
      z := zn;
      NewZoneOk(zn, n, zoneSize);
      var zone := NewZone(zn, index, size, zoneSize);
      NewZoneFields(zn, index, size, zoneSize);
      OpenStep(zones, out, owned, zoneFree, zoneArray, zoneSize, FreePages(pages.list), zn, zone);
      OpenedSo(zones, zoneArray, zn, index, size, zoneSize);
      zones := zones[zn := zone];
      zoneArray := zoneArray[index := [zn] + zoneArray[index]];
      out := out[zn := iset{zone.base}];
      Pack();
      r := Some(zone.base);
    }

    /** There is no block for the request: no run of pages for a large one; no zone of its class
        with a free chunk, no spare zone and no run of pages for a new zone for a small one. */
    ghost predicate Refused(bytes: u32)
      reads this, pages
    {
      || bytes == 0
      || (bytes >= zoneLimit && NoRun(pages.list, PagesFor(bytes)))
      || (0 < bytes < zoneLimit
          && (forall z | z in zones && zones[z].index == ZoneIndex(bytes).index :: zones[z].nfree <= 0)
          && zoneFree == [] && NoRun(pages.list, zoneSize / PAGE))
    }

    lemma RefusedSmall(bytes: u32)
      requires 0 < bytes < zoneLimit && ListsOk(zoneArray, zones) && ZoneIndex(bytes).index < |zoneArray|
      ensures Refused(bytes) <==>
        zoneArray[ZoneIndex(bytes).index] == [] && zoneFree == [] && NoRun(pages.list, zoneSize / PAGE)
    {
      var list := zoneArray[ZoneIndex(bytes).index];
      assert ListOk(list, ZoneIndex(bytes).index, zones);
      assert list != [] ==> list[0] in list;
    }

    lemma RefusedLarge(bytes: u32)
      requires bytes >= zoneLimit && bytes > 0
      ensures Refused(bytes) <==> NoRun(pages.list, PagesFor(bytes))
    {}

    lemma RefusedNone(bytes: u32)
      requires bytes == 0
      ensures Refused(bytes)
    {}

    /** A block of at least `bytes` bytes; a size that wraps when rounded to pages is refused. */
    method Malloc(bytes: u32) returns (r: Option<int>, ghost len: int, ghost z: nat)
      requires Valid()
      modifies this, pages
      ensures Valid()
      ensures r.None? <==> old(Refused(bytes))
      ensures r.None? ==> Live() == old(Live()) && pages.list == old(pages.list)
      ensures r.Some? && bytes >= zoneLimit ==>
        && r.value >= 0 && r.value % PAGE == 0 && LowestFit(old(pages.list), r.value / PAGE, PagesFor(bytes))
        && len == PagesFor(bytes) * PAGE && LargeBlock(owned, r.value / PAGE, Block(r.value, len))
        && FreePages(pages.list) == FreePages(old(pages.list)) - Range(r.value / PAGE, PagesFor(bytes))
        && zones == old(zones) && zoneArray == old(zoneArray) && zoneFree == old(zoneFree)
      // a small request gets a chunk of its class, from the first zone of it or from a new one
      ensures r.Some? && 0 < bytes < zoneLimit ==>
        var c := ZoneIndex(bytes);
        && len == c.size && c.index < |old(zoneArray)|
        && if old(zoneArray)[c.index] != []
           then z == old(zoneArray)[c.index][0] && TakenFrom(old(zones), zones, z, r.value)
                && zoneArray == OffWhenFull(old(zoneArray), c.index, zones) && zoneFree == old(zoneFree)
                && pages.list == old(pages.list)
           else RunFrom(old(zoneFree), old(pages.list), zoneFree, pages.list, z, zoneSize / PAGE)
                && OpenedFor(old(zones), zones, old(zoneArray), zoneArray, z, c.index, c.size, zoneSize, r.value)
      ensures r.Some? ==> Block(r.value, len) !in old(Live()) && Live() == old(Live()) + iset{Block(r.value, len)}
      ensures r.Some? ==> len >= bytes > 0
    {
      hide *;
      len, z := 0, 0;
      if bytes == 0 {
        RefusedNone(bytes);
        return None, len, z;
      }
      Unpack();
      if bytes >= zoneLimit {
        RefusedLarge(bytes);
        r, len := MallocLarge(bytes);
        if r.Some? {
          PageRounding(bytes, len);
        }
        return;
      }
      LimitFacts(zoneSize, zoneLimit, bytes);
      NewZoneOk(0, bytes, zoneSize);
      var c := ZoneIndex(bytes);
      len := c.size;
      RefusedSmall(bytes);
      if zoneArray[c.index] != [] {
        ghost var zoneFirst := zoneArray[c.index][0];
        var a := TakeFrom(c.index);
        return Some(a), len, zoneFirst;
      }
      r, z := OpenZone(c.index, c.size, bytes);
    }

    /** Empties the table entries of a zone's pages. */
    method ClearPages(z: nat, cnt: nat)
      modifies this`usage
      ensures forall q: nat | q < z || z + cnt <= q :: Entry(usage, q) == Entry(old(usage), q)
    {
      var i := 0;
      while i < cnt
        invariant i <= cnt
        invariant forall q: nat | q < z || z + cnt <= q :: Entry(usage, q) == Entry(old(usage), q)
      {
        usage := usage[z + i := Unused];
        i := i + 1;
      }
    }

    /** The parts of `Valid`, when one more zone may be spare than is kept. */
    ghost predicate AlmostValid()
      reads this, pages
    {
      && pages.Valid() && zoneLimit == (if zoneSize / 4 > ZONE_LIMIT then ZONE_LIMIT else zoneSize / 4)
      && WellFormed(zones, out, owned, zoneFree, zoneSize, FreePages(pages.list))
      && Covers(owned, zoneSize / PAGE, FreePages(pages.list), region)
      && UsageOk(usage, owned, zoneSize / PAGE)
      && ListsOk(zoneArray, zones)
      && |zoneFree| <= RELEASE_THRESH + 1
    }

    lemma UnpackAlmost()
      requires AlmostValid()
      ensures pages.Valid() && zoneLimit == (if zoneSize / 4 > ZONE_LIMIT then ZONE_LIMIT else zoneSize / 4)
      ensures WellFormed(zones, out, owned, zoneFree, zoneSize, FreePages(pages.list))
      ensures Covers(owned, zoneSize / PAGE, FreePages(pages.list), region)
      ensures UsageOk(usage, owned, zoneSize / PAGE) && ListsOk(zoneArray, zones) && |zoneFree| <= RELEASE_THRESH + 1
      ensures Live() == LiveBlocks(zones, out, owned)
    {}

    lemma PackAlmost()
      requires pages.Valid() && zoneLimit == (if zoneSize / 4 > ZONE_LIMIT then ZONE_LIMIT else zoneSize / 4)
      requires WellFormed(zones, out, owned, zoneFree, zoneSize, FreePages(pages.list))
      requires Covers(owned, zoneSize / PAGE, FreePages(pages.list), region)
      requires UsageOk(usage, owned, zoneSize / PAGE) && ListsOk(zoneArray, zones) && |zoneFree| <= RELEASE_THRESH + 1
      ensures AlmostValid() && Live() == LiveBlocks(zones, out, owned)
    {}

    /** Gives back the pages of a spare zone when there are too many of them. */
    method ReleaseSpare()
      requires AlmostValid()
      modifies this`zoneFree, this`usage, this`owned, pages
      ensures Valid() && Live() == old(Live())
      ensures if |old(zoneFree)| > RELEASE_THRESH
              then zoneFree == old(zoneFree)[1..]
                   && FreePages(pages.list) == FreePages(old(pages.list)) + Range(old(zoneFree)[0], zoneSize / PAGE)
              else zoneFree == old(zoneFree) && pages.list == old(pages.list)
    {
      assert PAGE > 0;
      hide *;
      UnpackAlmost();
      if |zoneFree| > RELEASE_THRESH {
        var z := zoneFree[0];
        ghost var usage0 := usage;
        ClearPages(z, zoneSize / PAGE);
        ReleaseFacts(zones, out, owned, zoneFree, zoneSize, FreePages(pages.list), usage0, usage);
        ReleaseCovered(zones, out, owned, zoneFree, zoneSize, FreePages(pages.list), region);
        CountSpares(zoneFree, zoneSize);
        zoneFree := zoneFree[1..];
        owned := owned - {z};
        pages.Free(z, zoneSize / PAGE);
      }
      Pack();
    }

    /** Takes a wholly free zone off its list and puts it aside. */
    method Retire(z: nat)
      requires Valid() && z in zones && z in out && out[z] == iset{} && zones[z].index < |zoneArray|
        && z in zoneArray[zones[z].index]
      modifies this`zones, this`out, this`zoneArray, this`zoneFree, this`owned
      ensures AlmostValid() && Live() == old(Live())
      // it is spare now, and on no list of a class
      ensures zoneFree == [z] + old(zoneFree) && zones == old(zones) - {z} && out == old(out) - {z}
      ensures Unlisted(old(zoneArray), zoneArray, old(zones)[z].index, z)
      ensures forall c | 0 <= c < |zoneArray| :: z !in zoneArray[c]
    {
      hide *;
      Unpack();
      var c := zones[z].index;
      var list := zoneArray[c];
      var i := 0;
      while list[i] != z
        invariant i < |list| && exists k :: i <= k < |list| && list[k] == z
        decreases |list| - i
      {
        i := i + 1;
      }
      RetireStep(zones, out, owned, zoneFree, zoneArray, zoneSize, FreePages(pages.list), usage, z, i);
      UnlistedSo(zoneArray, c, i);
      RetireCovered(zones, out, owned, zoneFree, zoneSize, FreePages(pages.list), region, z);
      zoneArray := zoneArray[c := Without(list, i)];
      zones := zones - {z};
      out := out - {z};
      owned := owned[z := SpareZone];
      zoneFree := [z] + zoneFree;
      MoreSpares(zoneFree);
      ListedAreZones(zoneArray, zones, z);
      PackAlmost();
    }

    /** A chunk comes back to zone `z`, which is put aside if and only if it was its last one and
        another zone of the class has free chunks; more than two spare zones are not kept. */
    method FreeChunk(z: nat, a: int, ghost b: Block)
      requires Valid() && ChunkBlock(zones, out, z, b) && b.addr == a
      modifies this, pages
      ensures Valid() && Live() == old(Live()) - iset{b}
      ensures z in zones <==> !(old(out[z]) == iset{a} && AnotherOpen(old(zones), z))
      ensures z in zones ==> zoneFree == old(zoneFree) && pages.list == old(pages.list)
      ensures z in zones ==> GivenBack(old(zones), zones, old(zoneArray), zoneArray, z, a)
      ensures z !in zones ==>
        zones == old(zones) - {z} && Unlisted(old(zoneArray), zoneArray, old(zones)[z].index, z)
      ensures z !in zones && |old(zoneFree)| < RELEASE_THRESH ==>
        zoneFree == [z] + old(zoneFree) && pages.list == old(pages.list)
      ensures z !in zones && |old(zoneFree)| >= RELEASE_THRESH ==>
        && zoneFree == old(zoneFree)
        && FreePages(pages.list) == FreePages(old(pages.list)) + Range(z, zoneSize / PAGE)
    {
      hide *;
      Unpack();
      ChunkKnown(zones, out, z, b);
      GiveStep(zones, out, owned, zoneFree, zoneArray, zoneSize, FreePages(pages.list), z, b);
      var zone := zones[z];
      var c := zone.index;
      GiveFields(zone, a);
      var given := zone.(free := [a] + zone.free, nfree := zone.nfree + 1);
      GivenSo(zones, zoneArray, z, a);
      NotFull(zones, out, owned, zoneFree, zoneSize, FreePages(pages.list), z);
      GoneFrom(zones, given, out, out[z] - iset{a}, z);
      if zone.nfree == 0 {
        zoneArray := zoneArray[c := [z] + zoneArray[c]];
      }
      zones := zones[z := given];
      out := out[z := out[z] - iset{a}];
      Pack();
      var list := zoneArray[c];
      ListedOthers(zoneArray, old(zones), zones, z);
      if given.nfree == given.nmax && (list[|list| - 1] != z || list[0] != z) {
        Retire(z);
        ReleaseSpare();
      }
    }

    method FreeLarge(page: nat, n: nat, ghost b: Block)
      requires Valid() && LargeBlock(owned, page, b) && owned[page].pages == n
      modifies this`usage, this`owned, pages
      ensures Valid() && Live() == old(Live()) - iset{b}
      ensures FreePages(pages.list) == FreePages(old(pages.list)) + Range(page, n)
    {
      hide *;
      Unpack();
      LargeKnown(owned, page, b);
      FreeLargeFacts(zones, out, owned, zoneFree, zoneSize, FreePages(pages.list), usage, page, Large(0));
      FreeLargeLive(zones, out, owned, zoneFree, zoneSize, FreePages(pages.list), page, b);
      FreeCovered(zones, out, owned, zoneFree, zoneSize, FreePages(pages.list), region, page);
      usage := usage[page := Large(0)];
      owned := owned - {page};
      pages.Free(page, n);
      Pack();
    }

    /** What the page table says of a block handed out. */
    lemma Found(b: Block)
      requires Valid() && b in Live()
      ensures b.addr >= 0 && b.addr / PAGE in usage
      ensures var page := b.addr / PAGE; var e := usage[page];
        && (e.Large? ==>
              && LargeBlock(owned, page, b) && owned[page].pages == e.pages
              && b.addr == page * PAGE && b.bytes == e.pages * PAGE)
        && (!e.Large? ==>
              && e.Small? && e.offset <= page && ChunkBlock(zones, out, page - e.offset, b)
              && page - e.offset in zones && page - e.offset in out && b.addr > (page - e.offset) * PAGE)
    {
      assert PAGE > 0;
      hide *;
      Unpack();
      LookUp(zones, out, owned, zoneFree, zoneSize, FreePages(pages.list), usage, b);
    }

    /** Frees the block at `addr`. */
    method Free(addr: Option<int>, ghost b: Block) returns (ghost run: nat)
      requires Valid() && (addr.Some? ==> b in Live() && b.addr == addr.value)
      modifies this, pages
      ensures Valid()
      ensures Live() == if addr.None? then old(Live()) else old(Live()) - iset{b}
      ensures addr.None? ==>
        && zones == old(zones) && zoneArray == old(zoneArray) && zoneFree == old(zoneFree)
        && pages.list == old(pages.list)
      // which run the block lies in
      ensures addr.Some? ==>
        if b.addr == run * PAGE then old(LargeBlock(owned, run, b))
        else old(ChunkBlock(zones, out, run, b)) && run in old(zones) && run in old(out)
      // the pages of a large block are free again
      ensures addr.Some? && b.addr == run * PAGE ==>
        && zones == old(zones) && zoneArray == old(zoneArray) && zoneFree == old(zoneFree)
        && FreePages(pages.list) == FreePages(old(pages.list)) + Range(run, b.bytes / PAGE)
      // a chunk is the next one of its zone, unless the zone is spare now or its pages are free
      ensures addr.Some? && b.addr != run * PAGE ==>
        (run in zones <==> !(old(out)[run] == iset{b.addr} && AnotherOpen(old(zones), run)))
      ensures addr.Some? && b.addr != run * PAGE && run in zones ==>
        && GivenBack(old(zones), zones, old(zoneArray), zoneArray, run, b.addr)
        && zoneFree == old(zoneFree) && pages.list == old(pages.list)
      ensures addr.Some? && b.addr != run * PAGE && run !in zones ==>
        && zones == old(zones) - {run} && Unlisted(old(zoneArray), zoneArray, old(zones)[run].index, run)
        && if |old(zoneFree)| < RELEASE_THRESH
           then zoneFree == [run] + old(zoneFree) && pages.list == old(pages.list)
           else zoneFree == old(zoneFree)
                && FreePages(pages.list) == FreePages(old(pages.list)) + Range(run, zoneSize / PAGE)
    {
      hide Valid, Live, ChunkBlock, LargeBlock, AnotherOpen, FreePages, Range, GivenBack, Unlisted;
      run := 0;
      if addr.None? {
        return;
      }
      Found(b);
      var page := addr.value / PAGE;
      var e := usage[page];
      if e.Large? {
        run := page;
        FreeLarge(page, e.pages, b);
      } else {
        run := page - e.offset;
        FreeChunk(page - e.offset, addr.value, b);
      }
    }
  }

  /** A large block that is freed again leaves the very page list there was before. */
  method LargeComesBack(h: Allocator, bytes: u32) returns (r: Option<int>)
    requires h.Valid() && bytes >= h.zoneLimit
    modifies h, h.pages
    ensures h.Valid() && h.Live() == old(h.Live()) && h.pages.list == old(h.pages.list)
    ensures r.None? <==> old(h.Refused(bytes))
  {
    hide Allocator.Valid, Allocator.Live, Allocator.Refused, WellFormed, Covers, UsageOk, ListsOk, LiveBlocks;
    hide Canonical, FreePages, Range, LowestFit, NoRun, PagesFor, LargeBlock, ChunkBlock, GivenBack, Unlisted;
    hide AnotherOpen, RunFrom, OpenedFor, TakenFrom, OffWhenFull, ZoneIndex;
    ghost var list0, live0, len, z := h.pages.list, h.Live(), 0, 0;
    h.Unpack();
    r, len, z := h.Malloc(bytes);
    if r.Some? {
      ghost var b, p, n := Block(r.value, len), r.value / PAGE, PagesFor(bytes);
      h.Unpack();
      OnlyLarge(h.zones, h.out, h.owned, h.zoneFree, h.zoneSize, FreePages(h.pages.list), p, b);
      FitIsFree(list0, p, n);
      BackAgain(FreePages(list0), Range(p, n), live0, b);
      DivExact(n, PAGE);
      ghost var run := h.Free(r, b);
      h.Unpack();
      ListIsUnique(list0, h.pages.list);
    }
  }

  lemma OnlyLarge(zones: map<nat, Zone>, out: map<nat, iset<int>>, owned: map<nat, Holding>, zoneFree: seq<nat>,
                  zoneSize: nat, free: iset<int>, p: nat, b: Block)
    requires WellFormed(zones, out, owned, zoneFree, zoneSize, free) && LargeBlock(owned, p, b)
    ensures b.addr == p * PAGE && forall z: nat :: !ChunkBlock(zones, out, z, b)
  {
    hide WellFormed, ChunkBlock;
    forall z: nat | ChunkBlock(zones, out, z, b) ensures false {
      BlockOnce(zones, out, owned, zoneFree, zoneSize, free, z, b);
    }
  }

  lemma BackAgain(free: iset<int>, run: iset<int>, live: iset<Block>, b: Block)
    requires run <= free && b !in live
    ensures free - run + run == free && live + iset{b} - iset{b} == live
  {}

  /** The first request of 8192 bytes in a region that starts at page 2 gets pages 3 and 4, which are
      not aligned to 8192 bytes. */
  method PowerMisaligned() returns (h: Allocator, r: Option<int>)
    ensures fresh(h) && h.Valid() && r.Some? && Block(r.value, 8192) in h.Live() && r.value % 8192 != 0
  {
    hide WellFormed, UsageOk, ListsOk, LiveBlocks;
    h := new Allocator(2, 100);
    assert ZoneSizeFor(100 * PAGE) == MIN_ZONE && TablePages(100) == 1 && PagesFor(8192) == 2;
    ghost var list, len := h.pages.list, 0;
    RunOfTwo(list, 3, 99);
    r, len := h.MallocLarge(8192);
  }

  lemma RunOfTwo(list: seq<Run>, start: nat, n: nat)
    requires FreePages(list) == Range(start, n) && n >= 2
    ensures !NoRun(list, 2) && forall p: nat :: LowestFit(list, p, 2) ==> p == start
  {
    forall q | start <= q < start + 2 ensures IsFree(list, q) { assert q in FreePages(list); }
    assert AllFree(list, start, 2);
    forall p: nat | LowestFit(list, p, 2) ensures p == start {
      assert IsFree(list, p);
      assert p in FreePages(list);
    }
  }
}
