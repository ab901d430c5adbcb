/** The memory heap object: blocks in a ring in address order, unused blocks also
    in a ring of their own, most recently freed first.  Every block starts with an
    item: magic word, pool pointer and the links of both rings.  Addresses are byte
    offsets from the start of the pool; a word is kept in the cell of its first byte. */
module MemHeap {
  import opened Lists
  import opened Machine
  import opened Tiling
  import opened Ring

  const ITEM: nat := 24        // RT_MEMHEAP_SIZE
  const MINIALLOC: nat := 12
  const MAGIC: int := 0x1ea0_1ea0
  const USED: int := 1
  // the words of an item behind the magic word
  const POOL_PTR: nat := 4
  const NEXT: nat := 8
  const PREV: nat := 12
  const NEXT_FREE: nat := 16
  const PREV_FREE: nat := 20
  // addresses outside the pool
  const FREE_HEADER: int := -1 // the item inside the heap object itself
  const HEAP: int := -2        // the heap object
  const NULL: int := -3

  function Addrs(bs: seq<Block>): seq<int> {
    seq(|bs|, i requires 0 <= i < |bs| => bs[i].at as int)
  }

  ghost predicate Flags(used: map<int, bool>, bs: seq<Block>) {
    forall i | 0 <= i < |bs| :: bs[i].at in used && used[bs[i].at] == bs[i].used
  }

  /** The block ring, head to end marker, and the used flags describe `bs`. */
  ghost predicate Blocks(next: Links, prev: Links, used: map<int, bool>, bs: seq<Block>) {
    IsRing(next, prev, Addrs(bs)) && Flags(used, bs)
  }

  ghost predicate FreeAt(bs: seq<Block>, a: int) {
    exists i: nat :: i < |bs| && bs[i].at == a && !bs[i].used
  }

  ghost function FreeSet(bs: seq<Block>): iset<int> {
    iset a | FreeAt(bs, a)
  }

  /** The free ring holds, behind its header, exactly the blocks in `fs`, each once. */
  ghost predicate Frees(nextFree: Links, prevFree: Links, fr: seq<int>, fs: iset<int>) {
    && IsRing(nextFree, prevFree, [FREE_HEADER] + fr)
    && forall a :: a in fr <==> a in fs
  }

  /** The blocks on the free ring while `g`, if `alone`, still has to be put on it. */
  ghost function Listed(fs: iset<int>, g: int, alone: bool): iset<int> {
    if alone then fs - iset{g} else fs
  }

  ghost predicate Laid(bs: seq<Block>, pool: nat) {
    Tiled(bs, ITEM) && bs[|bs| - 1].at + ITEM == pool
  }

  // ----- the block ring

  lemma StartsDiffer(bs: seq<Block>, i: nat, j: nat)
    requires Tiled(bs, ITEM) && i < |bs| && j < |bs|
    ensures bs[i].at == bs[j].at <==> i == j
  {
    if i < j { assert bs[i].at + ITEM <= bs[j].at; }
    if j < i { assert bs[j].at + ITEM <= bs[i].at; }
  }

  lemma BlockReads(next: Links, prev: Links, used: map<int, bool>, bs: seq<Block>, i: nat)
    requires Blocks(next, prev, used, bs) && i < |bs|
    ensures var a := bs[i].at;
      && a in next && a in prev && a in used && used[a] == bs[i].used
      && next[a] == (if i + 1 == |bs| then bs[0].at else bs[i + 1].at)
      && prev[a] == (if i == 0 then bs[|bs| - 1].at else bs[i - 1].at)
  {
    assert Linked(next, prev, Addrs(bs), i);
  }

  lemma BlocksMark(next: Links, prev: Links, used: map<int, bool>, bs: seq<Block>, i: nat, u: bool)
    requires Blocks(next, prev, used, bs) && Tiled(bs, ITEM) && i < |bs|
    ensures Blocks(next, prev, used[bs[i].at := u], Mark(bs, i, u))
  {
    assert Addrs(Mark(bs, i, u)) == Addrs(bs);
    hide Tiled;
    forall k: nat | k < |bs| ensures bs[k].at == bs[i].at <==> k == i { StartsDiffer(bs, k, i); }
  }

  lemma BlocksDrop(next: Links, prev: Links, used: map<int, bool>, bs: seq<Block>, i: nat)
    requires Blocks(next, prev, used, bs) && 0 < i < |bs|
    ensures bs[i].at in next && bs[i].at in prev
    ensures Blocks(next[prev[bs[i].at] := next[bs[i].at]], prev[next[bs[i].at] := prev[bs[i].at]], used, Drop(bs, i))
  {
    assert Addrs(Drop(bs, i)) == Without(Addrs(bs), i);
    Unlink(next, prev, Addrs(bs), i);
  }

  lemma BlocksInsert(next: Links, prev: Links, used: map<int, bool>, bs: seq<Block>, i: nat, at: nat)
    requires Blocks(next, prev, used, bs) && Tiled(bs, ITEM) && i < |bs| - 1
    requires bs[i].at < at < bs[i + 1].at
    ensures bs[i].at in next
    ensures var p, n := bs[i].at, next[bs[i].at];
      Blocks(next[at := n][p := at], prev[at := p][n := at], used[at := false], Insert(bs, i, at))
  {
    var r := Insert(bs, i, at);
    assert Addrs(r) == With(Addrs(bs), i, at);
    forall k: nat | k < |bs| ensures bs[k].at != at {
      if k < i { assert bs[k].at + ITEM <= bs[i].at; }
      if k > i + 1 { assert bs[i + 1].at + ITEM <= bs[k].at; }
    }
    LinkAfter(next, prev, Addrs(bs), i, at);
    hide Tiled, IsRing;
    forall k | 0 <= k < |r| ensures r[k].at in used[at := false] && used[at := false][r[k].at] == r[k].used {
      if k != i + 1 { assert r[k] == bs[if k <= i then k else k - 1]; }
    }
  }

  // ----- the free ring

  lemma FreeReads(nextFree: Links, prevFree: Links, fr: seq<int>, fs: iset<int>, j: nat)
    requires Frees(nextFree, prevFree, fr, fs) && j <= |fr|
    ensures var n := if j == 0 then FREE_HEADER else fr[j - 1];
      && n in nextFree && n in prevFree
      && nextFree[n] == (if j == |fr| then FREE_HEADER else fr[j])
    ensures forall k: nat | k < |fr| :: fr[k] != FREE_HEADER
  {
    var r := [FREE_HEADER] + fr;
    assert Linked(nextFree, prevFree, r, j);
    forall k: nat | k < |fr| ensures fr[k] != FREE_HEADER {
      assert r[k + 1] == fr[k];
      Different(r, 0, k + 1);
    }
  }

  /** Takes the block at `fr[j]` off the ring. */
  lemma FreesRemove(nextFree: Links, prevFree: Links, fr: seq<int>, fs: iset<int>, j: nat)
    requires Frees(nextFree, prevFree, fr, fs) && j < |fr|
    ensures fr[j] in nextFree && fr[j] in prevFree
    ensures var x := fr[j];
      Frees(nextFree[prevFree[x] := nextFree[x]], prevFree[nextFree[x] := prevFree[x]], Without(fr, j), fs - iset{x})
  {
    var r := [FREE_HEADER] + fr;
    Unlink(nextFree, prevFree, r, j + 1);
    assert Without(r, j + 1) == [FREE_HEADER] + Without(fr, j);
    assert Distinct(fr) by {
      forall a, b | 0 <= a < b < |fr| ensures fr[a] != fr[b] { assert r[a + 1] != r[b + 1]; }
    }
    hide IsRing;
    WithoutKeeps(fr, j);
  }

  lemma FreesDistinct(nextFree: Links, prevFree: Links, fr: seq<int>, fs: iset<int>)
    requires Frees(nextFree, prevFree, fr, fs)
    ensures Distinct(fr)
  {
    var r := [FREE_HEADER] + fr;
    forall a, b | 0 <= a < b < |fr| ensures fr[a] != fr[b] { assert r[a + 1] != r[b + 1]; }
  }

  /** Puts the block at `x` at the front of the ring. */
  lemma FreesAdd(nextFree: Links, prevFree: Links, fr: seq<int>, fs: iset<int>, x: nat)
    requires Frees(nextFree, prevFree, fr, fs) && x !in fs
    ensures FREE_HEADER in nextFree
    ensures var n := nextFree[FREE_HEADER];
      Frees(nextFree[x := n][FREE_HEADER := x], prevFree[x := FREE_HEADER][n := x], [x] + fr, fs + iset{x})
  {
    var r := [FREE_HEADER] + fr;
    LinkAfter(nextFree, prevFree, r, 0, x);
    assert With(r, 0, x) == [FREE_HEADER] + ([x] + fr);
  }

  /** The links of a block that is not on the ring do not matter. */
  lemma FreesOff(nextFree: Links, prevFree: Links, fr: seq<int>, fs: iset<int>, x: int, n: int, p: int)
    requires Frees(nextFree, prevFree, fr, fs) && x !in fs && x != FREE_HEADER
    ensures Frees(nextFree[x := n], prevFree[x := p], fr, fs)
  {
    var r := [FREE_HEADER] + fr;
    var f, g := nextFree[x := n], prevFree[x := p];
    forall i: nat | i < |r| ensures Linked(f, g, r, i) {
      assert Linked(nextFree, prevFree, r, i);
      assert i > 0 ==> r[i] == fr[i - 1];
    }
  }

  /** The links of a block on the ring lead to the header or to blocks on the ring. */
  lemma FreeNeighbours(nextFree: Links, prevFree: Links, fr: seq<int>, fs: iset<int>, j: nat)
    requires Frees(nextFree, prevFree, fr, fs) && j <= |fr|
    ensures var x := if j == 0 then FREE_HEADER else fr[j - 1];
      && x in nextFree && x in prevFree
      && (nextFree[x] == FREE_HEADER || nextFree[x] in fs)
      && (prevFree[x] == FREE_HEADER || prevFree[x] in fs)
  {
    var r := [FREE_HEADER] + fr;
    assert Linked(nextFree, prevFree, r, j);
    SuccIn(r, j);
  }

  lemma DropIndex(bs: seq<Block>, i: nat, k: nat)
    requires i < |bs|
    ensures |Drop(bs, i)| == |bs| - 1
    ensures k < |bs| && k != i ==> Drop(bs, i)[if k < i then k else k - 1] == bs[k]
    ensures k < |bs| - 1 ==> Drop(bs, i)[k] == bs[if k < i then k else k + 1]
  {}

  lemma FreeMark(bs: seq<Block>, i: nat, u: bool)
    requires Tiled(bs, ITEM) && i < |bs|
    ensures FreeSet(Mark(bs, i, u)) == if u then FreeSet(bs) - iset{bs[i].at} else FreeSet(bs) + iset{bs[i].at}
  {
    var r := Mark(bs, i, u);
    hide Tiled;
    forall a | FreeAt(bs, a) && a != bs[i].at ensures FreeAt(r, a) {
      var k: nat :| k < |bs| && bs[k].at == a && !bs[k].used;
      assert r[k] == bs[k];
    }
    forall a | FreeAt(r, a) ensures (a == bs[i].at && !u) || (a != bs[i].at && FreeAt(bs, a)) {
      var k: nat :| k < |r| && r[k].at == a && !r[k].used;
      StartsDiffer(bs, k, i);
    }
    if !u { assert r[i] == Block(bs[i].at, false); }
  }

  lemma FreeInsert(bs: seq<Block>, i: nat, at: nat)
    requires i < |bs|
    ensures FreeSet(Insert(bs, i, at)) == FreeSet(bs) + iset{at}
  {
    var r := Insert(bs, i, at);
    forall a | FreeAt(bs, a) ensures FreeAt(r, a) {
      var k: nat :| k < |bs| && bs[k].at == a && !bs[k].used;
      assert r[if k <= i then k else k + 1] == bs[k];
    }
    forall a | FreeAt(r, a) ensures FreeAt(bs, a) || a == at {
      var k: nat :| k < |r| && r[k].at == a && !r[k].used;
      assert k != i + 1 ==> r[k] == bs[if k <= i then k else k - 1];
    }
    assert r[i + 1] == Block(at, false);
  }

  lemma FreeDrop(bs: seq<Block>, i: nat)
    requires Tiled(bs, ITEM) && i < |bs|
    ensures FreeSet(Drop(bs, i)) == FreeSet(bs) - iset{bs[i].at}
  {
    hide Tiled, Drop;
    forall a | FreeAt(bs, a) && a != bs[i].at ensures FreeAt(Drop(bs, i), a) {
      var k: nat :| k < |bs| && bs[k].at == a && !bs[k].used;
      DropIndex(bs, i, k);
    }
    forall a | FreeAt(Drop(bs, i), a) ensures FreeAt(bs, a) && a != bs[i].at {
      DropIndex(bs, i, 0);
      var k: nat :| k < |Drop(bs, i)| && Drop(bs, i)[k].at == a && !Drop(bs, i)[k].used;
      DropIndex(bs, i, k);
      StartsDiffer(bs, if k < i then k else k + 1, i);
    }
  }

  lemma FreeHere(bs: seq<Block>, i: nat)
    requires Tiled(bs, ITEM) && i < |bs|
    ensures bs[i].at in FreeSet(bs) <==> !bs[i].used
  {
    hide Tiled;
    if FreeAt(bs, bs[i].at) {
      var k: nat :| k < |bs| && bs[k].at == bs[i].at && !bs[k].used;
      StartsDiffer(bs, k, i);
    }
  }

  // ----- items in memory

  ghost predicate StartsAt(bs: seq<Block>, a: int) {
    exists i: nat :: i < |bs| && bs[i].at == a
  }

  ghost function Starts(bs: seq<Block>): iset<int> {
    iset a | StartsAt(bs, a)
  }

  ghost predicate ItemAt(mem: seq<int>, a: int, next: Links, prev: Links, used: map<int, bool>, nextFree: Links,
                         prevFree: Links)
  {
    && 0 <= a && a + ITEM <= |mem|
    && a in used && mem[a] == (if used[a] then MAGIC + USED else MAGIC) && mem[a + POOL_PTR] == HEAP
    && a in next && mem[a + NEXT] == next[a]
    && a in prev && mem[a + PREV] == prev[a]
    && a in nextFree && mem[a + NEXT_FREE] == nextFree[a]
    && a in prevFree && mem[a + PREV_FREE] == prevFree[a]
  }

  /** At each address in `items` the memory holds an item with these words; no two items overlap. */
  ghost predicate ItemsAt(mem: seq<int>, items: iset<int>, next: Links, prev: Links, used: map<int, bool>,
                          nextFree: Links, prevFree: Links)
  {
    && (forall a | a in items :: ItemAt(mem, a, next, prev, used, nextFree, prevFree))
    && forall a, b | a in items && b in items && a < b :: a + ITEM <= b
  }

  ghost predicate InItem(items: iset<int>, a: int) {
    exists h :: h in items && h <= a < h + ITEM
  }

  /** From `s` to `t`, memory changed inside the items at `zone` only. */
  ghost predicate OnlyItems(s: seq<int>, t: seq<int>, zone: iset<int>) {
    |s| == |t| && forall a | 0 <= a < |s| && !InItem(zone, a) :: t[a] == s[a]
  }

  lemma StartHere(bs: seq<Block>, i: nat)
    requires i < |bs|
    ensures bs[i].at in Starts(bs)
  {}

  lemma FreeStarts(bs: seq<Block>)
    ensures FreeSet(bs) <= Starts(bs)
  {}

  lemma StartsMark(bs: seq<Block>, i: nat, u: bool)
    requires i < |bs|
    ensures Starts(Mark(bs, i, u)) == Starts(bs)
  {
    var r := Mark(bs, i, u);
    forall a | StartsAt(bs, a) ensures StartsAt(r, a) {
      var k: nat :| k < |bs| && bs[k].at == a;
      assert r[k].at == a;
    }
    forall a | StartsAt(r, a) ensures StartsAt(bs, a) {
      var k: nat :| k < |r| && r[k].at == a;
      assert bs[k].at == a;
    }
  }

  lemma StartsInsert(bs: seq<Block>, i: nat, at: nat)
    requires i < |bs|
    ensures Starts(Insert(bs, i, at)) == Starts(bs) + iset{at}
  {
    var r := Insert(bs, i, at);
    forall a | StartsAt(bs, a) ensures StartsAt(r, a) {
      var k: nat :| k < |bs| && bs[k].at == a;
      assert r[if k <= i then k else k + 1] == bs[k];
    }
    forall a | StartsAt(r, a) ensures StartsAt(bs, a) || a == at {
      var k: nat :| k < |r| && r[k].at == a;
      assert k != i + 1 ==> r[k] == bs[if k <= i then k else k - 1];
    }
    assert r[i + 1] == Block(at, false);
  }

  lemma StartsDrop(bs: seq<Block>, i: nat)
    requires Tiled(bs, ITEM) && i < |bs|
    ensures Starts(Drop(bs, i)) == Starts(bs) - iset{bs[i].at}
  {
    hide Tiled, Drop;
    forall a | StartsAt(bs, a) && a != bs[i].at ensures StartsAt(Drop(bs, i), a) {
      var k: nat :| k < |bs| && bs[k].at == a;
      DropIndex(bs, i, k);
    }
    forall a | StartsAt(Drop(bs, i), a) ensures StartsAt(bs, a) && a != bs[i].at {
      DropIndex(bs, i, 0);
      var k: nat :| k < |Drop(bs, i)| && Drop(bs, i)[k].at == a;
      DropIndex(bs, i, k);
      StartsDiffer(bs, if k < i then k else k + 1, i);
    }
  }

  /** A new item between two neighbouring blocks overlaps no other. */
  lemma NewItemApart(bs: seq<Block>, i: nat, x: nat)
    requires Tiled(bs, ITEM) && i + 1 < |bs| && bs[i].at + ITEM <= x && x + ITEM <= bs[i + 1].at
    ensures forall a | a in Starts(bs) :: a + ITEM <= x || x + ITEM <= a
  {
    forall a | a in Starts(bs) ensures a + ITEM <= x || x + ITEM <= a {
      var k: nat :| k < |bs| && bs[k].at == a;
      if k < i { Apart(bs, ITEM, k, i); }
      if k > i + 1 { Apart(bs, ITEM, i + 1, k); }
    }
  }

  /** No item lies in the payload of a block handed out. */
  lemma ItemApart(bs: seq<Block>, y: Extent, h: int)
    requires Tiled(bs, ITEM) && y in Live(bs) && h in Starts(bs)
    ensures h <= y.start || y.end <= h
  {
    var i: nat :| HandedOut(bs, i, y);
    var k: nat :| k < |bs| && bs[k].at == h;
    if k < i { Apart(bs, ITEM, k, i); }
    if k > i + 1 { Apart(bs, ITEM, i + 1, k); }
  }

  lemma PayloadOutside(bs: seq<Block>, y: Extent, a: int)
    requires Tiled(bs, ITEM) && y in Live(bs) && y.start + ITEM <= a < y.end
    ensures !InItem(Starts(bs), a)
  {
    hide Tiled, Live, Starts;
    forall h | h in Starts(bs) ensures !(h <= a < h + ITEM) { ItemApart(bs, y, h); }
  }

  lemma ItemsBuild(s: seq<int>, t: seq<int>, items: iset<int>, next: Links, prev: Links, used: map<int, bool>,
                   nextFree: Links, prevFree: Links, x: nat, n: int, p: int, f: int, g: int)
    requires ItemsAt(s, items, next, prev, used, nextFree, prevFree)
    requires |s| == |t| && x + ITEM <= |t| && forall a | a in items :: a + ITEM <= x || x + ITEM <= a
    requires forall a | 0 <= a < |s| && !(x <= a < x + ITEM) :: t[a] == s[a]
    requires t[x] == MAGIC && t[x + POOL_PTR] == HEAP && t[x + NEXT] == n && t[x + PREV] == p
    requires t[x + NEXT_FREE] == f && t[x + PREV_FREE] == g
    ensures ItemsAt(t, items + iset{x}, next[x := n], prev[x := p], used[x := false], nextFree[x := f],
      prevFree[x := g])
  {
    var n1, p1, u1, f1, g1 := next[x := n], prev[x := p], used[x := false], nextFree[x := f], prevFree[x := g];
    forall a | a in items ensures ItemAt(t, a, n1, p1, u1, f1, g1) {
      assert ItemAt(s, a, next, prev, used, nextFree, prevFree);
    }
    assert ItemAt(t, x, n1, p1, u1, f1, g1);
  }

  lemma OnlyItemsBuild(s0: seq<int>, s: seq<int>, t: seq<int>, zone: iset<int>, x: nat)
    requires OnlyItems(s0, s, zone) && |s| == |t|
    requires forall a | 0 <= a < |s| && !(x <= a < x + ITEM) :: t[a] == s[a]
    ensures OnlyItems(s0, t, zone + iset{x})
  {
    forall a | 0 <= a < |s0| && !InItem(zone + iset{x}, a) ensures t[a] == s0[a] {
      InMore(zone, x, a);
      assert x in zone + iset{x};
    }
  }

  lemma InMore(zone: iset<int>, x: int, a: int)
    ensures InItem(zone, a) ==> InItem(zone + iset{x}, a)
  {
    forall h | h in zone && h <= a < h + ITEM ensures InItem(zone + iset{x}, a) {
      assert h in zone + iset{x};
    }
  }

  lemma InEither(i: iset<int>, j: iset<int>, zone: iset<int>, a: int)
    requires zone <= i + j && !InItem(i, a) && !InItem(j, a)
    ensures !InItem(zone, a)
  {}

  /** What an operation writes into items never reaches the payload of a block that is
      handed out before and after it. */
  lemma ItemsMissPayload(s: seq<int>, t: seq<int>, zone: iset<int>, b0: seq<Block>, b2: seq<Block>, x: Extent,
                         y: Extent, n: nat)
    requires OnlyItems(s, t, zone) && zone <= Starts(b0) + Starts(b2)
    requires Tiled(b0, ITEM) && Tiled(b2, ITEM) && b0[|b0| - 1].at <= |s|
    requires x in Live(b0) && y in Live(b2) && x.start == y.start
    requires x.start + ITEM + n <= x.end && x.start + ITEM + n <= y.end
    ensures SamePayload(s, x.start + ITEM, t, x.start + ITEM, n)
  {
    hide Tiled, Live, Starts;
    LiveBounds(b0, ITEM, x);
    forall a | x.start + ITEM <= a < x.start + ITEM + n ensures !InItem(zone, a) {
      hide InItem;
      PayloadOutside(b0, x, a);
      PayloadOutside(b2, y, a);
      InEither(Starts(b0), Starts(b2), zone, a);
    }
  }

  /** Every block handed out before and after an operation, except `x`, keeps its bytes. */
  lemma OthersMissed(s: seq<int>, t: seq<int>, zone: iset<int>, b0: seq<Block>, b2: seq<Block>, x: Extent, pool: nat)
    requires Laid(b0, pool) && Laid(b2, pool) && |s| == pool
    requires OnlyItems(s, t, zone) && zone <= Starts(b0) + Starts(b2)
    requires Live(b0) - iset{x} <= Live(b2)
    ensures OthersKept(s, b0, t, b2, x, ITEM)
  {
    hide Tiled, Live, Starts, OnlyItems, SamePayload;
    forall y | y in Live(b0) && y != x
      ensures y in Live(b2) && SamePayload(s, y.start + ITEM, t, y.start + ITEM, y.end - y.start - ITEM)
    {
      LiveBounds(b0, ITEM, y);
      ItemsMissPayload(s, t, zone, b0, b2, y, y, y.end - y.start - ITEM);
    }
  }

  /** What a caller writes into its block leaves every item as it is. */
  lemma PayloadMissesItems(s: seq<int>, t: seq<int>, bs: seq<Block>, y: Extent, n: nat, next: Links, prev: Links,
                           used: map<int, bool>, nextFree: Links, prevFree: Links)
    requires Tiled(bs, ITEM) && y in Live(bs) && y.start + ITEM + n <= y.end && |t| == |s|
    requires ItemsAt(s, Starts(bs), next, prev, used, nextFree, prevFree)
    requires forall a | 0 <= a < |s| && !(y.start + ITEM <= a < y.start + ITEM + n) :: t[a] == s[a]
    ensures ItemsAt(t, Starts(bs), next, prev, used, nextFree, prevFree)
  {
    hide Tiled, Live, Starts;
    forall h | h in Starts(bs) ensures ItemAt(t, h, next, prev, used, nextFree, prevFree) {
      ItemApart(bs, y, h);
      assert ItemAt(s, h, next, prev, used, nextFree, prevFree);
    }
  }

  lemma FreeMembers(nextFree: Links, prevFree: Links, fr: seq<int>, fs: iset<int>, j: nat)
    requires Frees(nextFree, prevFree, fr, fs) && j < |fr|
    ensures fr[j] in fs
  {
    var x := fr[j];
    assert x in fr;
  }

  lemma FreeListed(nextFree: Links, prevFree: Links, fr: seq<int>, bs: seq<Block>, m: nat)
    requires Frees(nextFree, prevFree, fr, FreeSet(bs)) && m < |bs| && !bs[m].used
    ensures bs[m].at in fr
  {
    assert bs[m].at in FreeSet(bs);
  }

  lemma InPool(bs: seq<Block>, i: nat, pool: nat)
    requires Laid(bs, pool) && i + 1 < |bs|
    ensures bs[i + 1].at + ITEM <= pool
  {}

  // ----- requests

  lemma NeedTwice(size: u32)
    ensures Need(size) < WORD && Need(Need(size)) == Need(size)
  {}

  /** The request, in bytes: rounded up, and never less than the minimum. */
  function Need(size: u32): nat {
    if Align(size) < MINIALLOC then MINIALLOC else Align(size)
  }

  /** The least multiple of four that holds the bytes and is not below the minimum; for a size that wraps, the
      minimum. */
  lemma NeedIsLeast(size: u32, n: nat)
    ensures n == Need(size) <==>
      if size <= WORD - ALIGN
      then n >= MINIALLOC && n >= size && n % ALIGN == 0 && (n > MINIALLOC ==> n < size + ALIGN)
      else n == MINIALLOC
  {
    AlignCovers(size);
  }

  ghost predicate Fits(bs: seq<Block>, i: nat, need: nat) {
    i + 1 < |bs| && !bs[i].used && bs[i].at + ITEM + need <= bs[i + 1].at
  }

  predicate Splits(bs: seq<Block>, i: nat, need: nat)
    requires i + 1 < |bs|
  {
    bs[i].at + ITEM + need + ITEM + MINIALLOC <= bs[i + 1].at
  }

  function Taken(bs: seq<Block>, i: nat, need: nat): seq<Block>
    requires i + 1 < |bs|
  {
    Take(bs, i, Splits(bs, i, need), bs[i].at + ITEM + need)
  }

  /** Block by block: the tail is split off if and only if an item and the minimal payload fit into it, so
      nobody gets more than that many bytes too many. */
  lemma TakenBlocks(bs: seq<Block>, i: nat, need: nat)
    requires i + 1 < |bs| && bs[i].at + ITEM + need <= bs[i + 1].at
    ensures var p := bs[i].at + ITEM; var r := Taken(bs, i, need);
      && r == bs[..i] + [Block(bs[i].at, true)]
              + (if bs[i + 1].at - p >= need + ITEM + MINIALLOC then [Block(p + need, false)] else []) + bs[i + 1..]
      && i + 1 < |r|
      && r[i + 1].at == (if bs[i + 1].at - p >= need + ITEM + MINIALLOC then p + need else bs[i + 1].at)
      && r[i + 1].at - p < need + ITEM + MINIALLOC
  {}

  function Grant(bs: seq<Block>, i: nat, need: nat): Extent
    requires i + 1 < |bs|
  {
    Extent(bs[i].at, if Splits(bs, i, need) then bs[i].at + ITEM + need else bs[i + 1].at)
  }

  lemma FreeIndex(bs: seq<Block>, a: int) returns (i: nat)
    requires FreeAt(bs, a) && |bs| >= 1 && bs[|bs| - 1].used
    ensures i < |bs| - 1 && bs[i].at == a && !bs[i].used
  {
    i :| i < |bs| && bs[i].at == a && !bs[i].used;
  }

  /** The block is the first one with room that a scan of the free ring meets. */
  ghost predicate FirstInRing(fr: seq<int>, bs: seq<Block>, i: nat, need: nat) {
    exists j: nat :: ReachedAt(fr, bs, i, need, j)
  }

  ghost predicate ReachedAt(fr: seq<int>, bs: seq<Block>, i: nat, need: nat, j: nat) {
    && Fits(bs, i, need) && j < |fr| && fr[j] == bs[i].at
    && forall k: nat, m: nat | Fits(bs, m, need) && k < j :: fr[k] != bs[m].at
  }

  lemma TakenLaid(bs: seq<Block>, i: nat, need: nat, pool: nat)
    requires Laid(bs, pool) && Coalesced(bs) && Fits(bs, i, need)
    ensures var r := Taken(bs, i, need);
      && Laid(r, pool) && Coalesced(r) && i + 1 < |r| && r[i].used && ExtentOf(r, i) == Grant(bs, i, need)
      && Live(r) == Live(bs) + iset{Grant(bs, i, need)} && Grant(bs, i, need) !in Live(bs)
  {
    hide Coalesced, Live, Tiled, Taken;
    var q := bs[i].at + ITEM + need;
    TakenShape(bs, i, need);
    TakeKeeps(bs, i, Splits(bs, i, need), q, ITEM);
    FreeIsNotLive(bs, ITEM, i, Grant(bs, i, need));
  }

  lemma TakenShape(bs: seq<Block>, i: nat, need: nat)
    requires i + 1 < |bs|
    ensures var r := Taken(bs, i, need);
      && r == Take(bs, i, Splits(bs, i, need), bs[i].at + ITEM + need)
      && i + 1 < |r| && r[i] == Block(bs[i].at, true) && r[i + 1].at == Grant(bs, i, need).end
      && r[|r| - 1].at == bs[|bs| - 1].at
  {}

  lemma CutSum(bs: seq<Block>, i: nat, q: nat)
    requires i + 1 < |bs| && !bs[i].used
    ensures Sum(Mark(Insert(bs, i, q), i, true), false, ITEM) == Sum(bs, false, ITEM) - (q - bs[i].at)
  {
    hide Sum;
    var m := Insert(bs, i, q);
    SumInsert(bs, i, q, false, ITEM);
    assert m[i] == bs[i] && m[i + 1] == Block(q, false);
    SumMark(m, i, true, false, ITEM);
  }

  /** The unused blocks during a split: out goes the block taken, in comes its tail. */
  lemma CutFree(bs: seq<Block>, i: nat, q: nat)
    requires Tiled(bs, ITEM) && i < |bs| - 1 && !bs[i].used && bs[i].at + ITEM <= q && q + ITEM <= bs[i + 1].at
    ensures FreeSet(Mark(Insert(bs, i, q), i, true)) == FreeSet(bs) - iset{bs[i].at} + iset{q}
    ensures q !in FreeSet(bs)
  {
    hide Tiled, FreeSet;
    InsertTiled(bs, i, q, ITEM);
    InsertAts(bs, i, q, i);
    FreeInsert(bs, i, q);
    FreeMark(Insert(bs, i, q), i, true);
    FreshStart(bs, i, q);
  }

  lemma FreshStart(bs: seq<Block>, i: nat, q: nat)
    requires Tiled(bs, ITEM) && i < |bs| - 1 && bs[i].at < q < bs[i + 1].at
    ensures q !in FreeSet(bs)
  {
    forall k: nat | k < |bs| ensures bs[k].at != q {
      if k < i { assert bs[k].at + ITEM <= bs[i].at; }
      if k > i + 1 { assert bs[i + 1].at + ITEM <= bs[k].at; }
    }
  }

  /** What dropping free block `i`, behind a free one, does to layout, sum and free set. */
  lemma DropFacts(bs: seq<Block>, i: nat, pool: nat)
    requires Laid(bs, pool) && 0 < i < |bs| - 1 && !bs[i - 1].used && !bs[i].used
    ensures var r := Drop(bs, i);
      && Laid(r, pool) && i - 1 < |r| - 1 && r[i - 1] == bs[i - 1]
      && FreeSet(r) == FreeSet(bs) - iset{bs[i].at} && bs[i].at in FreeSet(bs)
      && Sum(r, false, ITEM) == Sum(bs, false, ITEM) + ITEM
  {
    hide FreeSet, Sum;
    DropTiled(bs, i, ITEM);
    FreeDrop(bs, i);
    FreeHere(bs, i);
    SumDrop(bs, i, false, ITEM);
  }

  lemma ReleaseFacts(bs: seq<Block>, i: nat, pool: nat)
    requires Laid(bs, pool) && Coalesced(bs) && i < |bs| - 1 && bs[i].used
    ensures Laid(Mark(bs, i, false), pool)
    ensures FreeSet(Mark(bs, i, false)) == FreeSet(bs) + iset{bs[i].at} && bs[i].at !in FreeSet(bs)
    ensures Sum(Mark(bs, i, false), false, ITEM) == Sum(bs, false, ITEM) + bs[i + 1].at - bs[i].at - ITEM
    ensures Coalesced(Release(bs, i)) && Live(Release(bs, i)) == Live(bs) - iset{ExtentOf(bs, i)}
  {
    hide FreeSet, Sum, Live, Coalesced, Release;
    MarkTiled(bs, i, false, ITEM);
    FreeMark(bs, i, false);
    FreeHere(bs, i);
    SumMark(bs, i, false, false, ITEM);
    ReleaseKeeps(bs, i, ITEM);
  }

  lemma NextAfter(bs: seq<Block>, i: nat)
    requires Tiled(bs, ITEM) && i < |bs| - 1
    ensures bs[i].at + ITEM <= bs[i + 1].at
  {}

  lemma MarkAt(bs: seq<Block>, i: nat, u: bool)
    requires i < |bs|
    ensures |Mark(bs, i, u)| == |bs| && Mark(bs, i, u)[i] == Block(bs[i].at, u)
  {}

  // ----- the order of the free ring

  /** The free ring after block `i` has been handed out: its tail, if there is one, is in front. */
  function RingAfterAlloc(fr: seq<int>, bs: seq<Block>, i: nat, need: nat): seq<int>
    requires i + 1 < |bs|
  {
    if Splits(bs, i, need) then [bs[i].at + ITEM + need] + Del(fr, bs[i].at) else Del(fr, bs[i].at)
  }

  /** An unused block at `x` behind block `i` leaves the ring. */
  function TakenIn(fr: seq<int>, bs: seq<Block>, i: nat): seq<int>
    requires i + 1 < |bs|
  {
    if !bs[i + 1].used then Del(fr, bs[i + 1].at) else fr
  }

  /** The free ring after block `i` has been freed: it is in front, unless it was joined to the block
      before it, which keeps its place. */
  function RingAfterFree(fr: seq<int>, bs: seq<Block>, i: nat): seq<int>
    requires i + 1 < |bs|
  {
    if i > 0 && !bs[i - 1].used then TakenIn(fr, bs, i) else [bs[i].at as int] + TakenIn(fr, bs, i)
  }

  /** The free ring after block `i` has been resized where it is. */
  ghost function RingReshaped(fr: seq<int>, bs: seq<Block>, i: nat, size: u32): seq<int>
    requires i + 1 < |bs|
  {
    if Grows(bs, i, size) || Cuts(bs, i, size) then [bs[i].at + ITEM + size] + TakenIn(fr, bs, i) else fr
  }

  /** The block at `p` was moved into block `j`: layout and free ring are those after handing out block
      `j` and then freeing the old one. */
  ghost predicate MovedInto(bs: seq<Block>, fr: seq<int>, j: nat, need: nat, p: int, b2: seq<Block>, fr2: seq<int>)
    requires j + 1 < |bs|
  {
    exists k: nat :: MovedFrom(Taken(bs, j, need), RingAfterAlloc(fr, bs, j, need), p, b2, fr2, k)
  }

  ghost predicate MovedFrom(b1: seq<Block>, fr1: seq<int>, p: int, b2: seq<Block>, fr2: seq<int>, k: nat) {
    k + 1 < |b1| && b1[k].at + ITEM == p && b2 == Release(b1, k) && fr2 == RingAfterFree(fr1, b1, k)
  }

  // ----- resizing

  /** The end of block `i` moved to `at`, into or out of the unused block behind it. */
  function Stretch(bs: seq<Block>, i: nat, at: nat): seq<Block>
    requires i + 1 < |bs|
  {
    bs[i + 1 := Block(at, false)]
  }

  lemma StretchFacts(bs: seq<Block>, i: nat, at: nat, pool: nat)
    requires Laid(bs, pool) && Coalesced(bs) && i + 2 < |bs| && bs[i].used && !bs[i + 1].used
    requires bs[i + 1].at < at && at + ITEM <= bs[i + 2].at
    ensures var r := Stretch(bs, i, at);
      && Laid(r, pool) && Coalesced(r)
      && Live(r) == Live(bs) - iset{ExtentOf(bs, i)} + iset{Extent(bs[i].at, at)}
  {
    StretchLaid(bs, i, at, pool);
    hide *;
    StretchLive(bs, i, at);
  }

  lemma StretchLive(bs: seq<Block>, i: nat, at: nat)
    requires Tiled(bs, ITEM) && i + 2 < |bs| && bs[i].used && !bs[i + 1].used
    ensures Live(Stretch(bs, i, at)) == Live(bs) - iset{ExtentOf(bs, i)} + iset{Extent(bs[i].at, at)}
  {
    hide Tiled;
    var r := Stretch(bs, i, at);
    var goal := Live(bs) - iset{ExtentOf(bs, i)} + iset{Extent(bs[i].at, at)};
    assert HandedOut(r, i, Extent(bs[i].at, at));
    forall x | x in Live(r) ensures x in goal {
      var k: nat :| HandedOut(r, k, x);
      if k != i {
        assert HandedOut(bs, k, x);
        ExtentsDiffer(bs, ITEM, i, k);
      }
    }
    forall x | x in goal ensures x in Live(r) {
      if x != Extent(bs[i].at, at) {
        var k: nat :| HandedOut(bs, k, x);
        assert HandedOut(r, k, x);
      }
    }
  }

  lemma StretchLaid(bs: seq<Block>, i: nat, at: nat, pool: nat)
    requires Laid(bs, pool) && Coalesced(bs) && i + 2 < |bs| && bs[i].used && !bs[i + 1].used
    requires bs[i + 1].at < at && at + ITEM <= bs[i + 2].at
    ensures Laid(Stretch(bs, i, at), pool) && Coalesced(Stretch(bs, i, at)) && Tiled(bs, ITEM)
  {
    var r := Stretch(bs, i, at);
    forall a, b | 0 <= a < b < |r| ensures r[a].at + ITEM <= r[b].at {
      if a == i + 1 && b > i + 2 { assert bs[i + 2].at + ITEM <= bs[b].at; }
    }
  }

  /** Growing in place drops the unused block behind and inserts it again further up. */
  lemma StretchSteps(bs: seq<Block>, i: nat, at: nat)
    requires Tiled(bs, ITEM) && i + 2 < |bs| && bs[i].used && !bs[i + 1].used
    requires bs[i + 1].at < at && at + ITEM <= bs[i + 2].at
    ensures var d := Drop(bs, i + 1);
      && Tiled(d, ITEM) && i < |d| - 1 && d[i] == bs[i] && d[i + 1] == bs[i + 2]
      && Insert(d, i, at) == Stretch(bs, i, at)
      && bs[i + 1].at in FreeSet(bs) && at !in FreeSet(bs) - iset{bs[i + 1].at}
      && FreeSet(Stretch(bs, i, at)) == FreeSet(bs) - iset{bs[i + 1].at} + iset{at}
      && bs[i].at < at
  {
    hide FreeSet;
    var d := Drop(bs, i + 1);
    assert Insert(d, i, at) == Stretch(bs, i, at);
    DropTiled(bs, i + 1, ITEM);
    FreeDrop(bs, i + 1);
    FreeInsert(d, i, at);
    FreeHere(bs, i + 1);
    NextAfter(bs, i);
    FreshStart(bs, i + 1, at);
  }

  lemma StretchSum(bs: seq<Block>, i: nat, at: nat)
    requires i + 2 < |bs| && bs[i].used && !bs[i + 1].used
    ensures Sum(Stretch(bs, i, at), false, ITEM) == Sum(bs, false, ITEM) - (at - bs[i + 1].at)
  {
    hide Sum;
    var d := Drop(bs, i + 1);
    assert Insert(d, i, at) == Stretch(bs, i, at);
    SumDrop(bs, i + 1, false, ITEM);
    SumInsert(d, i, at, false, ITEM);
  }

  lemma ShrinkFacts(bs: seq<Block>, i: nat, at: nat, pool: nat)
    requires Laid(bs, pool) && Coalesced(bs) && i < |bs| - 1 && bs[i].used
    requires bs[i].at + ITEM <= at && at + ITEM <= bs[i + 1].at
    ensures var m := Insert(bs, i, at);
      && Laid(m, pool) && i + 1 < |m| - 1 && m[i + 1] == Block(at, false)
      && Shrink(bs, i, at) == MergeNext(m, i + 1)
      && FreeSet(m) == FreeSet(bs) + iset{at} && at !in FreeSet(bs)
      && Sum(m, false, ITEM) == Sum(bs, false, ITEM) + bs[i + 1].at - at - ITEM
    ensures Coalesced(Shrink(bs, i, at))
    ensures Live(Shrink(bs, i, at)) == Live(bs) - iset{ExtentOf(bs, i)} + iset{Extent(bs[i].at, at)}
  {
    hide FreeSet, Sum, Live, Coalesced, Tiled, Insert, Shrink;
    NextAfter(bs, i);
    LastUsed(bs);
    InsertShape(bs, i, at);
    ShrinkForward(bs, i, at);
    InsertTiled(bs, i, at, ITEM);
    FreeInsert(bs, i, at);
    FreshStart(bs, i, at);
    SumInsert(bs, i, at, false, ITEM);
    ShrinkKeeps(bs, i, at, ITEM);
  }

  /** A cut step by step: the tail becomes a block, which joins an unused one behind it. */
  lemma CutOutcome(bs: seq<Block>, i: nat, at: nat, pool: nat)
    requires Laid(bs, pool) && Coalesced(bs) && i < |bs| - 1 && bs[i].used
    requires bs[i].at + ITEM <= at && at + ITEM <= bs[i + 1].at
    ensures Tiled(bs, ITEM) && bs[i].at < at < bs[i + 1].at
    ensures var m, r, k := Insert(bs, i, at), Shrink(bs, i, at), i + 1;
      && k + 1 < |m| && m[k] == Block(at, false) && at + ITEM <= m[k + 1].at && Tiled(m, ITEM)
      && Laid(r, pool) && Coalesced(r) && k + 1 < |r| && at !in FreeSet(bs)
      && Live(r) == Live(bs) - iset{ExtentOf(bs, i)} + iset{Extent(bs[i].at, at)}
      && (m[k + 1].used ==>
            && r == m && FreeSet(r) == FreeSet(bs) + iset{at}
            && Sum(r, false, ITEM) == Sum(bs, false, ITEM) + (m[k + 1].at - at - ITEM))
      && (!m[k + 1].used ==>
            && k + 2 < |m| && r == Drop(m, k + 1) && r[k] == m[k] && r[k + 1] == m[k + 2]
            && m[k + 1].at in FreeSet(bs) && FreeSet(r) == FreeSet(bs) - iset{m[k + 1].at} + iset{at}
            && Sum(r, false, ITEM)
               == Sum(bs, false, ITEM) - (m[k + 2].at - m[k + 1].at - ITEM) + (m[k + 2].at - at - ITEM))
  {
    hide Sum, FreeSet, Live, Coalesced, Insert, Shrink;
    var m, k := Insert(bs, i, at), i + 1;
    ShrinkFacts(bs, i, at, pool);
    InsertShape(bs, i, at);
    NextAfter(bs, i);
    LastUsed(bs);
    if !m[k + 1].used {
      DropFacts(m, k + 1, pool);
    }
    NextAfter(m, k);
  }

  function SizeOf(bs: seq<Block>, i: nat): int
    requires i + 1 < |bs|
  {
    bs[i + 1].at - bs[i].at - ITEM
  }

  /** While the minimum added does not wrap around, the guard is honest. */
  lemma GuardHonest(bs: seq<Block>, i: nat, size: u32)
    requires i + 1 < |bs| && Grows(bs, i, size) && !Overruns(bs, i, size)
    ensures size + MINIALLOC < SizeOf(bs, i) + SizeOf(bs, i + 1)
  {}

  lemma NotElsewhere(bs: seq<Block>, x: Extent, y: Extent)
    requires Tiled(bs, ITEM) && x in Live(bs) && x.start == y.start
    ensures y !in Live(bs) - iset{x}
  {
    if y in Live(bs) {
      var j: nat :| HandedOut(bs, j, y);
      LiveFound(bs, x);
    }
  }

  lemma StretchedStart(bs: seq<Block>, i: nat, at: nat)
    requires i + 1 < |bs|
    ensures at in Starts(Stretch(bs, i, at))
  {
    StartHere(Stretch(bs, i, at), i + 1);
  }

  lemma CutFacts(bs: seq<Block>, i: nat, at: nat, pool: nat)
    requires Laid(bs, pool) && Coalesced(bs) && i < |bs| - 1 && bs[i].used
    requires bs[i].at + ITEM <= at && at + ITEM <= bs[i + 1].at
    ensures var r := Shrink(bs, i, at);
      && Laid(r, pool) && Coalesced(r) && at in Starts(r)
      && Live(r) == Live(bs) - iset{ExtentOf(bs, i)} + iset{Extent(bs[i].at, at)}
      && Sum(r, false, ITEM) >= Sum(bs, false, ITEM)
  {
    hide Sum, FreeSet, Live, Coalesced, Insert, Shrink, Starts;
    CutOutcome(bs, i, at, pool);
    StartHere(Shrink(bs, i, at), i + 1);
  }

  /** Whether the block behind leaves room to grow in place, as the code computes it. */
  predicate GrowGuard(oldSize: int, nextSize: int, size: u32) {
    nextSize + oldSize > (size + MINIALLOC) % WORD
  }

  /** The guard lets a request through that does not fit exactly when adding the
      minimum to the request wraps around. */
  lemma GrowGuardExact(oldSize: nat, nextSize: nat, size: u32)
    requires oldSize + nextSize + MINIALLOC < WORD
    ensures GrowGuard(oldSize, nextSize, size) && !(size + MINIALLOC < oldSize + nextSize) <==>
      size + MINIALLOC >= WORD && oldSize + nextSize > size + MINIALLOC - WORD
  {}

  /** Block `i` is to grow, and the guard lets it into an unused block behind it. */
  ghost predicate Grows(bs: seq<Block>, i: nat, size: u32)
    requires i + 1 < |bs|
  {
    SizeOf(bs, i) < size && i + 2 < |bs| && !bs[i + 1].used && GrowGuard(SizeOf(bs, i), SizeOf(bs, i + 1), size)
  }

  /** The same, though the request does not fit: adding the minimum has wrapped around. */
  ghost predicate Overruns(bs: seq<Block>, i: nat, size: u32)
    requires i + 1 < |bs|
  {
    && SizeOf(bs, i) < size && i + 2 < |bs| && !bs[i + 1].used
    && size + MINIALLOC >= WORD && SizeOf(bs, i) + SizeOf(bs, i + 1) > size + MINIALLOC - WORD
  }

  /** The code then builds the new item at an address that has wrapped, in the middle of that of the
      block itself. */
  lemma OverrunsItself(bs: seq<Block>, i: nat, size: u32, pool: nat)
    requires Laid(bs, pool) && pool < WORD && i + 1 < |bs| && Overruns(bs, i, size)
    ensures bs[i].at + MINIALLOC <= (bs[i].at + ITEM + size) % WORD < bs[i].at + ITEM
  {
    InPool(bs, i, pool);
    NextAfter(bs, i);
    Wraps(bs[i].at + ITEM + size - WORD);
  }

  lemma Wraps(a: nat)
    requires a < WORD
    ensures (a + WORD) % WORD == a
  {}

  /** Block `i` is to grow, and cannot where it is. */
  ghost predicate Moves(bs: seq<Block>, i: nat, size: u32)
    requires i + 1 < |bs|
  {
    SizeOf(bs, i) < size && !Grows(bs, i, size)
  }

  /** Block `i` is cut in place: there is room behind it for a block of its own. */
  ghost predicate Cuts(bs: seq<Block>, i: nat, size: u32)
    requires i + 1 < |bs|
  {
    size + ITEM + MINIALLOC < SizeOf(bs, i)
  }

  /** The layout after block `i` has been resized where it is. */
  ghost function Reshaped(bs: seq<Block>, i: nat, size: u32): seq<Block>
    requires i + 1 < |bs|
  {
    if Grows(bs, i, size) then Stretch(bs, i, bs[i].at + ITEM + size)
    else if Cuts(bs, i, size) then Shrink(bs, i, bs[i].at + ITEM + size)
    else bs
  }

  /** In numbers: the block stays where it is if it need not grow, or if it and the unused one behind it have
      more payload together than is asked for and the minimum. */
  lemma StaysExactly(bs: seq<Block>, i: nat, size: u32)
    requires i + 1 < |bs| && !Overruns(bs, i, size)
    ensures !Moves(bs, i, size) <==>
      var len := bs[i + 1].at - bs[i].at - ITEM;
      || size <= len
      || (i + 2 < |bs| && !bs[i + 1].used && len + (bs[i + 2].at - bs[i + 1].at - ITEM) > size + MINIALLOC)
  {
    if Grows(bs, i, size) { GuardHonest(bs, i, size); }
  }

  /** Block by block: one that stays is as long as asked if it has to grow, or if it leaves more than an item and
      the minimum; an unused block behind it then takes in the rest. Otherwise nothing changes. */
  lemma ReshapedBlocks(bs: seq<Block>, i: nat, size: u32)
    requires Tiled(bs, ITEM) && i + 1 < |bs| && bs[i].used && !Moves(bs, i, size)
    ensures var len := bs[i + 1].at - bs[i].at - ITEM; var at := bs[i].at + ITEM + size;
      Reshaped(bs, i, size)
      == if len < size || size + ITEM + MINIALLOC < len
         then bs[..i + 1] + [Block(at, false)] + (if bs[i + 1].used then bs[i + 1..] else bs[i + 2..])
         else bs
  {
    hide Tiling.Shrink;
    ShrinkBlocks(bs, i, bs[i].at + ITEM + size);
  }

  /** A block that is freed behind a used one is the next to be handed out to anybody it is large enough for. */
  lemma FreedIsNext(bs: seq<Block>, fr: seq<int>, i: nat, need: nat)
    requires Tiled(bs, ITEM) && i + 1 < |bs| && bs[i].used && (i > 0 ==> bs[i - 1].used)
    requires Fits(Release(bs, i), i, need)
    ensures FirstInRing(RingAfterFree(fr, bs, i), Release(bs, i), i, need)
  {
    var m := MergeNext(Mark(bs, i, false), i);
    assert Release(bs, i)[i].at == bs[i].at;
    assert ReachedAt(RingAfterFree(fr, bs, i), Release(bs, i), i, need, 0);
  }

  /** The rest of a block that was split, handed out or resized, comes first on the free ring, and all others keep
      their order. */
  lemma RestIsFirst(bs: seq<Block>, fr: seq<int>, i: nat, need: nat, x: int, y: int)
    requires i + 1 < |bs| && Distinct(fr) && Ahead(fr, x, y)
    requires bs[i + 1].at - bs[i].at - ITEM >= need + ITEM + MINIALLOC
    ensures var r := RingAfterAlloc(fr, bs, i, need);
      && r != [] && r[0] == bs[i].at + ITEM + need
      && (x != bs[i].at && y != bs[i].at ==> Ahead(r, x, y))
  {
    hide Distinct, Ahead, Del;
    DelOrder(fr, bs[i].at, x, y);
    ConsAhead(bs[i].at + ITEM + need, Del(fr, bs[i].at), x, y);
  }

  /** No new block is handed out for the request. */
  ghost predicate Refused(bs: seq<Block>, available: int, need: nat) {
    need >= available || forall k: nat :: !Fits(bs, k, need)
  }

  /** What the counters call used: all but the free bytes, items included. */
  function InUse(bs: seq<Block>, pool: nat): int {
    pool - Sum(bs, false, ITEM)
  }

  /** The bytes granted hold the bytes asked for, except for the three sizes that wrap. */
  lemma NeedCovers(bytes: u32, pool: nat)
    requires pool < WORD
    ensures Need(bytes) >= MINIALLOC && (Need(bytes) >= bytes <==> bytes <= WORD - ALIGN)
    ensures bytes > WORD - ALIGN ==> Need(bytes) == MINIALLOC && pool - 2 * ITEM < bytes
  {
    AlignCovers(bytes);
  }

  /** A live extent is found, and only it, by its start. */
  lemma LiveFound(bs: seq<Block>, x: Extent)
    requires Tiled(bs, ITEM) && x in Live(bs)
    ensures exists i: nat :: i < |bs| - 1 && bs[i].used && bs[i].at + ITEM == x.start + ITEM
    ensures forall i: nat | i < |bs| - 1 && bs[i].at == x.start :: ExtentOf(bs, i) == x
  {
    var j: nat :| HandedOut(bs, j, x);
    hide Tiled;
    forall i: nat | i < |bs| - 1 && bs[i].at == x.start ensures i == j { StartsDiffer(bs, i, j); }
    assert j < |bs| - 1 && bs[j].used && bs[j].at == x.start;
  }

  /** Free space, used space and one item per block, the end marker included, make up the pool. */
  lemma PoolIsAccounted(bs: seq<Block>, pool: nat)
    requires Laid(bs, pool)
    ensures Sum(bs, false, ITEM) + Sum(bs, true, ITEM) + ITEM * |bs| == pool
  {
    SumsFill(bs, ITEM);
  }

  /** Freeing a block right after its allocation restores the partition. */
  lemma FreeUndoesAlloc(bs: seq<Block>, i: nat, need: nat)
    requires Coalesced(bs) && Fits(bs, i, need)
    ensures Release(Taken(bs, i, need), i) == bs
  {
    ReleaseUndoesTake(bs, i, Splits(bs, i, need), bs[i].at + ITEM + need);
  }

  lemma LastUsed(bs: seq<Block>)
    requires Tiled(bs, ITEM)
    ensures |bs| >= 2 && bs[|bs| - 1].used
  {}

  lemma SumGrows(bs: seq<Block>, i: nat, r: seq<Block>)
    requires i < |bs| - 1 && bs[i].used && Tiled(bs, ITEM) && r == Release(bs, i)
    ensures Sum(r, false, ITEM) >= Sum(bs, false, ITEM)
  {
    hide Sum;
    SumMark(bs, i, false, false, ITEM);
    SumPlug(Mark(bs, i, false), i, false, ITEM);
  }

  lemma SameThen(s: seq<int>, p: int, t: seq<int>, q: int, u: seq<int>, r: int, n: int, m: int, k: int)
    requires SamePayload(s, p, t, q, n) && SamePayload(t, q, u, r, m) && k <= n && k <= m
    ensures SamePayload(s, p, u, r, k)
  {
    if k > 0 {
      forall a | r <= a < r + k ensures u[a] == s[a - r + p] {
        var b := a - r + q;
        assert u[a] == t[b] && t[b] == s[b - q + p];
      }
    }
  }

  /** A block is copied to a new one, before which and after which only items were written:
      its bytes are there, and all other blocks are as before. */
  lemma KeptByMove(s0: seq<int>, b0: seq<Block>, s1: seq<int>, b1: seq<Block>, s2: seq<int>, s3: seq<int>,
                   b3: seq<Block>, x: Extent, y: Extent, n: nat, pool: nat)
    requires Laid(b1, pool) && |s1| == |s2| == pool && x in Live(b0) && y in Live(b1) && y !in Live(b0)
    requires OthersKept(s0, b0, s1, b1, y, ITEM) && OthersKept(s2, b1, s3, b3, x, ITEM)
    requires x.start + ITEM + n <= x.end && y.start + ITEM + n <= y.end
    requires SamePayload(s1, x.start + ITEM, s2, y.start + ITEM, n)
    requires forall a | 0 <= a < pool && !(y.start + ITEM <= a < y.start + ITEM + n) :: s2[a] == s1[a]
    ensures OthersKept(s0, b0, s3, b3, x, ITEM)
    ensures SamePayload(s0, x.start + ITEM, s3, y.start + ITEM, n)
  {
    hide Tiled, Live, SamePayload;
    SameThen(s0, x.start + ITEM, s1, x.start + ITEM, s2, y.start + ITEM, x.end - x.start - ITEM, n, n);
    SameThen(s0, x.start + ITEM, s2, y.start + ITEM, s3, y.start + ITEM, n, y.end - y.start - ITEM, n);
    forall z | z in Live(b0) && z != x
      ensures z in Live(b3) && SamePayload(s0, z.start + ITEM, s3, z.start + ITEM, z.end - z.start - ITEM)
    {
      var n := z.end - z.start - ITEM;
      ElsewhereSame(s1, s2, b1, y, z, pool);
      SameThen(s0, z.start + ITEM, s1, z.start + ITEM, s2, z.start + ITEM, n, n, n);
      SameThen(s0, z.start + ITEM, s2, z.start + ITEM, s3, z.start + ITEM, n, n, n);
    }
  }

  /** What is written into one block handed out is not seen in another. */
  lemma ElsewhereSame(s: seq<int>, t: seq<int>, bs: seq<Block>, y: Extent, z: Extent, pool: nat)
    requires Laid(bs, pool) && |s| == |t| == pool && y in Live(bs) && z in Live(bs) && z != y
    requires forall a | 0 <= a < pool && !(y.start + ITEM <= a < y.end) :: t[a] == s[a]
    ensures SamePayload(s, z.start + ITEM, t, z.start + ITEM, z.end - z.start - ITEM)
  {
    hide Tiled, Live;
    LiveBounds(bs, ITEM, z);
    LiveDisjoint(bs, ITEM, z, y);
  }

  lemma FreshHeap(bs: seq<Block>, pool: nat)
    requires pool >= 2 * ITEM && bs == [Block(0, false), Block(pool - ITEM, true)]
    ensures Laid(bs, pool) && Coalesced(bs) && Sum(bs, false, ITEM) == pool - 2 * ITEM
    ensures Starts(bs) == iset{0, pool - ITEM} && FreeSet(bs) == iset{0}
  {
    assert bs[0].at == 0 && !bs[0].used && bs[1].at == pool - ITEM;
    assert bs[1..] == [Block(pool - ITEM, true)];
  }

  lemma OneFree(nextFree: Links, prevFree: Links, fr: seq<int>)
    requires Frees(nextFree, prevFree, fr, iset{0})
    ensures fr == [0]
  {
    hide Distinct;
    assert 0 in fr;
    var ring := [FREE_HEADER] + fr;
    forall i | 0 <= i < |fr| ensures fr[i] == 0 && ring[i + 1] == fr[i] { assert fr[i] in fr; }
    if |fr| >= 2 { Different(ring, 1, 2); }
  }

  lemma FreshRings(bs: seq<Block>, tail: nat, next: Links, prev: Links, used: map<int, bool>, nextFree: Links,
                   prevFree: Links)
    requires tail >= ITEM && bs == [Block(0, false), Block(tail, true)]
    requires next == prev == map[0 := tail, tail := 0] && used == map[0 := false, tail := true]
    requires nextFree == prevFree == map[FREE_HEADER := 0, 0 := FREE_HEADER, tail := NULL]
    ensures Blocks(next, prev, used, bs) && Frees(nextFree, prevFree, [0], iset{0})
  {
    assert Addrs(bs) == [0, tail];
    assert [FREE_HEADER] + [0] == [FREE_HEADER, 0];
  }

  lemma FreshItems(mem: seq<int>, tail: nat, next: Links, prev: Links, used: map<int, bool>, nextFree: Links,
                   prevFree: Links)
    requires ITEM <= tail && tail + ITEM <= |mem|
    requires ItemAt(mem, 0, next, prev, used, nextFree, prevFree)
    requires ItemAt(mem, tail, next, prev, used, nextFree, prevFree)
    ensures ItemsAt(mem, iset{0, tail}, next, prev, used, nextFree, prevFree)
  {}

  class Heap {
    const poolSize: nat
    const memory: array<int>     // the pool: items, and what callers keep in their blocks
    var availableSize: int
    var maxUsedSize: int
    var freeNext: int            // the links of the free ring's header
    var freePrev: int
    // where the items are, and what they say
    ghost var items: iset<int>
    ghost var next: Links
    ghost var prev: Links
    ghost var used: map<int, bool>
    ghost var nextFree: Links
    ghost var prevFree: Links
    // the memory when the operation began, and the places items have had since
    ghost var snap: seq<int>
    ghost var zone: iset<int>
    ghost var bs: seq<Block>
    ghost var fr: seq<int>

    /** The words in memory are those of the items. */
    ghost predicate Held()
      reads this`items, this`next, this`prev, this`used, this`nextFree, this`prevFree, this`freeNext, this`freePrev
      reads memory
    {
      && ItemsAt(memory[..], items, next, prev, used, nextFree, prevFree)
      && FREE_HEADER in nextFree && nextFree[FREE_HEADER] == freeNext
      && FREE_HEADER in prevFree && prevFree[FREE_HEADER] == freePrev
    }

    /** The same in the middle of an operation, which has written nothing but items. */
    ghost predicate Sound()
      reads this`items, this`next, this`prev, this`used, this`nextFree, this`prevFree, this`freeNext, this`freePrev
      reads memory
      reads this`snap, this`zone
    {
      Held() && OnlyItems(snap, memory[..], zone) && items <= zone
    }

    /** The two rings describe the layout `bs`; the counters are not looked at. */
    ghost predicate Rings()
      reads this, memory
    {
      && Laid(bs, poolSize) && Blocks(next, prev, used, bs) && Frees(nextFree, prevFree, fr, FreeSet(bs))
      && Held() && items == Starts(bs) && memory.Length == poolSize
    }

    ghost predicate Valid()
      reads this, memory
    {
      && Rings() && Coalesced(bs)
      && availableSize == Sum(bs, false, ITEM)
      && poolSize - availableSize <= maxUsedSize && poolSize < WORD
    }

    constructor (size: u32)
      requires size >= 2 * ITEM
      ensures Valid() && poolSize == size / ALIGN * ALIGN && fresh(memory)
      ensures bs == [Block(0, false), Block(poolSize - ITEM, true)]
      ensures maxUsedSize == poolSize - availableSize == 2 * ITEM
    {
      hide Tiled, Coalesced, Sum, Starts, FreeSet, Blocks, Frees, OnlyItems, ItemsAt;
      var pool := size / ALIGN * ALIGN;
      poolSize := pool;
      memory := new int[pool];
      availableSize := pool - 2 * ITEM;
      maxUsedSize := 2 * ITEM;
      freeNext := 0;
      freePrev := 0;
      var tail := pool - ITEM;
      items := iset{0, tail};
      next := map[0 := tail, tail := 0];
      prev := map[0 := tail, tail := 0];
      used := map[0 := false, tail := true];
      nextFree := map[FREE_HEADER := 0, 0 := FREE_HEADER, tail := NULL];
      prevFree := map[FREE_HEADER := 0, 0 := FREE_HEADER, tail := NULL];
      bs := [Block(0, false), Block(tail, true)];
      fr := [0];
      new;
      WriteItem(0, MAGIC, tail, tail, FREE_HEADER, FREE_HEADER);
      WriteItem(tail, MAGIC + USED, 0, 0, NULL, NULL);
      FreshHeap(bs, pool);
      FreshItems(memory[..], tail, next, prev, used, nextFree, prevFree);
      FreshRings(bs, tail, next, prev, used, nextFree, prevFree);
    }

    /** When every block has been freed, in whatever order, pool, free ring and free bytes are as they began. */
    lemma AllFreed()
      requires Valid() && Live(bs) == iset{}
      ensures bs == [Block(0, false), Block(poolSize - ITEM, true)] && fr == [0]
      ensures availableSize == poolSize - 2 * ITEM
    {
      hide Tiled, Coalesced, Live, Held, Blocks, FreeSet, Sum;
      NothingLiveIsFresh(bs, ITEM);
      Apart(bs, ITEM, 0, 1);
      FreshHeap(bs, poolSize);
      OneFree(nextFree, prevFree, fr);
    }

    /** Writes all words of an item. */
    method WriteItem(x: nat, magic: int, n: int, p: int, nf: int, pf: int)
      requires x + ITEM <= memory.Length
      modifies memory
      ensures memory[x] == magic && memory[x + POOL_PTR] == HEAP
      ensures memory[x + NEXT] == n && memory[x + PREV] == p
      ensures memory[x + NEXT_FREE] == nf && memory[x + PREV_FREE] == pf
      ensures forall a | 0 <= a < memory.Length && !(x <= a < x + ITEM) :: memory[a] == old(memory[a])
    {
      memory[x] := magic;
      memory[x + POOL_PTR] := HEAP;
      memory[x + NEXT] := n;
      memory[x + PREV] := p;
      memory[x + NEXT_FREE] := nf;
      memory[x + PREV_FREE] := pf;
    }

    // ----- the words of an item

    function Next(a: int): (v: int)
      requires Sound() && a in items
      reads this, memory
      ensures a in next && v == next[a]
    {
      memory[a + NEXT]
    }

    function Prev(a: int): (v: int)
      requires Sound() && a in items
      reads this, memory
      ensures a in prev && v == prev[a]
    {
      memory[a + PREV]
    }

    predicate Used(a: int): (u: bool)
      requires Sound() && a in items
      reads this, memory
      ensures a in used && u == used[a]
    {
      memory[a] % 2 == USED
    }

    /** What the code asserts of the item of a block it frees, and of the one behind it. */
    predicate Magic(a: int): (ok: bool)
      requires Sound() && a in items
      reads this, memory
      ensures ok
    {
      memory[a] - memory[a] % 2 == MAGIC
    }

    function NextFree(a: int): (v: int)
      requires Sound() && (a in items || a == FREE_HEADER)
      reads this, memory
      ensures a in nextFree && v == nextFree[a]
    {
      if a == FREE_HEADER then freeNext else memory[a + NEXT_FREE]
    }

    function PrevFree(a: int): (v: int)
      requires Sound() && (a in items || a == FREE_HEADER)
      reads this, memory
      ensures a in prevFree && v == prevFree[a]
    {
      if a == FREE_HEADER then freePrev else memory[a + PREV_FREE]
    }

    method SetNext(a: int, v: int)
      requires Sound() && a in items
      modifies this`next, memory
      ensures Sound() && next == old(next)[a := v]
    {
      memory[a + NEXT] := v;
      next := next[a := v];
    }

    method SetPrev(a: int, v: int)
      requires Sound() && a in items
      modifies this`prev, memory
      ensures Sound() && prev == old(prev)[a := v]
    {
      memory[a + PREV] := v;
      prev := prev[a := v];
    }

    method SetUsed(a: int, u: bool)
      requires Sound() && a in items
      modifies this`used, memory
      ensures Sound() && used == old(used)[a := u]
    {
      memory[a] := memory[a] - memory[a] % 2 + if u then USED else 0;
      used := used[a := u];
    }

    method SetNextFree(a: int, v: int)
      requires Sound() && (a in items || a == FREE_HEADER)
      modifies this`nextFree, this`freeNext, memory
      ensures Sound() && nextFree == old(nextFree)[a := v]
    {
      if a == FREE_HEADER {
        freeNext := v;
      } else {
        memory[a + NEXT_FREE] := v;
      }
      nextFree := nextFree[a := v];
    }

    method SetPrevFree(a: int, v: int)
      requires Sound() && (a in items || a == FREE_HEADER)
      modifies this`prevFree, this`freePrev, memory
      ensures Sound() && prevFree == old(prevFree)[a := v]
    {
      if a == FREE_HEADER {
        freePrev := v;
      } else {
        memory[a + PREV_FREE] := v;
      }
      prevFree := prevFree[a := v];
    }

    /** Builds the item of an unused block between `p` and `n`; its links of the free ring stay
        what the memory held there. */
    method BuildItem(x: nat, p: int, n: int) returns (ghost f: int, ghost g: int)
      requires Sound() && x + ITEM <= memory.Length
      requires forall a | a in items :: a + ITEM <= x || x + ITEM <= a
      modifies this`items, this`zone, this`next, this`prev, this`used, this`nextFree, this`prevFree, memory
      ensures Sound() && items == old(items) + iset{x} && zone == old(zone) + iset{x}
      ensures next == old(next)[x := n] && prev == old(prev)[x := p] && used == old(used)[x := false]
      ensures nextFree == old(nextFree)[x := f] && prevFree == old(prevFree)[x := g]
    {
      hide ItemsAt, ItemAt, OnlyItems;
      memory[x] := MAGIC;
      memory[x + POOL_PTR] := HEAP;
      memory[x + PREV] := p;
      memory[x + NEXT] := n;
      f, g := memory[x + NEXT_FREE], memory[x + PREV_FREE];
      ItemsBuild(old(memory[..]), memory[..], items, next, prev, used, nextFree, prevFree, x, n, p, f, g);
      OnlyItemsBuild(snap, old(memory[..]), memory[..], zone, x);
      next, prev, used := next[x := n], prev[x := p], used[x := false];
      nextFree, prevFree := nextFree[x := f], prevFree[x := g];
      items, zone := items + iset{x}, zone + iset{x};
    }

    /** The item at `x` is given up. */
    ghost method Forget(x: int)
      requires Sound()
      modifies this`items
      ensures Sound() && items == old(items) - iset{x}
    {
      items := items - iset{x};
    }

    /** An operation begins. */
    ghost method Begin()
      requires Held()
      modifies this`snap, this`zone
      ensures Sound() && snap == memory[..] && zone == items
    {
      snap, zone := memory[..], items;
    }

    // ----- the rings

    /** Joins the neighbours of a block on the free ring to each other. */
    method UnlinkFree(x: nat, ghost fs: iset<int>)
      requires Sound() && Frees(nextFree, prevFree, fr, fs) && x in fs && fs <= items
      modifies this`nextFree, this`prevFree, this`freeNext, this`freePrev, this`fr, memory
      ensures Sound() && Frees(nextFree, prevFree, fr, fs - iset{x}) && fr == Del(old(fr), x)
    {
      hide Sound, Held, ItemsAt, ItemAt, OnlyItems, Del;
      ghost var j: nat :| j < |fr| && fr[j] == x;
      FreesDistinct(nextFree, prevFree, fr, fs);
      DelIsWithout(fr, j);
      FreesRemove(nextFree, prevFree, fr, fs, j);
      FreeNeighbours(nextFree, prevFree, fr, fs, j + 1);
      hide Frees, IsRing;
      var n, p := NextFree(x), PrevFree(x);
      SetPrevFree(n, p);
      SetNextFree(p, n);
      fr := Without(fr, j);
    }

    /** Puts a block behind the header of the free ring. */
    method PushFree(x: nat, ghost fs: iset<int>) returns (n: int)
      requires Sound() && Frees(nextFree, prevFree, fr, fs) && x !in fs && x in items && fs <= items
      modifies this`nextFree, this`prevFree, this`freeNext, this`freePrev, this`fr, memory
      ensures Sound() && Frees(nextFree, prevFree, fr, fs + iset{x}) && fr == [x] + old(fr)
      ensures nextFree == old(nextFree)[x := n][FREE_HEADER := x] && (n == FREE_HEADER || n in fs)
      ensures prevFree == old(prevFree)[x := FREE_HEADER][n := x]
    {
      hide Sound, Held, ItemsAt, ItemAt, OnlyItems, Frees;
      FreesAdd(nextFree, prevFree, fr, fs, x);
      FreeNeighbours(nextFree, prevFree, fr, fs, 0);
      n := NextFree(FREE_HEADER);
      SetNextFree(x, n);
      SetPrevFree(x, FREE_HEADER);
      SetPrevFree(n, x);
      SetNextFree(FREE_HEADER, x);
      fr := [x] + fr;
    }

    /** Clears the links of a block that has left the free ring. */
    method ClearFree(x: nat, ghost fs: iset<int>)
      requires Sound() && Frees(nextFree, prevFree, fr, fs) && x !in fs && x in items
      modifies this`nextFree, this`prevFree, this`freeNext, this`freePrev, memory
      ensures Sound() && Frees(nextFree, prevFree, fr, fs)
      ensures nextFree == old(nextFree)[x := NULL] && prevFree == old(prevFree)[x := NULL]
    {
      hide Sound, Held, ItemsAt, ItemAt, OnlyItems, Frees;
      FreesOff(nextFree, prevFree, fr, fs, x, NULL, NULL);
      SetNextFree(x, NULL);
      SetPrevFree(x, NULL);
    }

    /** Takes block `x`, number `i`, out of the block ring: its predecessor absorbs it. */
    method UnlinkBlock(x: nat, ghost i: nat)
      requires Sound() && Blocks(next, prev, used, bs) && 0 < i < |bs| && bs[i].at == x && Starts(bs) <= items
      modifies this`next, this`prev, this`bs, memory
      ensures Sound() && bs == Drop(old(bs), i) && Blocks(next, prev, used, bs)
    {
      hide Sound, Held, ItemsAt, ItemAt, OnlyItems, Blocks;
      BlocksDrop(next, prev, used, bs, i);
      BlockReads(next, prev, used, bs, i);
      StartHere(bs, i);
      StartHere(bs, i - 1);
      StartHere(bs, if i + 1 == |bs| then 0 else i + 1);
      var n, p := Next(x), Prev(x);
      SetPrev(n, p);
      SetNext(p, n);
      bs := Drop(bs, i);
    }

    /** Builds an unused block at `x` behind block `h`, number `i`. */
    method LinkBlock(h: nat, x: nat, ghost i: nat, ghost fs: iset<int>)
      requires Sound() && items == Starts(bs) && Blocks(next, prev, used, bs) && Tiled(bs, ITEM)
      requires i < |bs| - 1 && bs[i].at == h && h + ITEM <= x && x + ITEM <= bs[i + 1].at
      requires Frees(nextFree, prevFree, fr, fs) && fs <= items
      modifies this`items, this`zone, this`next, this`prev, this`used, this`nextFree, this`prevFree, this`bs, memory
      ensures Sound() && bs == Insert(old(bs), i, x)
      ensures items == Starts(bs) == old(items) + iset{x} && zone == old(zone) + iset{x}
      ensures Blocks(next, prev, used, bs) && Frees(nextFree, prevFree, fr, fs)
    {
      hide Sound, Held, ItemsAt, ItemAt, OnlyItems, Blocks, Frees, Tiled, Starts, Insert;
      BlocksInsert(next, prev, used, bs, i, x);
      BlockReads(next, prev, used, bs, i);
      NewItemApart(bs, i, x);
      StartHere(bs, i);
      StartHere(bs, i + 1);
      StartsInsert(bs, i, x);
      ItemFits(bs[i + 1].at);
      var n := Next(h);
      ghost var n0, p0, f0, g0 := next, prev, nextFree, prevFree;
      ghost var f, g;
      f, g := BuildItem(x, h, n);
      FreesOff(f0, g0, fr, fs, x, f, g);
      SetPrev(n, x);
      SetNext(h, x);
      bs := Insert(bs, i, x);
    }

    lemma ItemFits(a: int)
      requires Sound() && a in items
      ensures 0 <= a && a + ITEM <= memory.Length
    {}

    /** Marks block `i`, at `h`, as used or unused. */
    method MarkBlock(h: nat, u: bool, ghost i: nat)
      requires Sound() && Blocks(next, prev, used, bs) && Tiled(bs, ITEM) && i < |bs| && bs[i].at == h && h in items
      modifies this`used, this`bs, memory
      ensures Sound() && bs == Mark(old(bs), i, u) && Blocks(next, prev, used, bs)
    {
      hide Sound, Held, ItemsAt, ItemAt, OnlyItems, Blocks, Tiled;
      BlocksMark(next, prev, used, bs, i, u);
      SetUsed(h, u);
      bs := Mark(bs, i, u);
    }

    /** The scan of the free ring: the first block with room, most recently freed first. */
    method Search(size: nat) returns (header: int, freeSize: nat, ghost j: nat, ghost i: nat)
      requires Rings() && Sound() && size > 0
      ensures freeSize >= size ==> j < |fr| && fr[j] == header && Fits(bs, i, size) && bs[i].at == header
      ensures freeSize >= size ==> freeSize == bs[i + 1].at - bs[i].at - ITEM
      ensures freeSize < size ==> forall k: nat :: !Fits(bs, k, size)
      ensures forall k: nat, m: nat | Fits(bs, m, size) && k < j && k < |fr| :: fr[k] != bs[m].at
    {
      hide Tiled, Sound, Held, Starts, Blocks, Frees;
      LastUsed(bs);
      j, i := 0, 0;
      FreeReads(nextFree, prevFree, fr, FreeSet(bs), 0);
      header := NextFree(FREE_HEADER);
      freeSize := 0;
      while header != FREE_HEADER && freeSize < size
        invariant j <= |fr| && (j < |fr| <==> header != FREE_HEADER) && (j < |fr| ==> header == fr[j])
        invariant freeSize >= size ==> j < |fr| && Fits(bs, i, size) && bs[i].at == header
        invariant freeSize >= size ==> freeSize == bs[i + 1].at - bs[i].at - ITEM
        invariant forall k: nat, m: nat | Fits(bs, m, size) && k < j :: fr[k] != bs[m].at
        decreases |fr| - j, size - freeSize
      {
        FreeMembers(nextFree, prevFree, fr, FreeSet(bs), j);
        i := FreeIndex(bs, header);
        BlockReads(next, prev, used, bs, i);
        StartHere(bs, i);
        NextAfter(bs, i);
        freeSize := Next(header) - header - ITEM;
        if freeSize < size {
          FreeReads(nextFree, prevFree, fr, FreeSet(bs), j + 1);
          forall m: nat | Fits(bs, m, size) ensures bs[m].at != header { StartsDiffer(bs, m, i); }
          header := NextFree(header);
          j := j + 1;
        }
      }
      if freeSize < size {
        forall m: nat | Fits(bs, m, size) ensures bs[m].at in fr {
          FreeListed(nextFree, prevFree, fr, bs, m);
        }
      }
    }

    method RaisePeak()
      modifies this`maxUsedSize
      ensures maxUsedSize == Max(old(maxUsedSize), poolSize - availableSize)
    {
      if poolSize - availableSize > maxUsedSize {
        maxUsedSize := poolSize - availableSize;
      }
    }

    /** Takes the free block at `header` apart: its tail becomes a block of its own. */
    method Split(header: nat, size: nat, ghost i: nat)
      requires Rings() && Sound() && zone == items && availableSize == Sum(bs, false, ITEM) && Fits(bs, i, size)
        && bs[i].at == header
      requires Splits(bs, i, size)
      modifies this, memory
      ensures Sound() && zone == items == Starts(bs) && snap == old(snap) && bs == Taken(old(bs), i, size)
      ensures fr == RingAfterAlloc(old(fr), old(bs), i, size)
      ensures Blocks(next, prev, used, bs) && Frees(nextFree, prevFree, fr, FreeSet(bs))
      ensures availableSize == Sum(bs, false, ITEM) && maxUsedSize == Max(old(maxUsedSize), poolSize - availableSize)
      ensures header in nextFree && header in prevFree && nextFree[header] == prevFree[header] == NULL
    {
      hide Tiled, Sum, Blocks, Frees, FreeSet, Insert, Starts, Sound, Held, OnlyItems, Del;
      ghost var b0, q := bs, header + size + ITEM;
      FreeStarts(b0);
      FreeHere(b0, i);
      CutFree(b0, i, q);
      CutSum(b0, i, q);
      InsertTiled(b0, i, q, ITEM);
      InsertAts(b0, i, q, i);
      StartHere(b0, i);
      StartsMark(Insert(b0, i, q), i, true);
      LinkBlock(header, header + size + ITEM, i, FreeSet(b0));
      UnlinkFree(header, FreeSet(b0));
      ClearFree(header, FreeSet(b0) - iset{header});
      var n := PushFree(header + size + ITEM, FreeSet(b0) - iset{header});
      availableSize := availableSize - size - ITEM;
      RaisePeak();
      MarkBlock(header, true, i);
    }

    /** Takes the free block at `header` as it is. */
    method TakeWhole(header: nat, freeSize: nat, ghost size: nat, ghost i: nat)
      requires Rings() && Sound() && zone == items && availableSize == Sum(bs, false, ITEM) && Fits(bs, i, size)
        && bs[i].at == header
      requires !Splits(bs, i, size) && freeSize == SizeOf(bs, i)
      modifies this, memory
      ensures Sound() && zone == items == Starts(bs) && snap == old(snap) && bs == Taken(old(bs), i, size)
      ensures fr == RingAfterAlloc(old(fr), old(bs), i, size)
      ensures Blocks(next, prev, used, bs) && Frees(nextFree, prevFree, fr, FreeSet(bs))
      ensures availableSize == Sum(bs, false, ITEM) && maxUsedSize == Max(old(maxUsedSize), poolSize - availableSize)
      ensures header in nextFree && header in prevFree && nextFree[header] == prevFree[header] == NULL
    {
      hide Tiled, Sum, Blocks, Frees, FreeSet, Starts, Sound, Held, OnlyItems, Del;
      ghost var b0 := bs;
      FreeStarts(b0);
      FreeHere(b0, i);
      FreeMark(b0, i, true);
      SumMark(b0, i, true, false, ITEM);
      StartHere(b0, i);
      StartsMark(b0, i, true);
      availableSize := availableSize - freeSize;
      RaisePeak();
      UnlinkFree(header, FreeSet(b0));
      ClearFree(header, FreeSet(b0) - iset{header});
      MarkBlock(header, true, i);
    }

    method Alloc(bytes: u32) returns (r: Option<int>, ghost i: nat)
      requires Valid()
      modifies this, memory
      ensures Valid()
      ensures r.None? <==> Refused(old(bs), old(availableSize), Need(bytes))
      ensures r.None? ==>
        bs == old(bs) && fr == old(fr) && availableSize == old(availableSize) && memory[..] == old(memory[..])
      ensures r.Some? ==> FirstInRing(old(fr), old(bs), i, Need(bytes)) && Fits(old(bs), i, Need(bytes))
      ensures r.Some? ==> bs == Taken(old(bs), i, Need(bytes)) && r.value == old(bs)[i].at + ITEM
      ensures r.Some? ==> fr == RingAfterAlloc(old(fr), old(bs), i, Need(bytes))
      ensures r.Some? ==>
        i + 1 < |bs| && bs[i].used && r.value == bs[i].at + ITEM && bs[i + 1].at >= r.value + Need(bytes)
      ensures r.Some? ==> Live(bs) == old(Live(bs)) + iset{ExtentOf(bs, i)} && ExtentOf(bs, i) !in old(Live(bs))
      // its tail is split off if and only if a block can stand there
      ensures r.Some? ==>
        var spare := old(bs)[i + 1].at - (r.value + Need(bytes));
        bs[i + 1].at == if spare >= ITEM + MINIALLOC then r.value + Need(bytes) else old(bs)[i + 1].at
      ensures r.Some? ==> bs[i + 1].at - r.value < Need(bytes) + ITEM + MINIALLOC
      // the block holds what was asked for, except for the three sizes that wrap
      ensures r.Some? ==> (bs[i + 1].at - r.value >= bytes <==> bytes <= WORD - ALIGN)
      // it is on the free ring no longer
      ensures r.Some? ==>
        0 <= bs[i].at + ITEM <= memory.Length
        && memory[bs[i].at + NEXT_FREE] == memory[bs[i].at + PREV_FREE] == NULL
      // every block handed out before keeps its bytes
      ensures r.Some? ==> OthersKept(old(memory[..]), old(bs), memory[..], bs, ExtentOf(bs, i), ITEM)
      ensures maxUsedSize == Max(old(maxUsedSize), InUse(bs, poolSize))
    {
      hide Tiled, Coalesced, Sum, Blocks, Frees, FreeSet, Live, Starts, Held, OnlyItems, OthersKept, Taken, Need;
      hide RingAfterAlloc;
      r, i := None, 0;
      Begin();
      NeedCovers(bytes, poolSize);
      var size := Need(bytes);
      if size < availableSize {
        var header, freeSize;
        ghost var j;
        header, freeSize, j, i := Search(size);
        if freeSize >= size {
          ghost var b0 := bs;
          assert ReachedAt(fr, b0, i, size, j);
          TakenLaid(b0, i, size, poolSize);
          TakenBlocks(b0, i, size);
          if freeSize >= size + ITEM + MINIALLOC {
            Split(header, size, i);
          } else {
            TakeWhole(header, freeSize, size, i);
          }
          r := Some(header + ITEM);
          StartHere(bs, i);
          assert NextFree(header) == PrevFree(header) == NULL;
          ItemFits(header);
          OthersMissed(snap, memory[..], zone, b0, bs, ExtentOf(bs, i), poolSize);
          InPool(bs, i, poolSize);
        }
      }
    }

    ghost predicate Counted()
      reads this, memory
    {
      && Laid(bs, poolSize) && Blocks(next, prev, used, bs) && availableSize == Sum(bs, false, ITEM)
      && Sound() && items == Starts(bs)
    }

    /** Joins the block just freed with an unused predecessor. */
    method JoinPrev(h: nat, ghost i: nat) returns (g: nat, alone: bool, ghost gi: nat)
      requires Counted() && i < |bs| - 1 && bs[i] == Block(h, false)
      requires Frees(nextFree, prevFree, fr, FreeSet(bs) - iset{h})
      modifies this`items, this`next, this`prev, this`bs, this`availableSize, memory
      ensures Counted() && bs == MergePrev(old(bs), i) && gi < |bs| - 1 && bs[gi] == Block(g, false)
      ensures gi == (if i > 0 && !old(bs)[i - 1].used then i - 1 else i)
      ensures alone == !(i > 0 && !old(bs)[i - 1].used)
      ensures Frees(nextFree, prevFree, fr, Listed(FreeSet(bs), g, alone))
    {
      hide Tiled, Sum, FreeSet, Blocks, Frees, Starts, Sound, Held, OnlyItems;
      g, alone, gi := h, true, i;
      BlockReads(next, prev, used, bs, i);
      StartHere(bs, i);
      StartHere(bs, if i == 0 then |bs| - 1 else i - 1);
      BlockReads(next, prev, used, bs, if i == 0 then |bs| - 1 else i - 1);
      LastUsed(bs);
      if !Used(Prev(h)) {
        DropFacts(bs, i, poolSize);
        StartsDrop(bs, i);
        availableSize := availableSize + ITEM;
        g, alone, gi := Prev(h), false, i - 1;
        UnlinkBlock(h, i);
        Forget(h);
      }
    }

    /** Joins the block with an unused successor; if `alone`, it is not on the free ring yet. */
    method JoinNext(g: nat, ghost gi: nat, ghost alone: bool)
      requires Counted() && gi < |bs| - 1 && bs[gi] == Block(g, false)
      requires Frees(nextFree, prevFree, fr, Listed(FreeSet(bs), g, alone))
      modifies this`items, this`next, this`prev, this`bs, this`availableSize
      modifies this`nextFree, this`prevFree, this`freeNext, this`freePrev, this`fr, memory
      ensures Counted() && bs == MergeNext(old(bs), gi) && gi < |bs| && bs[gi] == Block(g, false)
      ensures fr == TakenIn(old(fr), old(bs), gi)
      ensures Frees(nextFree, prevFree, fr, Listed(FreeSet(bs), g, alone))
    {
      hide Tiled, Sum, FreeSet, Blocks, Frees, Starts, Sound, Held, OnlyItems, Del;
      BlockReads(next, prev, used, bs, gi);
      BlockReads(next, prev, used, bs, gi + 1);
      StartHere(bs, gi);
      StartHere(bs, gi + 1);
      LastUsed(bs);
      NextAfter(bs, gi);
      if !Used(Next(g)) {
        DropFacts(bs, gi + 1, poolSize);
        StartsDrop(bs, gi + 1);
        FreeStarts(bs);
        availableSize := availableSize + ITEM;
        var n := Next(g);
        ghost var fs := FreeSet(bs);
        UnlinkBlock(n, gi + 1);
        UnlinkFree(n, Listed(fs, g, alone));
        Forget(n);
        assert Listed(fs, g, alone) - iset{n} == Listed(FreeSet(bs), g, alone);
      }
    }

    method MarkFree(h: nat, ghost i: nat)
      requires Valid() && Sound() && i < |bs| - 1 && bs[i] == Block(h, true)
      modifies this`used, this`bs, this`availableSize, memory
      ensures Counted() && bs == Mark(old(bs), i, false)
      ensures Frees(nextFree, prevFree, fr, Listed(FreeSet(bs), h, true))
    {
      hide Tiled, Sum, FreeSet, Blocks, Frees, Live, Coalesced, Plug, Starts, Sound, Held, OnlyItems;
      ReleaseFacts(bs, i, poolSize);
      NextAfter(bs, i);
      StartHere(bs, i);
      StartsMark(bs, i, false);
      assert Listed(FreeSet(Mark(bs, i, false)), h, true) == FreeSet(bs);
      MarkBlock(h, false, i);
      BlockReads(next, prev, used, bs, i);
      availableSize := availableSize + (Next(h) - h - ITEM);
    }

    lemma PrevShape(m: seq<Block>, i: nat)
      requires i + 1 < |m|
      ensures var r := MergePrev(m, i); var gi := if i > 0 && !m[i - 1].used then i - 1 else i;
        gi + 1 < |r| && r[gi] == m[gi] && r[gi + 1] == m[i + 1]
    {}

    /** Joins the block just freed with unused neighbours and puts it on the free ring, unless
        its predecessor already is there. */
    method Rejoin(h: nat, ghost i: nat)
      requires Counted() && i < |bs| - 1 && bs[i] == Block(h, false)
      requires Frees(nextFree, prevFree, fr, Listed(FreeSet(bs), h, true))
      modifies this`items, this`next, this`prev, this`bs, this`availableSize
      modifies this`nextFree, this`prevFree, this`freeNext, this`freePrev, this`fr, memory
      ensures Counted() && bs == Plug(old(bs), i) && Frees(nextFree, prevFree, fr, FreeSet(bs))
      ensures fr == RingAfterFree(old(fr), old(bs), i)
    {
      hide Tiled, Sum, FreeSet, Blocks, Frees, Starts, Sound, Held, OnlyItems, Plug, MergeNext, MergePrev;
      hide Del;
      PlugBackwardFirst(bs, i);
      var g, alone;
      ghost var gi;
      g, alone, gi := JoinPrev(h, i);
      PrevShape(old(bs), i);
      JoinNext(g, gi, alone);
      if alone {
        FreeHere(bs, gi);
        FreeStarts(bs);
        StartHere(bs, gi);
        var n := PushFree(g, Listed(FreeSet(bs), g, true));
        assert Listed(FreeSet(bs), g, true) + iset{g} == FreeSet(bs);
      }
    }

    /** Frees the block whose item is at `h`. */
    method ReleaseItem(h: nat, ghost i: nat)
      requires Valid() && i < |bs| - 1 && bs[i] == Block(h, true)
      modifies this, memory
      ensures Valid() && maxUsedSize == old(maxUsedSize) && bs == Release(old(bs), i)
      ensures fr == RingAfterFree(old(fr), old(bs), i)
      ensures Live(bs) == old(Live(bs)) - iset{ExtentOf(old(bs), i)}
      ensures OthersKept(old(memory[..]), old(bs), memory[..], bs, ExtentOf(old(bs), i), ITEM)
    {
      hide Tiled, Sum, FreeSet, Blocks, Frees, Live, Coalesced, Plug, Mark, Starts, Sound, Held, OnlyItems, OthersKept;
      hide RingAfterFree;
      ghost var b0, f0 := bs, fr;
      ReleaseFacts(bs, i, poolSize);
      MarkAt(bs, i, false);
      SumGrows(b0, i, Release(b0, i));
      Begin();
      CheckMagic(h, i);
      MarkFree(h, i);
      Rejoin(h, i);
      SoundHeld();
      FreedRing(f0, b0, i);
      OthersMissed(snap, memory[..], zone, b0, bs, ExtentOf(b0, i), poolSize);
    }

    lemma FreedRing(f: seq<int>, b: seq<Block>, i: nat)
      requires i + 1 < |b|
      ensures i + 1 < |Mark(b, i, false)| && RingAfterFree(f, Mark(b, i, false), i) == RingAfterFree(f, b, i)
    {
      hide Del;
    }

    /** The assertions on the magic words hold whenever a block is freed. */
    method CheckMagic(h: nat, ghost i: nat)
      requires Rings() && Sound() && i < |bs| - 1 && bs[i] == Block(h, true)
      ensures h in items && Magic(h) && Used(h) && Next(h) in items && Magic(Next(h))
    {
      hide Tiled, FreeSet, Blocks, Frees, Starts, Sound, Held;
      StartHere(bs, i);
      StartHere(bs, i + 1);
      BlockReads(next, prev, used, bs, i);
    }

    lemma SoundHeld()
      requires Sound()
      ensures Held() && OnlyItems(snap, memory[..], zone)
    {}

    ghost predicate Allocated(p: int)
      reads this
    {
      exists i: nat :: i < |bs| - 1 && bs[i].used && bs[i].at + ITEM == p
    }

    ghost function IndexOf(p: int): (i: nat)
      requires Allocated(p)
      reads this
      ensures i < |bs| - 1 && bs[i].used && bs[i].at + ITEM == p
    {
      var i: nat :| i < |bs| - 1 && bs[i].used && bs[i].at + ITEM == p; i
    }

    /** The extent of the block whose payload starts at `p`. */
    ghost function BlockAt(p: int): Extent
      requires Allocated(p)
      reads this
    {
      ExtentOf(bs, IndexOf(p))
    }

    method Free(p: Option<int>)
      requires Valid() && (p.Some? ==> Allocated(p.value))
      modifies this, memory
      ensures Valid() && maxUsedSize == old(maxUsedSize)
      ensures p.None? ==> bs == old(bs) && memory[..] == old(memory[..])
      ensures p.None? ==> fr == old(fr)
      ensures p.Some? ==> bs == Release(old(bs), old(IndexOf(p.value)))
      ensures p.Some? ==> fr == RingAfterFree(old(fr), old(bs), old(IndexOf(p.value)))
      ensures p.Some? ==> Live(bs) == old(Live(bs)) - iset{old(BlockAt(p.value))}
      // every other block keeps its bytes
      ensures p.Some? ==> OthersKept(old(memory[..]), old(bs), memory[..], bs, old(BlockAt(p.value)), ITEM)
    {
      hide Tiled, Sum, Rings, Live, Coalesced, Release, OthersKept, RingAfterFree;
      if p.Some? {
        ReleaseItem(p.value - ITEM, IndexOf(p.value));
      }
    }

    /** Takes the unused block at `n` behind the one at `h` out of both rings and builds it
        again further up, at `at`. */
    method Rebuild(h: nat, n: nat, at: nat, ghost i: nat)
      requires Rings() && Sound() && i + 2 < |bs| && bs[i] == Block(h, true) && bs[i + 1] == Block(n, false)
      requires n < at && at + ITEM <= bs[i + 2].at
      modifies this`items, this`zone, this`next, this`prev, this`used, this`nextFree, this`prevFree
      modifies this`freeNext, this`freePrev, this`bs, this`fr, memory
      ensures Sound() && bs == Stretch(old(bs), i, at) && Blocks(next, prev, used, bs)
      ensures Frees(nextFree, prevFree, fr, FreeSet(bs)) && items == Starts(bs) && zone == old(zone) + iset{at}
      ensures fr == [at as int] + TakenIn(old(fr), old(bs), i)
    {
      hide Tiled, FreeSet, Blocks, Frees, Insert, Drop, Stretch, Starts, Sound, Held, OnlyItems, Del;
      ghost var b0 := bs;
      StretchSteps(bs, i, at);
      FreeStarts(bs);
      StartsDrop(bs, i + 1);
      UnlinkFree(n, FreeSet(bs));
      UnlinkBlock(n, i + 1);
      Forget(n);
      NextAfter(b0, i);
      LinkBlock(h, at, i, FreeSet(b0) - iset{n});
      var first := PushFree(at, FreeSet(b0) - iset{n});
    }

    /** Grows the block at `h` in place, into the unused block at `n` behind it. */
    method Grow(h: nat, n: nat, size: nat, ghost i: nat)
      requires Valid() && i + 2 < |bs| && bs[i] == Block(h, true) && bs[i + 1] == Block(n, false)
      requires n < h + ITEM + size && h + ITEM + size + ITEM <= bs[i + 2].at
      modifies this, memory
      ensures Valid() && bs == Stretch(old(bs), i, h + ITEM + size)
      ensures fr == [h + ITEM + size] + TakenIn(old(fr), old(bs), i)
      ensures maxUsedSize == Max(old(maxUsedSize), InUse(bs, poolSize))
      ensures Live(bs) == old(Live(bs)) - iset{ExtentOf(old(bs), i)} + iset{Extent(h, h + ITEM + size)}
      ensures OnlyItems(old(memory[..]), memory[..], zone) && zone <= Starts(old(bs)) + Starts(bs)
    {
      hide Tiled, Sum, FreeSet, Blocks, Frees, Live, Coalesced, Stretch, Starts, Sound, Held, OnlyItems, TakenIn;
      var at := h + ITEM + size;
      StretchFacts(bs, i, at, poolSize);
      StretchSum(bs, i, at);
      Begin();
      var oldSize := n - h - ITEM;
      availableSize := availableSize - (size - oldSize);
      RaisePeak();
      Rebuild(h, n, at, i);
      StretchedStart(old(bs), i, at);
      SoundHeld();
    }

    /** Takes the unused block behind the one at `at` out of both rings and the books. */
    method TakeInNext(at: nat, ghost k: nat, ghost frees: iset<int>)
      requires Sound() && items == Starts(bs) && frees <= items
      requires Blocks(next, prev, used, bs) && Tiled(bs, ITEM) && k + 1 < |bs| - 1 && bs[k].at == at
      requires Frees(nextFree, prevFree, fr, frees) && bs[k + 1].at in frees
      modifies this`items, this`next, this`prev, this`nextFree, this`prevFree, this`freeNext, this`freePrev
      modifies this`fr, this`bs, this`availableSize, memory
      ensures Sound() && items == Starts(bs) == old(items) - iset{old(bs)[k + 1].at}
      ensures Blocks(next, prev, used, bs) && bs == Drop(old(bs), k + 1)
      ensures Frees(nextFree, prevFree, fr, frees - iset{old(bs)[k + 1].at}) && fr == Del(old(fr), old(bs)[k + 1].at)
      ensures availableSize == old(availableSize) - (old(bs)[k + 2].at - old(bs)[k + 1].at - ITEM)
    {
      hide Tiled, Blocks, Frees, Drop, Starts, Sound, Held, OnlyItems;
      BlockReads(next, prev, used, bs, k);
      BlockReads(next, prev, used, bs, k + 1);
      StartHere(bs, k);
      StartHere(bs, k + 1);
      StartsDrop(bs, k + 1);
      var n := Next(at);
      availableSize := availableSize - (Next(n) - n - ITEM);
      UnlinkBlock(n, k + 1);
      UnlinkFree(n, frees);
      Forget(n);
    }

    /** Builds an unused block from the tail of the one at `h`, which takes in an unused one behind it. */
    method SplitOff(h: nat, at: nat, ghost i: nat)
      requires Rings() && Sound() && Coalesced(bs) && zone == items && availableSize == Sum(bs, false, ITEM)
      requires i < |bs| - 1 && bs[i] == Block(h, true) && h + ITEM <= at && at + ITEM <= bs[i + 1].at
      modifies this`items, this`zone, this`next, this`prev, this`used, this`nextFree, this`prevFree
      modifies this`freeNext, this`freePrev, this`bs, this`fr, this`availableSize, memory
      ensures Sound() && bs == Shrink(old(bs), i, at) && Blocks(next, prev, used, bs)
      ensures Frees(nextFree, prevFree, fr, FreeSet(bs)) && items == Starts(bs) && zone == old(zone) + iset{at}
      ensures fr == [at as int] + TakenIn(old(fr), old(bs), i)
      ensures i + 2 < |bs| && bs[i + 1].at == at
      ensures Sum(bs, false, ITEM) == availableSize + (bs[i + 2].at - at - ITEM)
    {
      hide Tiled, Sum, FreeSet, Blocks, Frees, Live, Coalesced, Insert, Shrink, Drop, Laid, Starts, Sound, Held;
      hide OnlyItems, Del;
      ghost var b0, k := bs, i + 1;
      CutOutcome(b0, i, at, poolSize);
      FreeStarts(b0);
      LinkBlock(h, at, i, FreeSet(b0));
      ghost var m := bs;
      BlockReads(next, prev, used, m, k);
      BlockReads(next, prev, used, m, k + 1);
      StartHere(m, k);
      StartHere(m, k + 1);
      InsertShape(b0, i, at);
      if !Used(Next(at)) {
        TakeInNext(at, k, FreeSet(b0));
        StartHere(bs, k);
        var first := PushFree(at, FreeSet(b0) - iset{m[k + 1].at});
      } else {
        var first := PushFree(at, FreeSet(b0));
      }
    }

    /** Cuts the block at `h` in place. */
    method Cut(h: nat, size: nat, ghost i: nat)
      requires Valid() && i < |bs| - 1 && bs[i] == Block(h, true)
      requires h + ITEM + size + ITEM <= bs[i + 1].at
      modifies this, memory
      ensures Valid() && maxUsedSize == old(maxUsedSize) && bs == Shrink(old(bs), i, h + ITEM + size)
      ensures fr == [h + ITEM + size] + TakenIn(old(fr), old(bs), i)
      ensures Live(bs) == old(Live(bs)) - iset{ExtentOf(old(bs), i)} + iset{Extent(h, h + ITEM + size)}
      ensures OnlyItems(old(memory[..]), memory[..], zone) && zone <= Starts(old(bs)) + Starts(bs)
    {
      hide Tiled, Sum, FreeSet, Blocks, Frees, Live, Coalesced, Insert, Shrink, Laid, Starts, Sound, Held, OnlyItems;
      hide TakenIn;
      var at := h + ITEM + size;
      CutFacts(bs, i, at, poolSize);
      Begin();
      SplitOff(h, at, i);
      BlockReads(next, prev, used, bs, i + 1);
      StartHere(bs, i + 1);
      availableSize := availableSize + (Next(at) - at - ITEM);
      SoundHeld();
    }

    /** Copies `n` bytes between two blocks that do not overlap. */
    method Copy(p: nat, q: nat, n: nat)
      requires p + n <= memory.Length && q + n <= memory.Length && (p + n <= q || q + n <= p)
      modifies memory
      ensures SamePayload(old(memory[..]), p, memory[..], q, n)
      ensures forall a | 0 <= a < memory.Length && !(q <= a < q + n) :: memory[a] == old(memory[a])
    {
      for k := 0 to n
        invariant forall a | q <= a < q + k :: memory[a] == old(memory[a - q + p])
        invariant forall a | 0 <= a < memory.Length && !(q <= a < q + k) :: memory[a] == old(memory[a])
      {
        memory[q + k] := memory[p + k];
      }
    }

    /** The block `x` at `p`, as of memory `s` and layout `b`, now is at `r` with room for `n`
        bytes; its first bytes are kept and all other blocks are as before. */
    ghost predicate Resized(s: seq<int>, b: seq<Block>, x: Extent, p: int, r: int, n: nat)
      reads this, memory
    {
      && Allocated(r) && BlockAt(r).end >= r + n
      && Live(bs) == Live(b) - iset{x} + iset{BlockAt(r)} && BlockAt(r) !in Live(b) - iset{x}
      && SamePayload(s, p, memory[..], r, if x.end - p < n then x.end - p else n)
      && OthersKept(s, b, memory[..], bs, x, ITEM)
    }

    /** A move to a new block. */
    method Move(h: nat, size: u32, oldSize: nat, ghost i: nat) returns (r: Option<int>, ghost j: nat)
      requires Valid() && i < |bs| - 1 && bs[i] == Block(h, true) && bs[i + 1].at == h + ITEM + oldSize
      requires Need(size) == size && size > oldSize
      modifies this, memory
      ensures Valid()
      ensures r.None? <==> Refused(old(bs), old(availableSize), size)
      ensures r.None? ==>
        bs == old(bs) && fr == old(fr) && availableSize == old(availableSize) && memory[..] == old(memory[..])
      ensures r.None? ==> maxUsedSize == old(maxUsedSize)
      ensures r.Some? ==> Resized(old(memory[..]), old(bs), ExtentOf(old(bs), i), h + ITEM, r.value, size)
      ensures r.Some? ==> r.value != h + ITEM && FirstInRing(old(fr), old(bs), j, size) && Fits(old(bs), j, size)
      ensures r.Some? ==> r.value == old(bs)[j].at + ITEM
      ensures r.Some? ==> BlockAt(r.value).end - r.value < size + ITEM + MINIALLOC
      ensures r.Some? ==> MovedInto(old(bs), old(fr), j, size, h + ITEM, bs, fr)
      // for a moment both blocks are handed out
      ensures r.Some? ==> maxUsedSize == Max(old(maxUsedSize), InUse(Taken(old(bs), j, size), poolSize))
    {
      hide Tiled, Sum, FreeSet, Blocks, Frees, Live, Coalesced, Taken, Release, FirstInRing, Need, SamePayload;
      hide OthersKept;
      hide Starts, Held, OnlyItems, RingAfterAlloc, RingAfterFree;
      ghost var s0, b0, x, f0 := memory[..], bs, ExtentOf(bs, i), fr;
      HandedOutLive(bs, i);
      r, j := Alloc(size);
      if r.Some? {
        ghost var s1, b1, y := memory[..], bs, ExtentOf(bs, j);
        LiveFound(b1, x);
        StartsDiffer(b0, i, j);
        CopyOver(h + ITEM, r.value, oldSize, x, y);
        ghost var s2, f1, k := memory[..], fr, IndexOf(h + ITEM);
        Free(Some(h + ITEM));
        KeptByMove(s0, b0, s1, b1, s2, memory[..], bs, x, y, oldSize, poolSize);
        LiveFound(bs, y);
        assert MovedFrom(b1, f1, h + ITEM, bs, fr, k);
      }
    }

    /** Copies the bytes of block `x` into block `y`. */
    method CopyOver(p: nat, q: nat, n: nat, ghost x: Extent, ghost y: Extent)
      requires Valid() && x in Live(bs) && y in Live(bs) && x != y && p == x.start + ITEM && q == y.start + ITEM
      requires p + n <= x.end && q + n <= y.end
      modifies memory
      ensures Valid() && SamePayload(old(memory[..]), p, memory[..], q, n)
      ensures forall a | 0 <= a < memory.Length && !(q <= a < q + n) :: memory[a] == old(memory[a])
    {
      hide Tiled, Sum, FreeSet, Blocks, Frees, Live, Coalesced, SamePayload, Starts, ItemsAt;
      ghost var s := memory[..];
      LiveBounds(bs, ITEM, x);
      LiveBounds(bs, ITEM, y);
      LiveDisjoint(bs, ITEM, x, y);
      Copy(p, q, n);
      PayloadMissesItems(s, memory[..], bs, y, n, next, prev, used, nextFree, prevFree);
    }

    /** The block has been resized where it is: only items were written. */
    lemma ResizedInPlace(s: seq<int>, b: seq<Block>, x: Extent, y: Extent, p: int, n: nat)
      requires Valid() && Laid(b, poolSize) && |s| == poolSize && x in Live(b)
      requires OnlyItems(s, memory[..], zone) && zone <= Starts(b) + Starts(bs)
      requires x.start == y.start && p == x.start + ITEM && y.end >= p + n
      requires Live(bs) == Live(b) - iset{x} + iset{y}
      ensures Resized(s, b, x, p, p, n)
    {
      hide Tiled, Sum, FreeSet, Blocks, Frees, Live, Coalesced, SamePayload, OthersKept, Starts, Held, OnlyItems;
      LiveFound(bs, y);
      NotElsewhere(b, x, y);
      LiveBounds(b, ITEM, x);
      OthersMissed(s, memory[..], zone, b, bs, x, poolSize);
      ItemsMissPayload(s, memory[..], zone, b, bs, x, y, if x.end - p < n then x.end - p else n);
    }

    method Resize(h: nat, size: u32, ghost i: nat) returns (r: Option<int>, ghost j: nat)
      requires Valid() && i < |bs| - 1 && bs[i] == Block(h, true)
      requires Need(size) == size && !Overruns(bs, i, size)
      modifies this, memory
      ensures Valid()
      ensures r.None? <==> Moves(old(bs), i, size) && Refused(old(bs), old(availableSize), size)
      ensures r == Some(h + ITEM) <==> !Moves(old(bs), i, size)
      ensures r.None? ==>
        bs == old(bs) && fr == old(fr) && availableSize == old(availableSize) && memory[..] == old(memory[..])
      ensures r.Some? ==> Resized(old(memory[..]), old(bs), ExtentOf(old(bs), i), h + ITEM, r.value, size)
      // in numbers: when the block stays, and where it ends then
      ensures r == Some(h + ITEM) <==>
        var len := old(bs)[i + 1].at - h - ITEM;
        || size <= len
        || (i + 2 < |old(bs)| && !old(bs)[i + 1].used
            && len + (old(bs)[i + 2].at - old(bs)[i + 1].at - ITEM) > size + MINIALLOC)
      ensures r == Some(h + ITEM) ==>
        var len := old(bs)[i + 1].at - h - ITEM;
        BlockAt(h + ITEM).end
        == if len < size || size + ITEM + MINIALLOC < len then h + ITEM + size else old(bs)[i + 1].at
      ensures r.Some? && r.value != h + ITEM ==> BlockAt(r.value).end - r.value < size + ITEM + MINIALLOC
      // where the layout ends up when the block stays where it is
      ensures !Moves(old(bs), i, size) ==>
        bs == Reshaped(old(bs), i, size) && fr == RingReshaped(old(fr), old(bs), i, size)
      ensures SizeOf(old(bs), i) >= size && !Cuts(old(bs), i, size) ==> memory[..] == old(memory[..])
      // which block it moves to
      ensures r.Some? && Moves(old(bs), i, size) ==>
        && FirstInRing(old(fr), old(bs), j, size) && Fits(old(bs), j, size) && r.value == old(bs)[j].at + ITEM
        && MovedInto(old(bs), old(fr), j, size, h + ITEM, bs, fr)
      // the peak
      ensures r.None? || SizeOf(old(bs), i) >= size ==> maxUsedSize == old(maxUsedSize)
      ensures Grows(old(bs), i, size) ==> maxUsedSize == Max(old(maxUsedSize), InUse(bs, poolSize))
      ensures r.Some? && Moves(old(bs), i, size) ==>
        maxUsedSize == Max(old(maxUsedSize), InUse(Taken(old(bs), j, size), poolSize))
    {
      hide Tiled, Sum, FreeSet, Blocks, Frees, Live, Coalesced, Insert, Shrink, Stretch, Taken, Release, FirstInRing;
      hide Need;
      hide SamePayload, OthersKept, Starts, Held, Sound, OnlyItems, Resized, TakenIn, MovedInto;
      ghost var s0, b0, x := memory[..], bs, ExtentOf(bs, i);
      j := 0;
      HandedOutLive(bs, i);
      NextAfter(bs, i);
      StaysExactly(bs, i, size);
      LastUsed(bs);
      Begin();
      BlockReads(next, prev, used, bs, i);
      BlockReads(next, prev, used, bs, i + 1);
      StartHere(bs, i);
      StartHere(bs, i + 1);
      var oldSize := Next(h) - h - ITEM;
      if size > oldSize {
        var n := Next(h);
        if !Used(n) {
          NextAfter(bs, i + 1);
          var nextSize := Next(n) - n - ITEM;
          if GrowGuard(oldSize, nextSize, size) {
            GuardHonest(bs, i, size);
            Grow(h, n, size, i);
            ResizedInPlace(s0, b0, x, Extent(h, h + ITEM + size), h + ITEM, size);
            LiveFound(bs, Extent(h, h + ITEM + size));
            return Some(h + ITEM), j;
          }
        }
        r, j := Move(h, size, oldSize, i);
        return;
      }
      if size + ITEM + MINIALLOC >= oldSize {
        SoundHeld();
        assert Live(bs) == Live(bs) - iset{x} + iset{x};
        ResizedInPlace(s0, b0, x, x, h + ITEM, size);
        LiveFound(bs, x);
        return Some(h + ITEM), j;
      }
      Cut(h, size, i);
      ResizedInPlace(s0, b0, x, Extent(h, h + ITEM + size), h + ITEM, size);
      LiveFound(bs, Extent(h, h + ITEM + size));
      return Some(h + ITEM), j;
    }

    method Realloc(p: Option<int>, bytes: u32) returns (r: Option<int>, ghost j: nat)
      requires Valid() && (p.Some? ==> Allocated(p.value))
      requires p.Some? && bytes != 0 ==> !Overruns(bs, IndexOf(p.value), Need(bytes))
      modifies this, memory
      ensures Valid()
      // when the result is null
      ensures r.None? <==>
        || bytes == 0
        || ((p.Some? ==> Moves(old(bs), old(IndexOf(p.value)), Need(bytes)))
            && Refused(old(bs), old(availableSize), Need(bytes)))
      // a request for nothing frees the block, a failed one changes nothing
      ensures bytes == 0 && p.Some? ==>
        && Live(bs) == old(Live(bs)) - iset{old(BlockAt(p.value))}
        && OthersKept(old(memory[..]), old(bs), memory[..], bs, old(BlockAt(p.value)), ITEM)
      ensures r.None? && (bytes != 0 || p.None?) ==> bs == old(bs) && memory[..] == old(memory[..])
      // and leaves the free ring as it is, while a free puts the block in front or joins it to its neighbours
      ensures bytes == 0 && p.Some? ==> fr == RingAfterFree(old(fr), old(bs), old(IndexOf(p.value)))
      ensures r.None? && (bytes != 0 || p.None?) ==> fr == old(fr)
      // a null pointer asks for a new block
      ensures r.Some? && p.None? ==>
        && j + 1 < |old(bs)| && fr == RingAfterAlloc(old(fr), old(bs), j, Need(bytes))
        && Allocated(r.value) && BlockAt(r.value).end >= r.value + Need(bytes)
        && BlockAt(r.value) !in old(Live(bs)) && Live(bs) == old(Live(bs)) + iset{BlockAt(r.value)}
        && OthersKept(old(memory[..]), old(bs), memory[..], bs, BlockAt(r.value), ITEM)
      // any other block is resized, where it is unless it has to grow and cannot
      ensures r.Some? && p.Some? ==>
        && Resized(old(memory[..]), old(bs), old(BlockAt(p.value)), p.value, r.value, Need(bytes))
        && (r == p <==> !Moves(old(bs), old(IndexOf(p.value)), Need(bytes)))
        && (r == p ==>
              && bs == Reshaped(old(bs), old(IndexOf(p.value)), Need(bytes))
              && fr == RingReshaped(old(fr), old(bs), old(IndexOf(p.value)), Need(bytes)))
        && (r != p ==> j + 1 < |old(bs)| && MovedInto(old(bs), old(fr), j, Need(bytes), p.value, bs, fr))
      // in numbers: when the block stays, where it ends then, and how long a new one is at most
      ensures r.Some? && p.Some? ==>
        var i, need := old(IndexOf(p.value)), Need(bytes); var len := old(bs)[i + 1].at - p.value;
        && (r == p <==>
              || need <= len
              || (i + 2 < |old(bs)| && !old(bs)[i + 1].used
                  && len + (old(bs)[i + 2].at - old(bs)[i + 1].at - ITEM) > need + MINIALLOC))
        && (r == p ==>
              BlockAt(p.value).end
              == if len < need || need + ITEM + MINIALLOC < len then p.value + need else old(bs)[i + 1].at)
      ensures r.Some? && r != p ==> BlockAt(r.value).end - r.value < Need(bytes) + ITEM + MINIALLOC
      // what comes back holds the bytes asked for, except for the three sizes that wrap
      ensures r.Some? ==> Allocated(r.value) && (BlockAt(r.value).end - r.value >= bytes <==> bytes <= WORD - ALIGN)
      // the peak
      ensures r.None? ==> maxUsedSize == old(maxUsedSize)
      ensures r.Some? && r != p ==>
        && FirstInRing(old(fr), old(bs), j, Need(bytes)) && Fits(old(bs), j, Need(bytes))
        && r.value == old(bs)[j].at + ITEM
        && maxUsedSize == Max(old(maxUsedSize), InUse(Taken(old(bs), j, Need(bytes)), poolSize))
      ensures r.Some? && r == p ==>
        maxUsedSize == if SizeOf(old(bs), old(IndexOf(p.value))) < Need(bytes)
                       then Max(old(maxUsedSize), InUse(bs, poolSize)) else old(maxUsedSize)
    {
      hide Tiled, Sum, FreeSet, Blocks, Frees, Live, Coalesced, Taken, Release, FirstInRing, Need, Held, Starts;
      hide OthersKept, SamePayload, RingAfterAlloc, RingAfterFree, RingReshaped, MovedInto;
      NeedTwice(bytes);
      NeedCovers(bytes, poolSize);
      j := 0;
      if bytes == 0 {
        Free(p);
        return None, j;
      }
      if p.None? {
        r, j := Alloc(Need(bytes));
        if r.Some? {
          HandedOutLive(bs, j);
          LiveFound(bs, ExtentOf(bs, j));
          InPool(bs, IndexOf(r.value), poolSize);
        }
        return;
      }
      r, j := Resize(p.value - ITEM, Need(bytes), IndexOf(p.value));
      if r.Some? {
        InPool(bs, IndexOf(r.value), poolSize);
      }
    }
  }

  /** A request of 2^32 - 1 bytes is rounded to zero and gets a block of twelve bytes. */
  method WrapShortens() returns (h: Heap, r: Option<int>)
    ensures fresh(h) && h.Valid() && r.Some? && h.Allocated(r.value) && h.BlockAt(r.value).end == r.value + MINIALLOC
  {
    h := new Heap(1000);
    assert Fits(h.bs, 0, MINIALLOC);
    ghost var i;
    r, i := h.Alloc(0xFFFF_FFFF);
    assert i == 0;
    LiveFound(h.bs, ExtentOf(h.bs, 0)) by { HandedOutLive(h.bs, 0); }
  }

  lemma CutToMinimum(bs: seq<Block>)
    requires bs == [Block(0, true), Block(124, false), Block(976, true)]
    ensures Need(0xFFFF_FFFF) == MINIALLOC
    ensures Cuts(bs, 0, MINIALLOC) && Reshaped(bs, 0, MINIALLOC) == [Block(0, true), Block(36, false), Block(976, true)]
  {
    var m := Insert(bs, 0, 36);
    assert m == [Block(0, true), Block(36, false), Block(124, false), Block(976, true)];
    assert MergeNext(m, 1) == [Block(0, true), Block(36, false), Block(976, true)];
  }

  /** A block of a hundred bytes resized to 2^32 - 1 bytes is cut to twelve and handed back. */
  method WrapCuts() returns (h: Heap, p: Option<int>, r: Option<int>, ghost x: Extent)
    ensures fresh(h) && h.Valid() && r.Some? && r == p
    ensures x.end - r.value >= 100 && h.Allocated(r.value) && h.BlockAt(r.value).end == r.value + MINIALLOC
  {
    hide Heap.Rings, Coalesced, Sum, OthersKept, SamePayload, Live, FirstInRing, Cuts, Grows, Reshaped;
    h := new Heap(1000);
    assert Fits(h.bs, 0, 100);
    ghost var i, j;
    p, i := h.Alloc(100);
    assert h.bs == [Block(0, true), Block(124, false), Block(976, true)];
    CutToMinimum(h.bs);
    x := h.BlockAt(p.value);
    r, j := h.Realloc(p, 0xFFFF_FFFF);
  }

  /** A block of sixteen bytes with unused space behind it: the guard lets a request
      of 2^32 - 8 bytes through. */
  method GuardOverruns() returns (h: Heap, p: Option<int>)
    ensures fresh(h) && h.Valid() && p.Some? && h.Allocated(p.value) && Overruns(h.bs, h.IndexOf(p.value), 0xFFFF_FFF8)
  {
    h := new Heap(1000);
    assert Fits(h.bs, 0, 16);
    ghost var i;
    p, i := h.Alloc(16);
  }
}
