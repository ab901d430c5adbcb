/** The small-memory heap: first fit over blocks whose headers live in the heap
    itself.  Offsets and sizes are counted in 4-byte words, the alignment of
    every header and of every request. */
module SmallMem {
  import opened Machine
  import opened Tiling

  const HEAP_MAGIC: int := 0x1ea0
  const HDR: nat := 3          // magic and used flag, next, prev
  const MIN_WORDS: nat := 3    // MIN_SIZE_ALIGNED
  const GAP: nat := HDR

  /** The first header word: the magic number below, the used flag above. */
  function Tag(used: bool): int {
    HEAP_MAGIC + if used then 0x1_0000 else 0
  }

  predicate IsUsed(w: int) {
    w >= 0x1_0000
  }

  /** What a block header says: its flag and its two links.  The end marker's
      back link is never read, and not kept up to date. */
  datatype Fields = Fields(used: bool, next: nat, prev: nat, isEnd: bool)

  ghost predicate Written(s: seq<int>, p: nat, f: Fields) {
    && p + HDR <= |s|
    && s[p] == Tag(f.used)
    && s[p + 1] == f.next
    && (f.isEnd || s[p + 2] == f.prev)
  }

  function FieldsOf(bs: seq<Block>, i: nat): Fields
    requires i < |bs|
  {
    Fields(bs[i].used,
           if i + 1 < |bs| then bs[i + 1].at else bs[i].at,
           if i == 0 then 0 else bs[i - 1].at,
           i + 1 == |bs|)
  }

  /** The header of block `i`, as written in memory `s`, describes layout `bs`. */
  ghost predicate Header(s: seq<int>, bs: seq<Block>, i: nat)
    requires i < |bs|
  {
    Written(s, bs[i].at, FieldsOf(bs, i))
  }

  ghost predicate Rep(s: seq<int>, bs: seq<Block>) {
    forall i: nat | i < |bs| :: Header(s, bs, i)
  }

  /** Word `a` belongs to the payload of a block in use. */
  ghost predicate Owned(bs: seq<Block>, a: int) {
    exists i: nat :: InBlock(bs, i, a)
  }

  ghost predicate InBlock(bs: seq<Block>, i: nat, a: int) {
    i + 1 < |bs| && bs[i].used && bs[i].at + HDR <= a < bs[i + 1].at
  }

  /** No word owned under `bs` differs between `s` and `t`. */
  ghost predicate Keeps(s: seq<int>, t: seq<int>, bs: seq<Block>) {
    |s| == |t| && forall a {:trigger Owned(bs, a)} | 0 <= a < |s| && Owned(bs, a) :: t[a] == s[a]
  }

  function MarkWords(s: seq<int>, p: nat, used: bool): seq<int>
    requires p < |s|
  {
    s[p := Tag(used)]
  }

  /** Joins the block at `p` with the one before offset `n`. */
  function LinkWords(s: seq<int>, p: nat, n: nat): seq<int>
    requires p + HDR <= |s| && n + HDR <= |s|
  {
    s[p + 1 := n][n + 2 := p]
  }

  /** Writes the header of a free block at `q`, between those at `p` and `n`. */
  function CutWords(s: seq<int>, p: nat, q: nat, n: nat, end: nat): seq<int>
    requires p + HDR <= |s| && q + HDR <= |s| && n + HDR <= |s|
  {
    var t := s[q := Tag(false)][q + 1 := n][q + 2 := p][p + 1 := q];
    if n != end then t[n + 2 := q] else t
  }

  lemma Ascending(bs: seq<Block>, i: nat)
    requires Tiled(bs, GAP) && i < |bs|
    ensures forall k: nat | k < i :: bs[k].at < bs[i].at
    ensures forall k: nat | i < k < |bs| :: bs[i].at < bs[k].at
  {
    forall k: nat | k < i ensures bs[k].at < bs[i].at { Apart(bs, GAP, k, i); }
    forall k: nat | i < k < |bs| ensures bs[i].at < bs[k].at { Apart(bs, GAP, i, k); }
  }

  lemma HeaderNotOwned(bs: seq<Block>, j: nat, a: int)
    requires Tiled(bs, GAP) && j < |bs| && bs[j].at <= a < bs[j].at + HDR
    ensures !Owned(bs, a)
  {
    forall i: nat | i + 1 < |bs| ensures !InBlock(bs, i, a) {
      if i + 1 < j { Apart(bs, GAP, i + 1, j); }
      if j < i { Apart(bs, GAP, j, i); }
    }
  }

  lemma RepMark(s: seq<int>, bs: seq<Block>, i: nat, used: bool)
    requires Rep(s, bs) && Tiled(bs, GAP) && i < |bs|
    ensures bs[i].at < |s|
    ensures Rep(MarkWords(s, bs[i].at, used), Mark(bs, i, used)) && Keeps(s, MarkWords(s, bs[i].at, used), bs)
  {
    assert Header(s, bs, i);
    HeaderNotOwned(bs, i, bs[i].at);
    var t, r := MarkWords(s, bs[i].at, used), Mark(bs, i, used);
    forall k: nat | k < |r| ensures Header(t, r, k) {
      assert Header(s, bs, k);
      if k < i { Apart(bs, GAP, k, i); } else if k > i { Apart(bs, GAP, i, k); }
    }
  }

  // ----- joining a block to its predecessor

  lemma LinkWrites(s: seq<int>, p: nat, n: nat, q: nat, f: Fields)
    requires p + GAP <= n && n + HDR <= |s| && Written(s, q, f)
    requires q == p || q == n || q + GAP <= p || p + GAP <= q
    requires q == n || q + GAP <= n || n + GAP <= q
    ensures Written(LinkWords(s, p, n), q,
      if q == p then f.(next := n) else if q == n && !f.isEnd then f.(prev := p) else f)
  {
  }

  lemma FieldsDrop(bs: seq<Block>, i: nat, k: nat)
    requires 0 < i < |bs| - 1 && k < |bs| - 1
    ensures var m := if k < i then k else k + 1; var f := FieldsOf(bs, m);
      && Drop(bs, i)[k] == bs[m]
      && FieldsOf(Drop(bs, i), k) ==
         if k + 1 == i then f.(next := bs[i + 1].at) else if k == i then f.(prev := bs[i - 1].at) else f
  {
  }

  lemma HeaderDrop(s: seq<int>, bs: seq<Block>, i: nat, k: nat)
    requires Rep(s, bs) && Tiled(bs, GAP) && 0 < i < |bs| - 1 && k < |bs| - 1
    ensures bs[i - 1].at + HDR <= |s| && bs[i + 1].at + HDR <= |s|
    ensures Header(LinkWords(s, bs[i - 1].at, bs[i + 1].at), Drop(bs, i), k)
  {
    var m := if k < i then k else k + 1;
    assert Header(s, bs, i - 1) && Header(s, bs, i + 1) && Header(s, bs, m);
    FieldsDrop(bs, i, k);
    LinkWrites(s, bs[i - 1].at, bs[i + 1].at, bs[m].at, FieldsOf(bs, m));
  }

  lemma LinkKeeps(s: seq<int>, bs: seq<Block>, p: nat, n: nat)
    requires p + HDR <= |s| && n + HDR <= |s| && !Owned(bs, p + 1) && !Owned(bs, n + 2)
    ensures Keeps(s, LinkWords(s, p, n), bs)
  {}

  lemma RepDrop(s: seq<int>, bs: seq<Block>, i: nat)
    requires Rep(s, bs) && Tiled(bs, GAP) && 0 < i < |bs| - 1
    ensures bs[i - 1].at + HDR <= |s| && bs[i + 1].at + HDR <= |s|
    ensures var t := LinkWords(s, bs[i - 1].at, bs[i + 1].at);
      Rep(t, Drop(bs, i)) && Keeps(s, t, Drop(bs, i))
  {
    hide Header, Owned, Tiled, Keeps, LinkWords;
    var r := Drop(bs, i);
    DropTiled(bs, i, GAP);
    HeaderDrop(s, bs, i, 0);
    assert r[i - 1] == bs[i - 1] && r[i] == bs[i + 1];
    HeaderNotOwned(r, i - 1, bs[i - 1].at + 1);
    HeaderNotOwned(r, i, bs[i + 1].at + 2);
    LinkKeeps(s, r, bs[i - 1].at, bs[i + 1].at);
    var t := LinkWords(s, bs[i - 1].at, bs[i + 1].at);
    forall k: nat | k < |r| ensures Header(t, r, k) {
      HeaderDrop(s, bs, i, k);
    }
  }

  // ----- cutting a block in two

  lemma CutWrites(s: seq<int>, p: nat, q: nat, n: nat, end: nat, x: nat, f: Fields)
    requires p + GAP <= q && q + GAP <= n && n + HDR <= |s| && Written(s, x, f)
    requires x == p || x == n || x + GAP <= p || n + GAP <= x
    requires x == n ==> (f.isEnd <==> n == end)
    ensures Written(CutWords(s, p, q, n, end), q, Fields(false, n, p, false))
    ensures Written(CutWords(s, p, q, n, end), x,
      if x == p then f.(next := q) else if x == n && !f.isEnd then f.(prev := q) else f)
  {
  }

  lemma FieldsInsert(bs: seq<Block>, i: nat, at: nat, k: nat)
    requires i < |bs| - 1 && k <= |bs|
    ensures k == i + 1 ==> FieldsOf(Insert(bs, i, at), k) == Fields(false, bs[i + 1].at, bs[i].at, false)
    ensures Insert(bs, i, at)[i + 1] == Block(at, false)
    ensures k != i + 1 ==> var m := if k <= i then k else k - 1; var f := FieldsOf(bs, m);
      && Insert(bs, i, at)[k] == bs[m]
      && FieldsOf(Insert(bs, i, at), k) ==
         if k == i then f.(next := at) else if k == i + 2 then f.(prev := at) else f
  {
  }

  lemma HeaderInsert(s: seq<int>, bs: seq<Block>, i: nat, at: nat, k: nat)
    requires Rep(s, bs) && Tiled(bs, GAP) && i < |bs| - 1 && k <= |bs|
    requires bs[i].at + GAP <= at && at + GAP <= bs[i + 1].at
    ensures bs[i].at + HDR <= |s| && at + HDR <= |s| && bs[i + 1].at + HDR <= |s|
    ensures Header(CutWords(s, bs[i].at, at, bs[i + 1].at, bs[|bs| - 1].at), Insert(bs, i, at), k)
  {
    var m := if k <= i then k else k - 1;
    assert Header(s, bs, i) && Header(s, bs, i + 1) && Header(s, bs, m);
    FieldsInsert(bs, i, at, k);
    CutWrites(s, bs[i].at, at, bs[i + 1].at, bs[|bs| - 1].at, bs[m].at, FieldsOf(bs, m));
  }

  lemma RepInsert(s: seq<int>, bs: seq<Block>, i: nat, at: nat)
    requires Rep(s, bs) && Tiled(bs, GAP) && i < |bs| - 1
    requires bs[i].at + GAP <= at && at + GAP <= bs[i + 1].at
    ensures bs[i].at + HDR <= |s| && at + HDR <= |s| && bs[i + 1].at + HDR <= |s|
    ensures var t := CutWords(s, bs[i].at, at, bs[i + 1].at, bs[|bs| - 1].at);
      Rep(t, Insert(bs, i, at)) && Keeps(s, t, Insert(bs, i, at))
  {
    hide Owned, Tiled;
    var r := Insert(bs, i, at);
    HeaderInsert(s, bs, i, at, 0);
    var t := CutWords(s, bs[i].at, at, bs[i + 1].at, bs[|bs| - 1].at);
    forall k: nat | k < |r| ensures Header(t, r, k) {
      HeaderInsert(s, bs, i, at, k);
    }
    CutNotOwned(bs, i, at);
  }

  /** The words a split writes belong to no payload. */
  lemma CutNotOwned(bs: seq<Block>, i: nat, at: nat)
    requires Tiled(bs, GAP) && i < |bs| - 1 && bs[i].at + GAP <= at && at + GAP <= bs[i + 1].at
    ensures forall a | a in {bs[i].at + 1, at, at + 1, at + 2, bs[i + 1].at + 2} :: !Owned(Insert(bs, i, at), a)
  {
    hide Tiled, Owned;
    var r := Insert(bs, i, at);
    InsertTiled(bs, i, at, GAP);
    assert r[i] == bs[i] && r[i + 1].at == at && r[i + 2] == bs[i + 1];
    HeaderNotOwned(r, i, bs[i].at + 1);
    HeaderNotOwned(r, i + 1, at);
    HeaderNotOwned(r, i + 1, at + 1);
    HeaderNotOwned(r, i + 1, at + 2);
    HeaderNotOwned(r, i + 2, bs[i + 1].at + 2);
  }

  // ----- the hint for the search

  /** `lfree` is the header of a free block, or the end marker. */
  ghost predicate FreeHead(bs: seq<Block>, lfree: nat) {
    exists i: nat :: i < |bs| && bs[i].at == lfree && (!bs[i].used || i + 1 == |bs|)
  }

  /** No free block lies below `lfree`. */
  ghost predicate Lowest(bs: seq<Block>, lfree: nat) {
    forall i | 0 <= i < |bs| - 1 && !bs[i].used :: lfree <= bs[i].at
  }

  ghost predicate NoFreeBetween(bs: seq<Block>, from: nat, to: nat) {
    forall i | 0 <= i < |bs| - 1 && !bs[i].used :: bs[i].at < from || to <= bs[i].at
  }

  /** `to` is the header of the first free block from `from` on, or the end marker if there is none. */
  ghost predicate NextFree(bs: seq<Block>, from: nat, to: nat) {
    FreeHead(bs, to) && from <= to && NoFreeBetween(bs, from, to)
  }

  lemma NextFreeIsOne(bs: seq<Block>, from: nat, a: nat, b: nat)
    requires Tiled(bs, GAP) && NextFree(bs, from, a) && NextFree(bs, from, b)
    ensures a == b
  {
    var i: nat :| i < |bs| && bs[i].at == a && (!bs[i].used || i + 1 == |bs|);
    var j: nat :| j < |bs| && bs[j].at == b && (!bs[j].used || j + 1 == |bs|);
    if i < |bs| - 1 { Apart(bs, GAP, i, |bs| - 1); }
    if j < |bs| - 1 { Apart(bs, GAP, j, |bs| - 1); }
  }

  lemma NextFreeHere(bs: seq<Block>, lfree: nat)
    requires FreeHead(bs, lfree)
    ensures NextFree(bs, lfree, lfree)
  {}

  lemma NextFreeHead(bs: seq<Block>, from: nat, to: nat)
    requires NextFree(bs, from, to)
    ensures FreeHead(bs, to)
  {}

  lemma NothingBetween(bs: seq<Block>, lfree: nat)
    ensures NoFreeBetween(bs, lfree, lfree)
  {}

  lemma NextFreeFound(bs: seq<Block>, from: nat, to: nat)
    requires FreeHead(bs, to) && from <= to && NoFreeBetween(bs, from, to)
    ensures NextFree(bs, from, to)
  {}

  lemma LowestMoves(bs: seq<Block>, from: nat, to: nat)
    requires NextFree(bs, from, to)
    ensures Lowest(bs, from) ==> Lowest(bs, to)
  {}

  function HintNext(bs: seq<Block>, i: nat, lfree: nat): nat
    requires i + 1 < |bs|
  {
    if !bs[i + 1].used && lfree == bs[i + 1].at then bs[i].at else lfree
  }

  function HintPrev(bs: seq<Block>, i: nat, lfree: nat): nat
    requires i < |bs|
  {
    if i > 0 && !bs[i - 1].used && lfree == bs[i].at then bs[i - 1].at else lfree
  }

  /** The hint after block `i` has been joined with its free neighbours. */
  function HintPlug(bs: seq<Block>, i: nat, lfree: nat): nat
    requires i + 1 < |bs|
  {
    HintPrev(bs, i, HintNext(bs, i, lfree))
  }

  lemma DropAt(bs: seq<Block>, i: nat, k: nat)
    requires i < |bs| && k < |bs| - 1
    ensures Drop(bs, i)[k] == bs[if k < i then k else k + 1]
  {}

  lemma HeadDrop(bs: seq<Block>, i: nat, lfree: nat)
    requires 0 < i < |bs| - 1 && !bs[i - 1].used && FreeHead(bs, lfree)
    ensures FreeHead(Drop(bs, i), if lfree == bs[i].at then bs[i - 1].at else lfree)
  {
    var j: nat :| j < |bs| && bs[j].at == lfree && (!bs[j].used || j + 1 == |bs|);
    DropAt(bs, i, i - 1);
    if j != i { DropAt(bs, i, if j < i then j else j - 1); }
  }

  lemma LowestDrop(bs: seq<Block>, i: nat, lfree: nat)
    requires Tiled(bs, GAP) && 0 < i < |bs| - 1 && !bs[i - 1].used && Lowest(bs, lfree)
    ensures lfree != bs[i].at && Lowest(Drop(bs, i), lfree)
  {
    Apart(bs, GAP, i - 1, i);
    var r := Drop(bs, i);
    forall k: nat | k < |r| - 1 && !r[k].used ensures lfree <= r[k].at { DropAt(bs, i, k); }
  }

  lemma HintDrop(bs: seq<Block>, i: nat, lfree: nat)
    requires Tiled(bs, GAP) && 0 < i < |bs| - 1 && !bs[i - 1].used && FreeHead(bs, lfree)
    ensures var h := if lfree == bs[i].at then bs[i - 1].at else lfree;
      FreeHead(Drop(bs, i), h) && (Lowest(bs, lfree) ==> h == lfree && Lowest(Drop(bs, i), h))
  {
    hide FreeHead, Lowest, Tiled, Drop;
    HeadDrop(bs, i, lfree);
    if Lowest(bs, lfree) { LowestDrop(bs, i, lfree); }
  }

  /** Memory `s` holds a tiling of the region. */
  ghost predicate Laid(s: seq<int>, bs: seq<Block>, size: nat) {
    && |s| == size + 2 * HDR
    && Tiled(bs, GAP)
    && bs[|bs| - 1].at == size + HDR
    && Rep(s, bs)
  }

  ghost predicate Shaped(s: seq<int>, bs: seq<Block>, lfree: nat, size: nat) {
    Laid(s, bs, size) && FreeHead(bs, lfree)
  }

  /** Moreover, no two neighbouring blocks are free. */
  ghost predicate Good(s: seq<int>, bs: seq<Block>, lfree: nat, size: nat) {
    Shaped(s, bs, lfree, size) && Coalesced(bs)
  }

  lemma Reads(s: seq<int>, bs: seq<Block>, i: nat)
    requires Rep(s, bs) && i < |bs|
    ensures var p := bs[i].at;
      && p + HDR <= |s| && (IsUsed(s[p]) <==> bs[i].used)
      && s[p + 1] == (if i + 1 < |bs| then bs[i + 1].at else p)
      && (i + 1 < |bs| ==> s[p + 2] == if i == 0 then 0 else bs[i - 1].at)
  {
    assert Header(s, bs, i);
  }

  /** Free block `i` absorbed by its free predecessor, in memory. */
  lemma JoinStep(s: seq<int>, bs: seq<Block>, i: nat, lfree: nat, size: nat)
    requires Shaped(s, bs, lfree, size) && 0 < i < |bs| - 1 && !bs[i - 1].used && !bs[i].used
    ensures bs[i - 1].at + HDR <= |s| && bs[i + 1].at + HDR <= |s|
    ensures var t := LinkWords(s, bs[i - 1].at, bs[i + 1].at);
      var h := if lfree == bs[i].at then bs[i - 1].at else lfree;
      && Shaped(t, Drop(bs, i), h, size) && Keeps(s, t, Drop(bs, i))
      && (Lowest(bs, lfree) ==> h == lfree && Lowest(Drop(bs, i), h))
  {
    RepDrop(s, bs, i);
    DropTiled(bs, i, GAP);
    HintDrop(bs, i, lfree);
  }

  lemma ForwardStep(s: seq<int>, bs: seq<Block>, i: nat, lfree: nat, size: nat)
    requires Shaped(s, bs, lfree, size) && i < |bs| - 1 && !bs[i].used
    ensures var p := bs[i].at;
      && p + HDR <= |s| && s[p + 1] == bs[i + 1].at != p && bs[i + 1].at + HDR <= |s|
      && (!IsUsed(s[bs[i + 1].at]) <==> !bs[i + 1].used)
      && (!bs[i + 1].used ==> bs[i + 1].at != size + HDR && i + 2 < |bs|)
      && (!bs[i + 1].used ==> s[bs[i + 1].at + 1] == bs[i + 2].at && bs[i + 2].at + HDR <= |s|)
      && var t := if bs[i + 1].used then s else LinkWords(s, p, bs[i + 2].at);
         && Shaped(t, MergeNext(bs, i), HintNext(bs, i, lfree), size)
         && Keeps(s, t, MergeNext(bs, i))
         && (Lowest(bs, lfree) ==> Lowest(MergeNext(bs, i), HintNext(bs, i, lfree)))
  {
    hide Rep, Keeps, Lowest, FreeHead, LinkWords, Owned;
    Reads(s, bs, i);
    Reads(s, bs, i + 1);
    Apart(bs, GAP, i, i + 1);
    if !bs[i + 1].used {
      JoinStep(s, bs, i + 1, lfree, size);
      Reads(s, bs, i + 2);
      Apart(bs, GAP, i + 1, i + 2);
    } else {
      KeepsSame(s, bs);
    }
  }

  lemma BackwardStep(s: seq<int>, bs: seq<Block>, i: nat, lfree: nat, size: nat)
    requires Shaped(s, bs, lfree, size) && i < |bs| - 1 && !bs[i].used
    ensures var p := bs[i].at;
      && p + HDR <= |s| && bs[i + 1].at + HDR <= |s|
      && s[p + 1] == bs[i + 1].at && s[p + 2] == (if i == 0 then p else bs[i - 1].at)
      && (i > 0 ==> bs[i - 1].at != p && bs[i - 1].at + HDR <= |s| && (!IsUsed(s[bs[i - 1].at]) <==> !bs[i - 1].used))
      && var t := if i == 0 || bs[i - 1].used then s else LinkWords(s, bs[i - 1].at, bs[i + 1].at);
         && Shaped(t, MergePrev(bs, i), HintPrev(bs, i, lfree), size)
         && Keeps(s, t, MergePrev(bs, i))
         && (Lowest(bs, lfree) ==> Lowest(MergePrev(bs, i), HintPrev(bs, i, lfree)))
  {
    Reads(s, bs, i);
    Reads(s, bs, i + 1);
    if i > 0 {
      Reads(s, bs, i - 1);
      Apart(bs, GAP, i - 1, i);
      if !bs[i - 1].used {
        JoinStep(s, bs, i, lfree, size);
      }
    }
  }

  // ----- whole operations, on memory and layout

  lemma OwnedByLive(bs: seq<Block>, a: int)
    ensures Owned(bs, a) <==> exists x :: IsLive(bs, x) && x.start + HDR <= a < x.end
  {
    forall i: nat | InBlock(bs, i, a) ensures IsLive(bs, ExtentOf(bs, i)) {
      assert HandedOut(bs, i, ExtentOf(bs, i));
    }
    forall i: nat, x | HandedOut(bs, i, x) && x.start + HDR <= a < x.end ensures InBlock(bs, i, a) {}
  }

  lemma OwnedMono(b1: seq<Block>, b2: seq<Block>, a: int)
    requires Live(b2) <= Live(b1) && Owned(b2, a)
    ensures Owned(b1, a)
  {
    OwnedByLive(b1, a);
    OwnedByLive(b2, a);
    var x :| IsLive(b2, x) && x.start + HDR <= a < x.end;
    assert x in Live(b2);
  }

  lemma KeepsSame(s: seq<int>, bs: seq<Block>)
    ensures Keeps(s, s, bs)
  {}

  lemma KeepsThen(s: seq<int>, t: seq<int>, u: seq<int>, b1: seq<Block>, b2: seq<Block>)
    requires Keeps(s, t, b1) && Keeps(t, u, b2) && Live(b2) <= Live(b1)
    ensures Keeps(s, u, b2)
  {
    forall a | 0 <= a < |s| && Owned(b2, a) ensures u[a] == s[a] {
      OwnedMono(b1, b2, a);
    }
  }

  lemma KeepsFewer(s: seq<int>, t: seq<int>, b1: seq<Block>, b2: seq<Block>)
    requires Keeps(s, t, b1) && Live(b2) <= Live(b1)
    ensures Keeps(s, t, b2)
  {
    assert Keeps(t, t, b2);
    KeepsThen(s, t, t, b1, b2);
  }

  /** The hint after block `i` is marked free. */
  function HintFree(bs: seq<Block>, i: nat, lfree: nat): nat
    requires i < |bs|
  {
    if bs[i].at < lfree then bs[i].at else lfree
  }

  /** The hint after used block `i` has been freed: it moves down to the block the freed one is
      part of, or stays below it. */
  function HintAfterFree(bs: seq<Block>, i: nat, lfree: nat): nat
    requires i < |bs|
  {
    if lfree < bs[i].at then lfree else if i > 0 && !bs[i - 1].used then bs[i - 1].at else bs[i].at
  }

  /** `h` is where the block begins that word `a` lies in. */
  ghost predicate StartOf(bs: seq<Block>, a: nat, h: nat) {
    exists k: nat :: BlockHas(bs, k, a) && bs[k].at == h
  }

  ghost predicate BlockHas(bs: seq<Block>, k: nat, a: nat) {
    k < |bs| && bs[k].at <= a && (k + 1 < |bs| ==> a < bs[k + 1].at)
  }

  lemma HintStands(s: seq<int>, bs: seq<Block>, lfree: nat, size: nat)
    requires Good(s, bs, lfree, size)
    ensures StartOf(bs, lfree, lfree)
  {
    hide Rep, StartOf;
    StartOfHead(bs, lfree);
  }

  lemma StartOfHead(bs: seq<Block>, h: nat)
    requires Tiled(bs, GAP) && FreeHead(bs, h)
    ensures StartOf(bs, h, h)
  {
    var k: nat :| k < |bs| && bs[k].at == h && (!bs[k].used || k + 1 == |bs|);
    if k + 1 < |bs| { Apart(bs, GAP, k, k + 1); }
    assert BlockHas(bs, k, h);
  }

  /** After a free the hint is on the block of the new layout that has the lower one of the old hint and the
      block freed. */
  lemma FreeHintStart(bs: seq<Block>, i: nat, lfree: nat)
    requires Tiled(bs, GAP) && Coalesced(bs) && i < |bs| - 1 && bs[i].used
    requires FreeHead(Release(bs, i), HintAfterFree(bs, i, lfree))
    ensures StartOf(Release(bs, i), Min(lfree, bs[i].at), HintAfterFree(bs, i, lfree))
  {
    var r, h := Release(bs, i), HintAfterFree(bs, i, lfree);
    ReleaseKeeps(bs, i, GAP);
    StartOfHead(r, h);
    if lfree >= bs[i].at && i > 0 && !bs[i - 1].used {
      JoinedBefore(bs, i);
      Apart(bs, GAP, i - 1, i);
      assert BlockHas(r, i - 1, bs[i].at);
    }
  }

  /** A block freed behind a free one is part of that. */
  lemma JoinedBefore(bs: seq<Block>, i: nat)
    requires Tiled(bs, GAP) && 0 < i < |bs| - 1 && !bs[i - 1].used
    ensures var r := Release(bs, i); i < |r| && r[i - 1] == bs[i - 1] && r[i].at > bs[i].at
  {
    var m := MergeNext(Mark(bs, i, false), i);
    assert m[i - 1] == bs[i - 1] && i + 1 < |m|;
    assert m[i + 1].at == if bs[i + 1].used then bs[i + 1].at else bs[i + 2].at;
    Apart(bs, GAP, i, i + 1);
    if !bs[i + 1].used { Apart(bs, GAP, i, i + 2); }
  }

  /** After a cut it is on the block of the new layout that has the old hint. */
  lemma CutHintStart(bs: seq<Block>, i: nat, at: nat, lfree: nat)
    requires Tiled(bs, GAP) && Coalesced(bs) && i < |bs| - 1 && bs[i].used
    requires bs[i].at + GAP <= at && at + GAP <= bs[i + 1].at
    requires FreeHead(Shrink(bs, i, at), HintAfterCut(bs, i, at, lfree))
    ensures StartOf(Shrink(bs, i, at), lfree, HintAfterCut(bs, i, at, lfree))
  {
    var r, h := Shrink(bs, i, at), HintAfterCut(bs, i, at, lfree);
    ShrinkKeeps(bs, i, at, GAP);
    StartOfHead(r, h);
    if h != lfree {
      ShrinkForward(bs, i, at);
      Apart(bs, GAP, i + 1, i + 2);
      assert r[i + 1] == Block(at, false) && r[i + 2] == bs[i + 2];
      assert BlockHas(r, i + 1, lfree);
    }
  }

  /** That is what the steps of a free make of it. */
  lemma ReleaseHint(bs: seq<Block>, i: nat, lfree: nat)
    requires Tiled(bs, GAP) && FreeHead(bs, lfree) && i < |bs| - 1 && bs[i].used
    ensures HintPlug(Mark(bs, i, false), i, HintFree(bs, i, lfree)) == HintAfterFree(bs, i, lfree)
  {
    var j: nat :| j < |bs| && bs[j].at == lfree && (!bs[j].used || j + 1 == |bs|);
    assert j != i;
    if j < i { Apart(bs, GAP, j, i); } else { Apart(bs, GAP, i, j); }
    Apart(bs, GAP, i, i + 1);
  }

  lemma ReleaseHintAt(s: seq<int>, bs: seq<Block>, i: nat, lfree: nat, size: nat)
    requires Good(s, bs, lfree, size) && i < |bs| - 1 && bs[i].used
    ensures HintPlug(Mark(bs, i, false), i, HintFree(bs, i, lfree)) == HintAfterFree(bs, i, lfree)
  {
    hide FreeHead, Rep, Tiled, Coalesced, HintPlug, HintAfterFree;
    ReleaseHint(bs, i, lfree);
  }

  lemma FreeHintAt(s: seq<int>, bs: seq<Block>, t: seq<int>, i: nat, lfree: nat, size: nat)
    requires Good(s, bs, lfree, size) && i < |bs| - 1 && bs[i].used
    requires Shaped(t, Release(bs, i), HintAfterFree(bs, i, lfree), size)
    ensures StartOf(Release(bs, i), Min(lfree, bs[i].at), HintAfterFree(bs, i, lfree))
  {
    hide Rep, FreeHead, Tiled, Coalesced, HintAfterFree, Release, StartOf;
    FreeHintStart(bs, i, lfree);
  }

  lemma CutHintAt(s: seq<int>, bs: seq<Block>, t: seq<int>, i: nat, at: nat, lfree: nat, size: nat)
    requires Good(s, bs, lfree, size) && i < |bs| - 1 && bs[i].used
    requires bs[i].at + GAP <= at && at + GAP <= bs[i + 1].at
    requires Good(t, Shrink(bs, i, at), HintAfterCut(bs, i, at, lfree), size)
    ensures StartOf(Shrink(bs, i, at), lfree, HintAfterCut(bs, i, at, lfree))
  {
    hide Rep, FreeHead, Tiled, Coalesced, HintAfterCut, Shrink, StartOf;
    CutHintStart(bs, i, at, lfree);
  }

  lemma HintMark(bs: seq<Block>, i: nat, lfree: nat)
    requires FreeHead(bs, lfree) && i < |bs| - 1 && bs[i].used
    ensures var m := Mark(bs, i, false); var h := HintFree(bs, i, lfree);
      FreeHead(m, h) && (Lowest(bs, lfree) ==> Lowest(m, h))
  {
    var m := Mark(bs, i, false);
    var j: nat :| j < |bs| && bs[j].at == lfree && (!bs[j].used || j + 1 == |bs|);
    assert m[j].at == lfree && m[i].at == bs[i].at;
  }

  lemma FreeStep(s: seq<int>, bs: seq<Block>, i: nat, lfree: nat, size: nat)
    requires Shaped(s, bs, lfree, size) && i < |bs| - 1 && bs[i].used
    ensures var p := bs[i].at;
      && p + HDR <= |s| && s[p + 1] == bs[i + 1].at
      && var t := MarkWords(s, p, false); var m := Mark(bs, i, false);
         Shaped(t, m, HintFree(bs, i, lfree), size) && Keeps(s, t, m)
  {
    Reads(s, bs, i);
    RepMark(s, bs, i, false);
    HintMark(bs, i, lfree);
    LiveMark(bs, i, false, GAP);
    KeepsFewer(s, MarkWords(s, bs[i].at, false), bs, Mark(bs, i, false));
  }

  lemma ReleaseSums(bs: seq<Block>, i: nat)
    requires i < |bs| - 1 && bs[i].used && bs[|bs| - 1].used
    ensures Sum(Release(bs, i), true, 0) == Sum(bs, true, 0) - (bs[i + 1].at - bs[i].at)
  {
    SumMark(bs, i, false, true, 0);
    SumPlug(Mark(bs, i, false), i, true, 0);
  }

  lemma ReleaseFacts(bs: seq<Block>, i: nat)
    requires Tiled(bs, GAP) && Coalesced(bs) && i < |bs| - 1 && bs[i].used
    ensures Coalesced(Release(bs, i)) && bs[i].at < bs[i + 1].at
    ensures Live(Release(bs, i)) == Live(bs) - iset{ExtentOf(bs, i)}
    ensures Live(Release(bs, i)) <= Live(Mark(bs, i, false))
    ensures CoalescedExcept(Mark(bs, i, false), i)
  {
    ReleaseKeeps(bs, i, GAP);
    LiveMark(bs, i, false, GAP);
  }

  lemma ReleasePrep(s: seq<int>, bs: seq<Block>, i: nat, lfree: nat, size: nat)
    requires Good(s, bs, lfree, size) && i < |bs| - 1 && bs[i].used
    ensures Shaped(s, bs, lfree, size) && bs[i].at < bs[i + 1].at
    ensures Coalesced(Release(bs, i)) && CoalescedExcept(Mark(bs, i, false), i)
    ensures Live(Release(bs, i)) == Live(bs) - iset{ExtentOf(bs, i)}
    ensures Live(Release(bs, i)) <= Live(Mark(bs, i, false))
    ensures Sum(Release(bs, i), true, 0) == Sum(bs, true, 0) - (bs[i + 1].at - bs[i].at)
  {
    ReleaseFacts(bs, i);
    ReleaseSums(bs, i);
  }

  /** A free block that `Malloc` would accept. */
  predicate Fits(bs: seq<Block>, i: nat, need: nat, size: nat) {
    i + 1 < |bs| && !bs[i].used && bs[i].at + HDR + need <= bs[i + 1].at && bs[i].at < size - need
  }

  lemma ScanStarts(s: seq<int>, bs: seq<Block>, lfree: nat, size: nat)
    requires Shaped(s, bs, lfree, size)
    ensures exists i: nat :: i < |bs| && bs[i].at == lfree && forall k: nat | k < i :: bs[k].at < lfree
  {
    var i: nat :| i < |bs| && bs[i].at == lfree;
    Ascending(bs, i);
  }

  /** The test of one block, as `Malloc` makes it from the words in memory. */
  lemma ScanStep(s: seq<int>, bs: seq<Block>, lfree: nat, i: nat, need: nat, size: nat)
    requires Shaped(s, bs, lfree, size) && i < |bs| && need <= size && bs[i].at < size - need
    ensures var ptr := bs[i].at;
      && i + 1 < |bs| && ptr + 2 < |s| && s[ptr + 1] == bs[i + 1].at && ptr <= bs[i + 1].at
      && (Fits(bs, i, need, size) <==> !IsUsed(s[ptr]) && s[ptr + 1] - (ptr + HDR) >= need)
  {
    Reads(s, bs, i);
  }

  lemma ScanEnds(s: seq<int>, bs: seq<Block>, lfree: nat, i: nat, need: nat, size: nat)
    requires Shaped(s, bs, lfree, size) && i < |bs| && bs[i].at >= size - need
    ensures forall k: nat | i <= k && Fits(bs, k, need, size) :: false
  {
    Ascending(bs, i);
  }

  // ----- the hint moves to the next free block

  lemma HintAt(s: seq<int>, bs: seq<Block>, j: nat, size: nat)
    requires Laid(s, bs, size) && j < |bs|
    ensures bs[j].at + 2 < |s|
  {
    Reads(s, bs, j);
  }

  lemma HintOn(s: seq<int>, bs: seq<Block>, j: nat, size: nat)
    requires Laid(s, bs, size) && j < |bs| && bs[j].at + 1 < |s| && IsUsed(s[bs[j].at]) && bs[j].at != size + HDR
    ensures j + 1 < |bs| && s[bs[j].at + 1] == bs[j + 1].at
    ensures bs[j].at <= bs[j + 1].at
    ensures forall from: nat | NoFreeBetween(bs, from, bs[j].at) :: NoFreeBetween(bs, from, bs[j + 1].at)
  {
    Reads(s, bs, j);
    Ascending(bs, j);
    Ascending(bs, j + 1);
  }

  lemma HintStops(s: seq<int>, bs: seq<Block>, j: nat, size: nat)
    requires Laid(s, bs, size) && j < |bs| && bs[j].at < |s| && (!IsUsed(s[bs[j].at]) || bs[j].at == size + HDR)
    ensures FreeHead(bs, bs[j].at)
  {
    Reads(s, bs, j);
    if j < |bs| - 1 { Apart(bs, GAP, j, |bs| - 1); }
  }

  /** The words that handing out block `i` leaves in memory. */
  function TakeWords(s: seq<int>, p: nat, q: nat, n: nat, end: nat, split: bool): seq<int>
    requires p + HDR <= |s| && q + HDR <= |s| && n + HDR <= |s|
  {
    if split then MarkWords(CutWords(s, p, q, n, end), p, true) else MarkWords(s, p, true)
  }

  predicate Splits(bs: seq<Block>, i: nat, need: nat)
    requires i + 1 < |bs|
  {
    bs[i].at + HDR + need + HDR + MIN_WORDS <= bs[i + 1].at
  }

  /** The layout after handing out `need` words from block `i`. */
  function Taken(bs: seq<Block>, i: nat, need: nat): seq<Block>
    requires i + 1 < |bs|
  {
    Take(bs, i, Splits(bs, i, need), bs[i].at + HDR + need)
  }

  /** What that hands out. */
  function Grant(bs: seq<Block>, i: nat, need: nat): Extent
    requires i + 1 < |bs|
  {
    Extent(bs[i].at, if Splits(bs, i, need) then bs[i].at + HDR + need else bs[i + 1].at)
  }

  /** Block by block: the tail is split off if and only if a header and the minimal payload fit into it,
      so nobody gets more than that many words too many. */
  lemma TakenBlocks(bs: seq<Block>, i: nat, need: nat)
    requires i + 1 < |bs| && bs[i].at + HDR + need <= bs[i + 1].at
    ensures var p := bs[i].at + HDR; var r := Taken(bs, i, need);
      && r == bs[..i] + [Block(bs[i].at, true)]
              + (if bs[i + 1].at - p >= need + HDR + MIN_WORDS then [Block(p + need, false)] else []) + bs[i + 1..]
      && i + 1 < |r|
      && r[i + 1].at == (if bs[i + 1].at - p >= need + HDR + MIN_WORDS then p + need else bs[i + 1].at)
      && r[i + 1].at - p < need + HDR + MIN_WORDS
  {}

  lemma TakeSplit(s: seq<int>, bs: seq<Block>, i: nat, q: nat, size: nat)
    requires Laid(s, bs, size) && i < |bs| - 1 && !bs[i].used
    requires bs[i].at + GAP <= q && q + GAP <= bs[i + 1].at
    ensures bs[i + 1].at + HDR <= |s|
    ensures var t := CutWords(s, bs[i].at, q, bs[i + 1].at, size + HDR); var m := Insert(bs, i, q);
      Laid(t, m, size) && Keeps(s, t, m) && Live(m) == Live(bs)
  {
    RepInsert(s, bs, i, q);
    InsertTiled(bs, i, q, GAP);
    LiveInsert(bs, i, q, GAP);
  }

  lemma TakeMark(s: seq<int>, bs: seq<Block>, i: nat, size: nat)
    requires Laid(s, bs, size) && i < |bs| - 1
    ensures bs[i].at < |s|
    ensures var t := MarkWords(s, bs[i].at, true); Laid(t, Mark(bs, i, true), size) && Keeps(s, t, bs)
  {
    RepMark(s, bs, i, true);
  }

  lemma TakeStep(s: seq<int>, bs: seq<Block>, i: nat, need: nat, size: nat)
    requires Laid(s, bs, size) && need >= MIN_WORDS && Fits(bs, i, need, size)
    ensures var p := bs[i].at; var q := p + HDR + need; var n := bs[i + 1].at;
      && q + HDR <= |s| && n + HDR <= |s| && s[p + 1] == n
      && var t := TakeWords(s, p, q, n, size + HDR, Splits(bs, i, need));
         Laid(t, Taken(bs, i, need), size) && Keeps(s, t, bs)
  {
    hide Rep, Tiled, Live, Keeps;
    Reads(s, bs, i);
    Reads(s, bs, i + 1);
    var q := bs[i].at + HDR + need;
    if Splits(bs, i, need) {
      TakeSplit(s, bs, i, q, size);
      var t, m := CutWords(s, bs[i].at, q, bs[i + 1].at, size + HDR), Insert(bs, i, q);
      assert m[i] == bs[i];
      TakeMark(t, m, i, size);
      KeepsThen(s, t, MarkWords(t, bs[i].at, true), m, m);
      KeepsFewer(s, MarkWords(t, bs[i].at, true), m, bs);
    } else {
      TakeMark(s, bs, i, size);
    }
  }

  lemma CutSums(bs: seq<Block>, i: nat, q: nat)
    requires i + 1 < |bs| && !bs[i].used
    ensures Sum(Mark(Insert(bs, i, q), i, true), true, 0) == Sum(bs, true, 0) + q - bs[i].at
  {
    hide Sum;
    var m := Insert(bs, i, q);
    SumInsert(bs, i, q, true, 0);
    assert m[i] == bs[i] && m[i + 1] == Block(q, false);
    SumMark(m, i, true, true, 0);
  }

  lemma TakeSums(bs: seq<Block>, i: nat, need: nat)
    requires i + 1 < |bs| && !bs[i].used
    ensures Sum(Taken(bs, i, need), true, 0) == Sum(bs, true, 0) + Grant(bs, i, need).end - Grant(bs, i, need).start
  {
    hide Sum;
    if Splits(bs, i, need) {
      CutSums(bs, i, bs[i].at + HDR + need);
    } else {
      SumMark(bs, i, true, true, 0);
    }
  }

  /** The request, in words: rounded up, and never less than the minimum. */
  function Need(bytes: u32): nat {
    if Align(bytes) / ALIGN < MIN_WORDS then MIN_WORDS else Align(bytes) / ALIGN
  }

  /** The request is the least number of words that hold the bytes and make a block; of a size that wraps, the
      minimum. */
  lemma NeedIsLeast(bytes: u32, n: nat)
    ensures n == Need(bytes) <==>
      if bytes <= WORD - ALIGN
      then n >= MIN_WORDS && n * ALIGN >= bytes && (n > MIN_WORDS ==> (n - 1) * ALIGN < bytes)
      else n == MIN_WORDS
  {
    AlignCovers(bytes);
  }

  /** The unsigned bound of the scan wraps around: the region is shorter than the minimal
      block, but not than the request. The scan then never ends. */
  predicate Endless(size: nat, bytes: u32) {
    bytes > 0 && Align(bytes) / ALIGN <= size < MIN_WORDS
  }

  /** The request finds no block from the hint on. */
  ghost predicate Refused(bs: seq<Block>, lfree: nat, bytes: u32, size: nat) {
    || bytes == 0 || Align(bytes) / ALIGN > size
    || forall k: nat | Fits(bs, k, Need(bytes), size) :: bs[k].at < lfree
  }

  /** With the hint on the lowest free block, that is: no block fits at all. */
  lemma RefusedLowest(bs: seq<Block>, lfree: nat, bytes: u32, size: nat)
    requires Lowest(bs, lfree)
    ensures Refused(bs, lfree, bytes, size) <==>
      bytes == 0 || Align(bytes) / ALIGN > size || forall k: nat :: !Fits(bs, k, Need(bytes), size)
  {
    if k: nat :| Fits(bs, k, Need(bytes), size) {
      assert lfree <= bs[k].at;
    }
  }

  /** The words asked for hold the bytes asked for, except for the sizes that wrap. */
  lemma NeedCovers(bytes: u32, size: nat)
    requires bytes > 0 && Align(bytes) / ALIGN <= size && (size + 2 * HDR) * ALIGN < WORD
    ensures Need(bytes) * ALIGN >= bytes <==> bytes <= WORD - ALIGN
    ensures bytes > WORD - ALIGN ==> size * ALIGN < bytes
    ensures Align(bytes) == 0 <==> bytes > WORD - ALIGN
  {
    AlignCovers(bytes);
  }

  lemma TakenFacts(s: seq<int>, bs: seq<Block>, i: nat, lfree: nat, need: nat, size: nat)
    requires Good(s, bs, lfree, size) && need >= MIN_WORDS && Fits(bs, i, need, size)
    ensures i + 1 < |bs| && !bs[i].used
    ensures var r := Taken(bs, i, need);
      && Coalesced(r) && i + 1 < |r| && r[i].used && ExtentOf(r, i) == Grant(bs, i, need)
      && Live(r) == Live(bs) + iset{Grant(bs, i, need)} && Grant(bs, i, need) !in Live(bs)
    ensures Grant(bs, i, need).end - Grant(bs, i, need).start >= HDR + need
  {
    hide Rep, FreeHead, Tiled, Coalesced, Live;
    TakeKeeps(bs, i, Splits(bs, i, need), bs[i].at + HDR + need, GAP);
    FreeIsNotLive(bs, GAP, i, Grant(bs, i, need));
  }

  // ----- the search

  /** The block found by a scan in address order from the first block on. */
  ghost predicate FirstFit(bs: seq<Block>, i: nat, need: nat, size: nat) {
    Fits(bs, i, need, size) && forall k: nat | k < i :: !Fits(bs, k, need, size)
  }

  /** The block found by a scan that begins at the hint. */
  ghost predicate FirstBehind(bs: seq<Block>, lfree: nat, i: nat, need: nat, size: nat) {
    && Fits(bs, i, need, size) && lfree <= bs[i].at
    && forall k: nat | k < i && Fits(bs, k, need, size) :: bs[k].at < lfree
  }

  /** Starting the scan at the lowest free block changes nothing. */
  lemma HintIsEnough(bs: seq<Block>, lfree: nat, i: nat, need: nat, size: nat)
    requires Lowest(bs, lfree) && FirstBehind(bs, lfree, i, need, size)
    ensures FirstFit(bs, i, need, size)
  {}

  /** The strict bound of the scan overlooks one kind of block only: an exact fit
      at the very end of the region. */
  lemma BoundMissesExactTail(bs: seq<Block>, i: nat, need: nat, size: nat)
    requires Tiled(bs, GAP) && bs[|bs| - 1].at == size + HDR && need <= size
    requires i + 1 < |bs| && !bs[i].used && bs[i].at + HDR + need <= bs[i + 1].at
    ensures !Fits(bs, i, need, size) <==> i + 2 == |bs| && bs[i].at + HDR + need == bs[i + 1].at
  {
    if i + 2 < |bs| {
      Apart(bs, GAP, i + 1, |bs| - 1);
    }
  }

  lemma HintTaken(bs: seq<Block>, i: nat, need: nat, lfree: nat)
    requires FreeHead(bs, lfree) && i < |bs| - 1 && !bs[i].used
    ensures exists j: nat :: j < |Taken(bs, i, need)| && Taken(bs, i, need)[j].at == lfree
    ensures bs[i].at != lfree ==> FreeHead(Taken(bs, i, need), lfree)
    ensures Lowest(bs, lfree) ==> Lowest(Taken(bs, i, need), lfree)
  {
    var r := Taken(bs, i, need);
    var j: nat :| j < |bs| && bs[j].at == lfree && (!bs[j].used || j + 1 == |bs|);
    if Splits(bs, i, need) {
      var m := if j <= i then j else j + 1;
      assert r[m].at == bs[j].at && (j != i ==> r[m] == bs[j]);
      forall k | 0 <= k < |r| - 1 && !r[k].used && Lowest(bs, lfree) ensures lfree <= r[k].at {
        if k < i { assert r[k] == bs[k]; }
        if k > i + 1 { assert r[k] == bs[k - 1]; }
      }
    } else {
      assert r[j].at == bs[j].at;
    }
  }

  lemma MergedFacts(bs: seq<Block>, i: nat)
    requires Tiled(bs, GAP) && i < |bs| - 1 && !bs[i].used && CoalescedExcept(bs, i)
    ensures var m := MergeNext(bs, i);
      && i < |m| - 1 && m[i] == bs[i] && (i > 0 ==> m[i - 1] == bs[i - 1])
      && Live(Plug(bs, i)) <= Live(m)
      && Plug(bs, i) == MergePrev(m, i)
  {
    PlugKeeps(bs, i, GAP);
    MergeNextKeeps(bs, i, GAP);
    MergeNextCoalesces(bs, i);
    var m := MergeNext(bs, i);
    assert m[i] == m[..i + 1][i];
    assert i > 0 ==> m[i - 1] == m[..i + 1][i - 1];
  }

  // ----- resizing

  lemma HintInsert(bs: seq<Block>, i: nat, at: nat, lfree: nat)
    requires FreeHead(bs, lfree) && i < |bs| - 1 && bs[i].used
    ensures FreeHead(Insert(bs, i, at), lfree)
  {
    var j: nat :| j < |bs| && bs[j].at == lfree && (!bs[j].used || j + 1 == |bs|);
    var r := Insert(bs, i, at);
    assert r[if j <= i then j else j + 1] == bs[j];
  }

  lemma ShrinkFacts(bs: seq<Block>, i: nat, at: nat)
    requires Tiled(bs, GAP) && Coalesced(bs) && i < |bs| - 1 && bs[i].used
    requires bs[i].at + GAP <= at && at + GAP <= bs[i + 1].at
    ensures var m := Insert(bs, i, at);
      && Tiled(m, GAP) && i + 1 < |m| - 1 && m[i + 1] == Block(at, false) && CoalescedExcept(m, i + 1)
      && Live(Shrink(bs, i, at)) <= Live(m)
    ensures Coalesced(Shrink(bs, i, at))
    ensures Live(Shrink(bs, i, at)) == Live(bs) - iset{ExtentOf(bs, i)} + iset{Extent(bs[i].at, at)}
  {
    InsertTiled(bs, i, at, GAP);
    LiveInsert(bs, i, at, GAP);
    ShrinkCoalesces(bs, i, at);
    PlugKeeps(Insert(bs, i, at), i + 1, GAP);
  }

  lemma ShrinkSums(bs: seq<Block>, i: nat, at: nat)
    requires i < |bs| - 1 && bs[i].used && bs[|bs| - 1].used
    ensures Sum(Shrink(bs, i, at), true, 0) == Sum(bs, true, 0) - (bs[i + 1].at - at)
  {
    hide Sum;
    SumInsert(bs, i, at, true, 0);
    var m := Insert(bs, i, at);
    assert m[i + 1] == Block(at, false) && m[|m| - 1] == bs[|bs| - 1];
    SumPlug(m, i + 1, true, 0);
  }

  lemma LastIsUsed(s: seq<int>, bs: seq<Block>, size: nat)
    requires Laid(s, bs, size)
    ensures bs[|bs| - 1].used
  {}

  lemma ShrinkPrep(s: seq<int>, bs: seq<Block>, i: nat, at: nat, lfree: nat, size: nat)
    requires Good(s, bs, lfree, size) && i < |bs| - 1 && bs[i].used
    requires bs[i].at + GAP <= at && at + GAP <= bs[i + 1].at
    ensures at + HDR <= |s| && bs[i + 1].at + HDR <= |s| && s[bs[i].at + 1] == bs[i + 1].at
    ensures var m := Insert(bs, i, at); var t := CutWords(s, bs[i].at, at, bs[i + 1].at, size + HDR);
      && i + 1 < |m| - 1 && m[i + 1] == Block(at, false) && CoalescedExcept(m, i + 1)
      && Shaped(t, m, lfree, size) && Keeps(s, t, m)
      && Live(Shrink(bs, i, at)) <= Live(m)
    ensures Coalesced(Shrink(bs, i, at))
    ensures Live(Shrink(bs, i, at)) == Live(bs) - iset{ExtentOf(bs, i)} + iset{Extent(bs[i].at, at)}
    ensures Sum(Shrink(bs, i, at), true, 0) == Sum(bs, true, 0) - (bs[i + 1].at - at)
  {
    hide Rep, Sum, Live, Keeps, FreeHead, Coalesced, Tiled, Shrink, CoalescedExcept;
    Reads(s, bs, i);
    Reads(s, bs, i + 1);
    RepInsert(s, bs, i, at);
    HintInsert(bs, i, at, lfree);
    ShrinkFacts(bs, i, at);
    ShrinkSums(bs, i, at);
  }

  lemma ShrinkFree(bs: seq<Block>, i: nat, at: nat, k: nat)
    requires i < |bs| - 1 && bs[i].used && k < |Shrink(bs, i, at)| - 1 && !Shrink(bs, i, at)[k].used
    requires !bs[i + 1].used ==> i + 1 < |bs| - 1
    ensures Shrink(bs, i, at)[k].at == at || exists x :: 0 <= x < |bs| - 1 && bs[x] == Shrink(bs, i, at)[k]
  {
    var m, r := Insert(bs, i, at), Shrink(bs, i, at);
    assert m[i + 2] == bs[i + 1] && m[i] == bs[i];
    if k <= i {
      assert r[k] == bs[k];
    } else if k == i + 1 {
      assert r[k] == m[k];
    } else {
      var x := if bs[i + 1].used then k - 1 else k;
      assert r[k] == bs[x];
    }
  }

  lemma ShrinkShape(bs: seq<Block>, i: nat, at: nat, lfree: nat)
    requires i < |bs| - 1 && bs[i].used && (!bs[i + 1].used ==> i + 1 < |bs| - 1)
    ensures i + 1 < |Shrink(bs, i, at)| - 1 && Shrink(bs, i, at)[i + 1] == Block(at, false)
    ensures HintPlug(Insert(bs, i, at), i + 1, lfree) == if !bs[i + 1].used && lfree == bs[i + 1].at then at else lfree
  {
    var m := Insert(bs, i, at);
    assert m[i + 1] == Block(at, false) && m[i] == bs[i] && m[i + 2] == bs[i + 1];
  }

  /** A shrink in place keeps the hint lowest exactly when the hint was below the
      block, or was the free neighbour that absorbs the tail. */
  lemma ShrinkHint(bs: seq<Block>, i: nat, at: nat, lfree: nat)
    requires Tiled(bs, GAP) && FreeHead(bs, lfree) && Lowest(bs, lfree)
    requires i < |bs| - 1 && bs[i].used && bs[i].at + GAP <= at && at + GAP <= bs[i + 1].at
    ensures Lowest(Shrink(bs, i, at), HintPlug(Insert(bs, i, at), i + 1, lfree)) <==>
      lfree < bs[i].at || (lfree == bs[i + 1].at && !bs[i + 1].used)
  {
    hide Shrink, HintPlug, Insert;
    ShrinkShape(bs, i, at, lfree);
    var j: nat :| j < |bs| && bs[j].at == lfree && (!bs[j].used || j + 1 == |bs|);
    if j < i { Apart(bs, GAP, j, i); }
    if j > i { Apart(bs, GAP, i, j); }
    if j > i + 1 { Apart(bs, GAP, i + 1, j); }
    var r := Shrink(bs, i, at);
    forall k: nat | k < |r| - 1 && !r[k].used
      ensures r[k].at == at || lfree <= r[k].at
    {
      ShrinkFree(bs, i, at, k);
    }
  }

  /** The hint after block `i` has been cut at `at`. */
  function HintAfterCut(bs: seq<Block>, i: nat, at: nat, lfree: nat): nat
    requires i + 1 < |bs|
  {
    if !bs[i + 1].used && lfree == bs[i + 1].at then at else lfree
  }

  /** The block at `p` was moved into block `j` of layout `bs`: layout and hint are those after handing
      out block `j` and then freeing the old one. */
  ghost predicate MovedInto(bs: seq<Block>, lfree: nat, j: nat, need: nat, p: int, b2: seq<Block>, to: nat)
    requires j + 1 < |bs|
  {
    exists k: nat, h: nat :: MovedFrom(Taken(bs, j, need), lfree, p, b2, to, k, h)
  }

  ghost predicate MovedFrom(b1: seq<Block>, lfree: nat, p: int, b2: seq<Block>, to: nat, k: nat, h: nat) {
    && k < |b1| && b1[k].at + HDR == p && NextFree(b1, lfree, h)
    && b2 == Tiling.Release(b1, k) && to == HintAfterFree(b1, k, h) && StartOf(b2, Min(h, b1[k].at), to)
  }

  lemma TakenAt(bs: seq<Block>, j: nat, need: nat)
    requires j + 1 < |bs|
    ensures j < |Taken(bs, j, need)| && Taken(bs, j, need)[j].at == bs[j].at
  {}

  lemma FitsThere(bs: seq<Block>, i: nat, need: nat, size: nat)
    requires Fits(bs, i, need, size)
    ensures i + 1 < |bs| && bs[i].at + HDR + need <= bs[i + 1].at
  {}

  lemma FitsInside(bs: seq<Block>, lfree: nat, j: nat, need: nat, size: nat)
    requires FirstBehind(bs, lfree, j, need, size)
    ensures j + 1 < |bs| && !bs[j].used
  {}

  lemma MovedSo(bs: seq<Block>, lfree: nat, j: nat, need: nat, p: int, b1: seq<Block>, b2: seq<Block>, to: nat, k: nat,
                h: nat)
    requires j + 1 < |bs| && b1 == Taken(bs, j, need) && k < |b1| && b1[k].at + HDR == p && NextFree(b1, lfree, h)
    requires b2 == Tiling.Release(b1, k) && to == HintAfterFree(b1, k, h) && StartOf(b2, Min(h, b1[k].at), to)
    ensures MovedInto(bs, lfree, j, need, p, b2, to)
  {
    hide NextFree, Taken, Tiling.Release, HintAfterFree, StartOf;
    assert MovedFrom(b1, lfree, p, b2, to, k, h);
  }

  /** The same, read off a heap in a good state. */
  lemma ShrinkHintAt(s: seq<int>, bs: seq<Block>, i: nat, at: nat, lfree: nat, size: nat)
    requires Good(s, bs, lfree, size) && i < |bs| - 1 && bs[i].used
    requires bs[i].at + GAP <= at && at + GAP <= bs[i + 1].at
    ensures Lowest(bs, lfree) ==> (Lowest(Shrink(bs, i, at), HintPlug(Insert(bs, i, at), i + 1, lfree)) <==>
      lfree < bs[i].at + HDR || (lfree == bs[i + 1].at && lfree < size + HDR))
    ensures HintPlug(Insert(bs, i, at), i + 1, lfree) == HintAfterCut(bs, i, at, lfree)
  {
    hide Rep, Shrink, HintPlug;
    ShrinkShape(bs, i, at, lfree);
    if Lowest(bs, lfree) {
      ShrinkHint(bs, i, at, lfree);
      var j: nat :| j < |bs| && bs[j].at == lfree && (!bs[j].used || j + 1 == |bs|);
      if j < i { Apart(bs, GAP, j, i); }
      if i < j { Apart(bs, GAP, i, j); }
      if i + 1 < j { Apart(bs, GAP, i + 1, j); }
      if i + 1 < |bs| - 1 { Apart(bs, GAP, i + 1, |bs| - 1); }
    }
  }

  lemma LiveOwned(bs: seq<Block>, x: Extent, a: int)
    requires x in Live(bs) && x.start + HDR <= a < x.end
    ensures Owned(bs, a)
  {
    OwnedByLive(bs, a);
  }

  lemma LiveInside(s: seq<int>, bs: seq<Block>, x: Extent, size: nat)
    requires Laid(s, bs, size) && x in Live(bs)
    ensures x.end <= |s|
  {
    hide Rep;
    var i: nat :| HandedOut(bs, i, x);
    if i + 1 < |bs| - 1 { Apart(bs, GAP, i + 1, |bs| - 1); }
  }

  lemma KeptByShrink(s: seq<int>, bs: seq<Block>, t: seq<int>, b2: seq<Block>, x: Extent, x2: Extent, size: nat)
    requires Laid(s, bs, size) && Keeps(s, t, b2) && x in Live(bs)
    requires Live(b2) == Live(bs) - iset{x} + iset{x2} && x2.start == x.start && x2.end <= x.end
    ensures OthersKept(s, bs, t, b2, x, HDR)
    ensures SamePayload(s, x.start + HDR, t, x.start + HDR, x2.end - x.start - HDR)
  {
    hide Laid, Live, Owned;
    LiveInside(s, bs, x, size);
    forall y, a | y in Live(b2) && y.start + HDR <= a < y.end && a < |s| ensures t[a] == s[a] {
      LiveOwned(b2, y, a);
    }
    forall y | y in Live(bs) ensures y.end <= |s| { LiveInside(s, bs, y, size); }
  }

  /** A live extent is found, and only it, by its start. */
  lemma LiveAt(s: seq<int>, bs: seq<Block>, x: Extent, size: nat)
    requires Laid(s, bs, size) && x in Live(bs)
    ensures exists i: nat :: i < |bs| - 1 && bs[i].used && bs[i].at + HDR == x.start + HDR
    ensures forall i: nat | i < |bs| - 1 && bs[i].at == x.start :: ExtentOf(bs, i) == x
    ensures x.start + GAP <= x.end && x.end + HDR <= |s|
  {
    hide Rep;
    var j: nat :| HandedOut(bs, j, x);
    assert j < |bs| - 1 && bs[j].used && bs[j].at == x.start;
    forall i: nat | i < |bs| - 1 && bs[i].at == x.start ensures i == j {
      if i < j { Apart(bs, GAP, i, j); } else if j < i { Apart(bs, GAP, j, i); }
    }
    Apart(bs, GAP, j, j + 1);
    if j + 1 < |bs| - 1 { Apart(bs, GAP, j + 1, |bs| - 1); }
  }

  lemma CopyKeeps(s: seq<int>, t: seq<int>, bs: seq<Block>, lfree: nat, size: nat, y: Extent, n: nat)
    requires Good(s, bs, lfree, size) && |t| == |s| && y in Live(bs) && n <= y.end - y.start - HDR
    requires forall a | 0 <= a < |s| && !(y.start + HDR <= a < y.start + HDR + n) :: t[a] == s[a]
    ensures Good(t, bs, lfree, size)
  {
    hide Good, Owned, Live;
    RangeOwned(bs, y, y.start + HDR, y.start + HDR + n);
    PayloadWrite(s, t, bs, lfree, size);
  }

  lemma OthersSame(s: seq<int>, bs: seq<Block>, x: Extent, size: nat)
    requires Laid(s, bs, size) && x in Live(bs)
    ensures OthersKept(s, bs, s, bs, x, HDR)
    ensures SamePayload(s, x.start + HDR, s, x.start + HDR, x.end - x.start - HDR)
  {
    hide Laid, Live;
    forall y | y in Live(bs) ensures y.end <= |s| { LiveInside(s, bs, y, size); }
  }

  /** A shrink of the lowest block leaves its tail free below the hint. */
  lemma ShrinkCanLoseHint()
    ensures var bs := [Block(0, true), Block(40, true), Block(80, false), Block(120, true)];
      && Tiled(bs, GAP) && Coalesced(bs) && FreeHead(bs, 80) && Lowest(bs, 80)
      && !Lowest(Shrink(bs, 0, 10), HintPlug(Insert(bs, 0, 10), 1, 80))
  {
    var bs := [Block(0, true), Block(40, true), Block(80, false), Block(120, true)];
    assert bs[2].at == 80;
    ShrinkHint(bs, 0, 10, 80);
  }

  /** Cutting a block does not make it another one. */
  lemma CutIsNew(bs: seq<Block>, x: Extent, y: Extent)
    requires Tiled(bs, GAP) && x in Live(bs) && y.start == x.start
    ensures y !in Live(bs) - iset{x}
  {
    if y in Live(bs) && y != x {
      LiveBounds(bs, GAP, x);
      LiveBounds(bs, GAP, y);
      LiveDisjoint(bs, GAP, x, y);
    }
  }

  /** Writing payload words leaves every header as it was. */
  lemma PayloadWrite(s: seq<int>, t: seq<int>, bs: seq<Block>, lfree: nat, size: nat)
    requires Good(s, bs, lfree, size) && |t| == |s|
    requires forall a | 0 <= a < |s| && !Owned(bs, a) :: t[a] == s[a]
    ensures Good(t, bs, lfree, size)
  {
    hide Owned, FreeHead, Coalesced;
    forall k: nat | k < |bs| ensures Header(t, bs, k) {
      assert Header(s, bs, k);
      forall a | bs[k].at <= a < bs[k].at + HDR ensures t[a] == s[a] { HeaderNotOwned(bs, k, a); }
    }
  }

  lemma RangeOwned(bs: seq<Block>, x: Extent, lo: int, hi: int)
    requires x in Live(bs) && x.start + HDR <= lo && hi <= x.end
    ensures forall a | lo <= a < hi :: Owned(bs, a)
  {
    forall a | lo <= a < hi ensures Owned(bs, a) { LiveOwned(bs, x, a); }
  }

  /** Moving a block: allocate, copy, free. */
  lemma KeptByMove(s0: seq<int>, b0: seq<Block>, s1: seq<int>, b1: seq<Block>, s2: seq<int>, s3: seq<int>,
                   b3: seq<Block>, x: Extent, y: Extent, n: nat, size: nat)
    requires Laid(s0, b0, size) && Laid(s1, b1, size) && |s2| == |s1|
    requires Keeps(s0, s1, b0) && Keeps(s2, s3, b3)
    requires x in Live(b0) && y !in Live(b0) && Live(b1) == Live(b0) + iset{y} && Live(b3) == Live(b1) - iset{x}
    requires n <= x.end - x.start - HDR && n <= y.end - y.start - HDR
    requires SamePayload(s1, x.start + HDR, s2, y.start + HDR, n)
    requires forall a | 0 <= a < |s1| && !(y.start + HDR <= a < y.start + HDR + n) :: s2[a] == s1[a]
    ensures OthersKept(s0, b0, s3, b3, x, HDR)
    ensures SamePayload(s0, x.start + HDR, s3, y.start + HDR, n)
  {
    hide Rep, Live, Owned;
    assert |s3| == |s0|;
    forall z, a | z in Live(b0) && z.start + HDR <= a < z.end ensures 0 <= a < |s0| && s1[a] == s0[a] {
      LiveInside(s0, b0, z, size);
      LiveOwned(b0, z, a);
    }
    forall z, a | z in Live(b3) && z.start + HDR <= a < z.end ensures 0 <= a < |s0| && s3[a] == s2[a] {
      LiveInside(s1, b1, z, size);
      LiveOwned(b3, z, a);
    }
    forall z | z in Live(b0) ensures z.end <= y.start || y.end <= z.start { LiveDisjoint(b1, GAP, z, y); }
    forall z | z in Live(b0) && z != x
      ensures z in Live(b3) && SamePayload(s0, z.start + HDR, s3, z.start + HDR, z.end - z.start - HDR)
    {
      LiveInside(s0, b0, z, size);
      forall a | z.start + HDR <= a < z.end ensures s3[a] == s0[a] {
        assert s1[a] == s0[a] && s3[a] == s2[a];
      }
    }
    LiveInside(s0, b0, x, size);
    LiveInside(s1, b1, y, size);
    forall a | y.start + HDR <= a < y.start + HDR + n ensures s3[a] == s0[a - y.start + x.start] {
      assert s3[a] == s2[a] == s1[a - (y.start + HDR) + (x.start + HDR)];
      assert s1[a - y.start + x.start] == s0[a - y.start + x.start];
    }
  }

  class Heap {
    const words: array<int>
    const size: nat         // mem_size_aligned
    var lfree: nat
    var usedMem: int
    var maxMem: int
    ghost var bs: seq<Block>

    ghost predicate Valid()
      reads this, words
    {
      && (size + 2 * HDR) * ALIGN < WORD
      && (size < MIN_WORDS ==> bs == [Block(0, false), Block(size + HDR, true)])
      && Good(words[..], bs, lfree, size)
      && usedMem == Sum(bs, true, 0) <= maxMem
    }

    constructor (size: nat)
      requires (size + 2 * HDR) * ALIGN < WORD
      ensures Valid() && this.size == size && fresh(words)
      ensures bs == [Block(0, false), Block(size + HDR, true)]
      ensures lfree == 0 && usedMem == maxMem == 0 && Lowest(bs, lfree)
    {
      this.size := size;
      words := new int[size + 2 * HDR];
      lfree := 0;
      usedMem := 0;
      maxMem := 0;
      bs := [Block(0, false), Block(size + HDR, true)];
      new;
      var end := size + HDR;
      words[0] := Tag(false);
      words[1] := end;
      words[2] := 0;
      words[end] := Tag(true);
      words[end + 1] := end;
      words[end + 2] := end;
      assert Header(words[..], bs, 0) && Header(words[..], bs, 1);
    }

    /** When every block has been freed, in whatever order, the heap is laid out as it began. */
    lemma AllFreed()
      requires Valid() && Live(bs) == iset{}
      ensures bs == [Block(0, false), Block(size + HDR, true)] && usedMem == 0
    {
      hide Rep, FreeHead;
      NothingLiveIsFresh(bs, GAP);
      assert bs[|bs| - 1].at == size + HDR;
      assert Sum(bs[1..], true, 0) == 0;
    }

    method Link(p: nat, n: nat)
      requires p + HDR <= words.Length && n + HDR <= words.Length
      modifies words
      ensures words[..] == LinkWords(old(words[..]), p, n)
    {
      words[p + 1] := n;
      words[n + 2] := p;
    }

    method PlugForward(p: nat, ghost i: nat)
      requires Shaped(words[..], bs, lfree, size) && i < |bs| - 1 && bs[i] == Block(p, false)
      modifies this`lfree, this`bs, words
      ensures Shaped(words[..], bs, lfree, size) && bs == MergeNext(old(bs), i)
      ensures lfree == HintNext(old(bs), i, old(lfree))
      ensures Lowest(old(bs), old(lfree)) ==> Lowest(bs, lfree)
      ensures Keeps(old(words[..]), words[..], bs)
    {
      hide Shaped, Keeps, Lowest, MergeNext, LinkWords, Rep, Tiled;
      ForwardStep(words[..], bs, i, lfree, size);
      var n := words[p + 1];
      if p != n && !IsUsed(words[n]) && n != size + HDR {
        if lfree == n {
          lfree := p;
        }
        Link(p, words[n + 1]);
      }
      bs := MergeNext(bs, i);
    }

    method PlugBackward(p: nat, ghost i: nat)
      requires Shaped(words[..], bs, lfree, size) && i < |bs| - 1 && bs[i] == Block(p, false)
      modifies this`lfree, this`bs, words
      ensures Shaped(words[..], bs, lfree, size) && bs == MergePrev(old(bs), i)
      ensures lfree == HintPrev(old(bs), i, old(lfree))
      ensures Lowest(old(bs), old(lfree)) ==> Lowest(bs, lfree)
      ensures Keeps(old(words[..]), words[..], bs)
    {
      hide Shaped, Keeps, Lowest, MergePrev, LinkWords, Rep, Tiled;
      BackwardStep(words[..], bs, i, lfree, size);
      var q := words[p + 2];
      if q != p && !IsUsed(words[q]) {
        if lfree == p {
          lfree := q;
        }
        Link(q, words[p + 1]);
      }
      bs := MergePrev(bs, i);
    }

    method PlugHoles(p: nat, ghost i: nat)
      requires Shaped(words[..], bs, lfree, size) && i < |bs| - 1 && bs[i] == Block(p, false) && CoalescedExcept(bs, i)
      modifies this`lfree, this`bs, words
      ensures Shaped(words[..], bs, lfree, size) && bs == Plug(old(bs), i)
      ensures lfree == HintPlug(old(bs), i, old(lfree))
      ensures Lowest(old(bs), old(lfree)) ==> Lowest(bs, lfree)
      ensures Keeps(old(words[..]), words[..], bs)
    {
      ghost var b0, s0 := bs, words[..];
      PlugForward(p, i);
      ghost var b1, s1 := bs, words[..];
      MergedFacts(b0, i);
      PlugBackward(p, i);
      KeepsThen(s0, s1, words[..], b1, bs);
    }

    ghost predicate Allocated(p: int)
      reads this
    {
      exists i: nat :: i < |bs| - 1 && bs[i].used && bs[i].at + HDR == p
    }

    ghost function IndexOf(p: int): (i: nat)
      requires Allocated(p)
      reads this
      ensures i < |bs| - 1 && bs[i].used && bs[i].at + HDR == p
    {
      var i: nat :| i < |bs| - 1 && bs[i].used && bs[i].at + HDR == p; i
    }

    /** The extent of the block whose payload starts at `p`. */
    ghost function BlockAt(p: int): Extent
      requires Allocated(p)
      reads this
    {
      ExtentOf(bs, IndexOf(p))
    }

    method MarkFree(m: nat, ghost i: nat)
      requires Shaped(words[..], bs, lfree, size) && i < |bs| - 1 && bs[i] == Block(m, true)
      modifies this`lfree, this`bs, this`usedMem, words
      ensures Shaped(words[..], bs, lfree, size) && bs == Mark(old(bs), i, false)
      ensures lfree == HintFree(old(bs), i, old(lfree))
      ensures usedMem == old(usedMem - (bs[i + 1].at - m))
      ensures Lowest(old(bs), old(lfree)) ==> Lowest(bs, lfree)
      ensures Keeps(old(words[..]), words[..], bs)
    {
      FreeStep(words[..], bs, i, lfree, size);
      HintMark(bs, i, lfree);
      words[m] := Tag(false);
      if m < lfree {
        lfree := m;
      }
      usedMem := usedMem - (words[m + 1] - m);
      assert words[..] == MarkWords(old(words[..]), m, false);
      bs := Mark(bs, i, false);
    }

    method Release(p: int)
      requires Valid() && Allocated(p)
      modifies this, words
      ensures Valid() && maxMem == old(maxMem)
      ensures bs == Tiling.Release(old(bs), old(IndexOf(p)))
      ensures lfree == HintAfterFree(old(bs), old(IndexOf(p)), old(lfree))
      ensures StartOf(bs, Min(old(lfree), p - HDR), lfree)
      ensures Keeps(old(words[..]), words[..], bs)
      ensures Lowest(old(bs), old(lfree)) ==> Lowest(bs, lfree)
    {
      hide Tiled, Shaped, Coalesced, CoalescedExcept, Sum, Keeps, Live, Lowest, Plug, HintPlug, HintAfterFree, StartOf;
      ghost var i, s0 := IndexOf(p), words[..];
      ReleasePrep(s0, bs, i, lfree, size);
      ReleaseHintAt(s0, bs, i, lfree, size);
      MarkFree(p - HDR, i);
      ghost var s1, b1 := words[..], bs;
      PlugHoles(p - HDR, i);
      KeepsThen(s0, s1, words[..], b1, bs);
      FreeHintAt(s0, old(bs), words[..], i, old(lfree), size);
    }

    method Free(p: Option<int>)
      requires Valid() && (p.Some? ==> Allocated(p.value))
      modifies this, words
      ensures Valid() && maxMem == old(maxMem)
      ensures p.None? ==> bs == old(bs) && words[..] == old(words[..]) && lfree == old(lfree)
      ensures p.Some? ==> Live(bs) == old(Live(bs)) - iset{old(BlockAt(p.value))}
      ensures p.Some? ==> bs == Tiling.Release(old(bs), old(IndexOf(p.value)))
      ensures p.Some? ==> lfree == HintAfterFree(old(bs), old(IndexOf(p.value)), old(lfree))
      // the hint is on the block that has the lower one of the old hint and the block freed
      ensures p.Some? ==> StartOf(bs, Min(old(lfree), p.value - HDR), lfree)
      ensures Keeps(old(words[..]), words[..], bs)
      ensures Lowest(old(bs), old(lfree)) ==> Lowest(bs, lfree)
    {
      hide Tiled, Good, Sum, Keeps, Live, Lowest, Tiling.Release, HintAfterFree, StartOf;
      if p.Some? {
        ReleasePrep(words[..], bs, IndexOf(p.value), lfree, size);
        Release(p.value);
      } else {
        KeepsSame(words[..], bs);
      }
    }

    /** The scan of `Malloc`. */
    method Search(need: nat) returns (ptr: nat, found: bool, ghost i: nat)
      requires Shaped(words[..], bs, lfree, size) && need <= size
      ensures found ==> Fits(bs, i, need, size) && bs[i].at == ptr
      ensures found ==> lfree <= ptr && forall k: nat | k < i && Fits(bs, k, need, size) :: bs[k].at < lfree
      ensures !found ==> forall k: nat | Fits(bs, k, need, size) :: bs[k].at < lfree
    {
      hide *;
      ScanStarts(words[..], bs, lfree, size);
      ptr := lfree;
      i :| 0 <= i < |bs| && bs[i].at == lfree && forall k: nat | k < i :: bs[k].at < lfree;
      while ptr < size - need
        invariant i < |bs| && bs[i].at == ptr && lfree <= ptr
        invariant forall k: nat | k < i && Fits(bs, k, need, size) :: bs[k].at < lfree
        decreases |bs| - i
      {
        ScanStep(words[..], bs, lfree, i, need, size);
        if !IsUsed(words[ptr]) && words[ptr + 1] - (ptr + HDR) >= need {
          found := true;
          return;
        }
        ptr := words[ptr + 1];
        i := i + 1;
      }
      found := false;
      ScanEnds(words[..], bs, lfree, i, need, size);
    }

    method Cut(p: nat, q: nat)
      requires p + HDR <= words.Length && q + HDR <= words.Length
      requires 0 <= words[p + 1] && words[p + 1] + HDR <= words.Length && p + HDR <= q && q + HDR <= words[p + 1]
      modifies words
      ensures words[..] == CutWords(old(words[..]), p, q, old(words[p + 1]), size + HDR)
    {
      var n := words[p + 1];
      words[q] := Tag(false);
      words[q + 1] := n;
      words[q + 2] := p;
      words[p + 1] := q;
      if n != size + HDR {
        words[n + 2] := q;
      }
    }

    /** Hands out the free block at `p`, splitting it when the rest can stand alone. */
    method Carve(p: nat, need: nat, ghost i: nat)
      requires Good(words[..], bs, lfree, size) && need >= MIN_WORDS && Fits(bs, i, need, size) && bs[i].at == p
      modifies this`bs, this`usedMem, this`maxMem, words
      ensures Laid(words[..], bs, size) && bs == Taken(old(bs), i, need)
      ensures usedMem == old(usedMem) + Grant(old(bs), i, need).end - p
      ensures maxMem == if old(maxMem) < usedMem then usedMem else old(maxMem)
      ensures Keeps(old(words[..]), words[..], old(bs))
    {
      hide Rep, Tiled, Coalesced, Keeps, Taken, FreeHead;
      ghost var s := words[..];
      TakeStep(s, bs, i, need, size);
      var payload := words[p + 1] - (p + HDR);
      if payload >= need + HDR + MIN_WORDS {
        Cut(p, p + HDR + need);
        words[p] := Tag(true);
        assert words[..] == TakeWords(s, p, p + HDR + need, bs[i + 1].at, size + HDR, true);
        usedMem := usedMem + need + HDR;
      } else {
        words[p] := Tag(true);
        assert words[..] == TakeWords(s, p, p + HDR + need, bs[i + 1].at, size + HDR, false);
        usedMem := usedMem + words[p + 1] - p;
      }
      if maxMem < usedMem {
        maxMem := usedMem;
      }
      bs := Taken(bs, i, need);
    }

    /** Moves the hint up to the next free block. */
    method AdvanceHint()
      requires Laid(words[..], bs, size) && exists j: nat :: j < |bs| && bs[j].at == lfree
      modifies this`lfree
      ensures NextFree(bs, old(lfree), lfree)
      ensures Lowest(bs, old(lfree)) ==> Lowest(bs, lfree)
    {
      hide *;
      ghost var j: nat :| j < |bs| && bs[j].at == lfree;
      HintAt(words[..], bs, j, size);
      NothingBetween(bs, lfree);
      while IsUsed(words[lfree]) && lfree != size + HDR
        invariant j < |bs| && bs[j].at == lfree && lfree + 2 < words.Length
        invariant old(lfree) <= lfree && NoFreeBetween(bs, old(lfree), lfree)
        decreases |bs| - j
      {
        HintOn(words[..], bs, j, size);
        lfree := words[lfree + 1];
        j := j + 1;
        HintAt(words[..], bs, j, size);
      }
      HintStops(words[..], bs, j, size);
      NextFreeFound(bs, old(lfree), lfree);
      LowestMoves(bs, old(lfree), lfree);
    }

    method Malloc(bytes: u32) returns (r: Option<int>, ghost i: nat)
      requires Valid() && !Endless(size, bytes)
      modifies this, words
      ensures Valid()
      ensures r.None? <==> Refused(old(bs), old(lfree), bytes, size)
      ensures r.None? ==> bs == old(bs) && words[..] == old(words[..]) && lfree == old(lfree) && usedMem == old(usedMem)
      ensures maxMem == if old(maxMem) < usedMem then usedMem else old(maxMem)
      ensures Keeps(old(words[..]), words[..], old(bs))
      // the block is the first that fits from the hint on, and the hint moves on to the next free block
      ensures NextFree(bs, old(lfree), lfree)
      ensures Lowest(old(bs), old(lfree)) ==> Lowest(bs, lfree)
      ensures r.Some? ==> FirstBehind(old(bs), old(lfree), i, Need(bytes), size)
      ensures r.Some? ==> Fits(old(bs), i, Need(bytes), size) && bs == Taken(old(bs), i, Need(bytes))
      ensures r.Some? ==>
        i + 1 < |bs| && bs[i].at + HDR == r.value && bs[i].used && bs[i + 1].at >= r.value + Need(bytes)
      // its tail is split off if and only if a block can stand there
      ensures r.Some? ==>
        var spare := old(bs)[i + 1].at - (r.value + Need(bytes));
        bs[i + 1].at == if spare >= HDR + MIN_WORDS then r.value + Need(bytes) else old(bs)[i + 1].at
      ensures r.Some? ==> bs[i + 1].at - r.value < Need(bytes) + HDR + MIN_WORDS
      ensures r.Some? ==> Live(bs) == old(Live(bs)) + iset{ExtentOf(bs, i)} && ExtentOf(bs, i) !in old(Live(bs))
      ensures r.Some? && Lowest(old(bs), old(lfree)) ==> FirstFit(old(bs), i, Need(bytes), size)
      ensures r.Some? ==> usedMem == old(usedMem) + bs[i + 1].at - bs[i].at
      // the block holds what was asked for, except for the three sizes that wrap
      ensures r.Some? ==> ((bs[i + 1].at - r.value) * ALIGN >= bytes <==> bytes <= WORD - ALIGN)
    {
      hide Tiled, Rep, Keeps, Coalesced, Sum, Lowest, Live, Taken, Fits, FirstFit, Align, NextFree, FreeHead;
      hide Grant, Splits, Max;
      ghost var s0, b0 := words[..], bs;
      r, i := None, 0;
      NextFreeHere(bs, lfree);
      KeepsSame(s0, b0);
      if bytes == 0 || Align(bytes) / ALIGN > size {
        return;
      }
      NeedCovers(bytes, size);
      var need := Need(bytes);
      var ptr, found;
      ptr, found, i := Search(need);
      if found {
        TakenFacts(s0, bs, i, lfree, need, size);
        TakeSums(bs, i, need);
        FitsThere(bs, i, need, size);
        TakenBlocks(bs, i, need);
        HintTaken(bs, i, need, lfree);
        if Lowest(bs, lfree) {
          HintIsEnough(bs, lfree, i, need, size);
        }
        Carve(ptr, need, i);
        if ptr == lfree {
          AdvanceHint();
          NextFreeHead(bs, old(lfree), lfree);
        } else {
          NextFreeHere(bs, lfree);
        }
        r := Some(ptr + HDR);
      }
    }

    /** Copies `n` words between two payloads that do not overlap. */
    method Copy(p: nat, q: nat, n: nat)
      requires p + n <= words.Length && q + n <= words.Length && (p + n <= q || q + n <= p)
      modifies words
      ensures SamePayload(old(words[..]), p, words[..], q, n)
      ensures forall a | 0 <= a < words.Length && !(q <= a < q + n) :: words[a] == old(words[a])
    {
      for k := 0 to n
        invariant forall a | q <= a < q + k :: words[a] == old(words[a - q + p])
        invariant forall a | 0 <= a < words.Length && !(q <= a < q + k) :: words[a] == old(words[a])
      {
        words[q + k] := words[p + k];
      }
    }

    /** Cuts the used block at `m` down to `n` payload words. */
    method ShrinkInPlace(m: nat, n: nat, ghost i: nat)
      requires Valid() && i < |bs| - 1 && bs[i] == Block(m, true)
      requires 0 < n && m + HDR + n + HDR + MIN_WORDS < bs[i + 1].at
      modifies this, words
      ensures Valid() && maxMem == old(maxMem)
      ensures bs == Shrink(old(bs), i, m + HDR + n)
      ensures lfree == HintPlug(Insert(old(bs), i, m + HDR + n), i + 1, old(lfree))
      ensures Keeps(old(words[..]), words[..], bs)
    {
      hide Tiled, Shaped, Coalesced, CoalescedExcept, Sum, Keeps, Live, Plug, HintPlug, Insert;
      ghost var s0 := words[..];
      var q := m + HDR + n;
      ShrinkPrep(s0, bs, i, q, lfree, size);
      usedMem := usedMem - (words[m + 1] - m - HDR - n);
      Cut(m, q);
      bs := Insert(bs, i, q);
      ghost var s1, b1 := words[..], bs;
      PlugHoles(q, i + 1);
      KeepsThen(s0, s1, words[..], b1, bs);
    }

    /** Moves the block at `p` to a new one of at least `n` words, if there is one. */
    method Move(p: nat, n: nat) returns (r: Option<int>, ghost j: nat)
      requires Valid() && Allocated(p) && 0 < n && n * ALIGN < WORD
      modifies this, words
      ensures Valid()
      ensures r.None? <==> Refused(old(bs), old(lfree), n * ALIGN, size)
      ensures r.None? ==> maxMem == old(maxMem)
      ensures r.None? ==> bs == old(bs) && words[..] == old(words[..]) && lfree == old(lfree) && usedMem == old(usedMem)
      ensures r.Some? ==> var x := old(BlockAt(p));
        && Allocated(r.value) && BlockAt(r.value).end >= r.value + n && r.value != p
        && maxMem == Max(old(maxMem), old(usedMem) + BlockAt(r.value).end - BlockAt(r.value).start)
        && BlockAt(r.value) !in old(Live(bs))
        && Live(bs) == old(Live(bs)) + iset{BlockAt(r.value)} - iset{x}
        && SamePayload(old(words[..]), p, words[..], r.value, if x.end - p < n then x.end - p else n)
        && OthersKept(old(words[..]), old(bs), words[..], bs, x, HDR)
      // it goes into the first block that fits from the hint on
      ensures r.Some? ==> FirstBehind(old(bs), old(lfree), j, Need(n * ALIGN), size) && j + 1 < |old(bs)|
      ensures r.Some? ==> r.value == old(bs)[j].at + HDR
      ensures r.Some? ==> BlockAt(r.value).end - r.value < Need(n * ALIGN) + HDR + MIN_WORDS
      ensures r.Some? ==> MovedInto(old(bs), old(lfree), j, Need(n * ALIGN), p, bs, lfree)
      ensures Lowest(old(bs), old(lfree)) ==> Lowest(bs, lfree)
    {
      hide Tiled, Rep, Coalesced, Sum, Keeps, Live, Lowest, Taken, Fits, FirstFit, SamePayload, OthersKept, FreeHead;
      hide Tiling.Release, Owned, Grant, NextFree, HintAfterFree, Need, FirstBehind, StartOf;
      ghost var s0, b0, x, l0 := words[..], bs, BlockAt(p), lfree;
      Reads(s0, b0, IndexOf(p));
      HandedOutLive(b0, IndexOf(p));
      LiveAt(s0, b0, x, size);
      var len := words[p - HDR + 1] - p;
      var c := if len < n then len else n;
      r, j := Malloc(n * ALIGN);
      if r.Some? {
        FitsInside(b0, l0, j, Need(n * ALIGN), size);
        TakenAt(b0, j, Need(n * ALIGN));
        ghost var b1, h := bs, lfree;
        LiveAt(words[..], b1, x, size);
        ghost var k := IndexOf(p);
        CopyAndFree(p, r.value, c, s0, b0, x, ExtentOf(b1, j));
        MovedSo(b0, l0, j, Need(n * ALIGN), p, b1, bs, lfree, k, h);
      }
    }

    /** The rest of a move from `x` to the new block `y`. */
    method CopyAndFree(p: nat, q: nat, c: nat, ghost s0: seq<int>, ghost b0: seq<Block>, ghost x: Extent,
                       ghost y: Extent)
      requires Valid() && Laid(s0, b0, size) && Keeps(s0, words[..], b0)
      requires x in Live(b0) && y !in Live(b0) && Live(bs) == Live(b0) + iset{y}
      requires x.start + HDR == p && y.start + HDR == q && c <= x.end - p && c <= y.end - q
      requires Allocated(p)
      modifies this, words
      ensures Valid() && Live(bs) == Live(b0) + iset{y} - iset{x} && Allocated(q) && BlockAt(q) == y && q != p
      ensures maxMem == old(maxMem)
      ensures bs == Tiling.Release(old(bs), old(IndexOf(p)))
      ensures lfree == HintAfterFree(old(bs), old(IndexOf(p)), old(lfree))
      ensures StartOf(bs, Min(old(lfree), p - HDR), lfree)
      ensures SamePayload(s0, p, words[..], q, c) && OthersKept(s0, b0, words[..], bs, x, HDR)
      ensures Lowest(old(bs), old(lfree)) ==> Lowest(bs, lfree)
    {
      hide Tiled, Rep, Coalesced, Sum, Keeps, Live, Lowest, SamePayload, OthersKept, FreeHead, Tiling.Release, Owned;
      hide HintAfterFree, StartOf;
      ghost var s1, b1 := words[..], bs;
      LiveAt(s1, b1, x, size);
      LiveAt(s1, b1, y, size);
      LiveDisjoint(b1, GAP, x, y);
      Copy(p, q, c);
      ghost var s2 := words[..];
      CopyKeeps(s1, s2, b1, lfree, size, y, c);
      ReleasePrep(s2, b1, IndexOf(p), lfree, size);
      Release(p);
      KeptByMove(s0, b0, s1, b1, s2, words[..], bs, x, y, c, size);
      LiveAt(words[..], bs, y, size);
    }

    /** The block `x` at `p`, as of memory `s` and layout `b`, now is at `r` with
        room for `n` words; its first words are kept and all other blocks are as before. */
    ghost predicate Resized(s: seq<int>, b: seq<Block>, x: Extent, p: int, r: int, n: nat)
      reads this, words
    {
      && Allocated(r) && BlockAt(r).end >= r + n
      && Live(bs) == Live(b) - iset{x} + iset{BlockAt(r)} && BlockAt(r) !in Live(b) - iset{x}
      && SamePayload(s, p, words[..], r, if x.end - p < n then x.end - p else n)
      && OthersKept(s, b, words[..], bs, x, HDR)
    }

    /** Whether `Resize` cuts the block instead of moving it. */
    ghost predicate CutsInPlace(p: int, n: nat)
      requires Allocated(p)
      reads this
    {
      n + HDR + MIN_WORDS < BlockAt(p).end - p
    }

    /** Whether it does neither, because the block has that size already. */
    ghost predicate Moves(p: int, n: nat)
      requires Allocated(p)
      reads this
    {
      n != BlockAt(p).end - p && !CutsInPlace(p, n)
    }

    lemma HintStays()
      requires Valid()
      ensures NextFree(bs, lfree, lfree)
    {
      hide Rep, Tiled, Coalesced, Sum;
      NextFreeHere(bs, lfree);
    }

    /** The block at `p` cut down to `n` words: its own words and all other blocks are kept. */
    method CutDown(p: nat, n: nat)
      requires Valid() && Allocated(p) && 0 < n && CutsInPlace(p, n)
      modifies this, words
      ensures Valid() && maxMem == old(maxMem)
      ensures Resized(old(words[..]), old(bs), old(BlockAt(p)), p, p, n)
      ensures bs == Shrink(old(bs), old(IndexOf(p)), p + n)
      ensures lfree == HintAfterCut(old(bs), old(IndexOf(p)), p + n, old(lfree))
      ensures BlockAt(p).end == p + n && StartOf(bs, old(lfree), lfree)
      // block by block: the tail is free, and takes in a free block behind it
      ensures var i := old(IndexOf(p));
        bs == old(bs)[..i + 1] + [Block(p + n, false)]
              + (if old(bs)[i + 1].used then old(bs)[i + 1..] else old(bs)[i + 2..])
      ensures Lowest(old(bs), old(lfree)) ==> (Lowest(bs, lfree) <==>
        old(lfree) < p || (old(lfree) == old(BlockAt(p).end) && old(lfree) < size + HDR))
    {
      hide Tiled, Rep, Coalesced, Sum, Keeps, Live, Lowest, SamePayload, OthersKept, FreeHead, Shrink;
      hide HintPlug, HintAfterCut, StartOf;
      ghost var i, s0, b0, x, m := IndexOf(p), words[..], bs, BlockAt(p), p - HDR;
      HandedOutLive(b0, i);
      LiveAt(s0, b0, x, size);
      ShrinkPrep(s0, b0, i, p + n, lfree, size);
      ShrinkHintAt(s0, b0, i, p + n, lfree, size);
      ShrinkInPlace(p - HDR, n, i);
      KeptByShrink(s0, b0, words[..], bs, x, Extent(m, p + n), size);
      CutIsNew(b0, x, Extent(m, p + n));
      LastIsUsed(s0, b0, size);
      ShrinkBlocks(b0, i, p + n);
      CutHintAt(s0, b0, words[..], i, p + n, old(lfree), size);
      LiveAt(words[..], bs, Extent(m, p + n), size);
    }

    method Resize(p: nat, n: nat) returns (r: Option<int>, ghost j: nat)
      requires Valid() && Allocated(p) && 0 < n && n * ALIGN < WORD
      modifies this, words
      ensures Valid()
      ensures r.None? ==> bs == old(bs) && words[..] == old(words[..]) && lfree == old(lfree) && usedMem == old(usedMem)
      ensures r.Some? ==> Resized(old(words[..]), old(bs), old(BlockAt(p)), p, r.value, n)
      ensures r.None? <==> old(Moves(p, n)) && Refused(old(bs), old(lfree), n * ALIGN, size)
      ensures r == Some(p) <==> !old(Moves(p, n))
      ensures r.Some? ==> Allocated(r.value) && BlockAt(r.value).end >= r.value + n
      ensures n == old(BlockAt(p)).end - p ==> bs == old(bs) && words[..] == old(words[..]) && lfree == old(lfree)
      // a block that stays has exactly the size asked for, and only a rest of more than a minimal block is cut off
      ensures r == Some(p) <==>
        n == old(BlockAt(p)).end - p || n + HDR + MIN_WORDS < old(BlockAt(p)).end - p
      ensures r == Some(p) ==> BlockAt(p).end == p + n && StartOf(bs, old(lfree), lfree)
      ensures r.Some? && r.value != p ==> BlockAt(r.value).end - r.value < Need(n * ALIGN) + HDR + MIN_WORDS
      // layout and hint after a cut, and after a move
      ensures old(CutsInPlace(p, n)) ==>
        && bs == Shrink(old(bs), old(IndexOf(p)), p + n)
        && lfree == HintAfterCut(old(bs), old(IndexOf(p)), p + n, old(lfree))
      ensures r.Some? && old(Moves(p, n)) ==>
        && FirstBehind(old(bs), old(lfree), j, Need(n * ALIGN), size) && j + 1 < |old(bs)|
        && r.value == old(bs)[j].at + HDR && MovedInto(old(bs), old(lfree), j, Need(n * ALIGN), p, bs, lfree)
      ensures maxMem == if r.Some? && r != Some(p)
                        then Max(old(maxMem), old(usedMem) + BlockAt(r.value).end - BlockAt(r.value).start)
                        else old(maxMem)
      ensures Lowest(old(bs), old(lfree)) ==> (Lowest(bs, lfree) <==>
        !old(CutsInPlace(p, n)) || old(lfree) < p || (old(lfree) == old(BlockAt(p).end) && old(lfree) < size + HDR))
    {
      hide Tiled, Rep, Coalesced, Sum, Keeps, Live, Lowest, SamePayload, OthersKept, FreeHead, Shrink;
      hide HintPlug, HintAfterCut, HintAfterFree, MovedInto, FirstBehind, Need, StartOf;
      var m := p - HDR;
      j := 0;
      ghost var i, s0, b0, x := IndexOf(p), words[..], bs, BlockAt(p);
      Reads(s0, b0, i);
      HandedOutLive(b0, i);
      LiveAt(s0, b0, x, size);
      var len := words[m + 1] - p;
      HintStands(s0, b0, lfree, size);
      if len == n {
        OthersSame(s0, b0, x, size);
        return Some(p), j;
      }
      if n + HDR + MIN_WORDS < len {
        CutDown(p, n);
        return Some(p), j;
      }
      r, j := Move(p, n);
    }

    /** Whether a pointer is one the code takes for a block of this heap. */
    predicate Inside(p: int) {
      0 <= p < size + HDR
    }

    method Realloc(p: Option<int>, bytes: u32) returns (r: Option<int>, ghost j: nat)
      requires Valid() && (p.None? ==> !Endless(size, Align(bytes)))
      requires p.Some? && (Inside(p.value) || Align(bytes) == 0) ==> Allocated(p.value)
      modifies this, words
      ensures Valid()
      // when the result is null
      ensures r.None? <==>
        || Align(bytes) == 0 || Align(bytes) / ALIGN > size
        || (p.None? && Refused(old(bs), old(lfree), Align(bytes), size))
        || (p.Some? && Inside(p.value) && old(Moves(p.value, Align(bytes) / ALIGN))
            && Refused(old(bs), old(lfree), Align(bytes), size))
      // a failed request changes nothing, but what rounds to zero frees the block
      ensures r.None? && Align(bytes) != 0 ==>
        bs == old(bs) && words[..] == old(words[..]) && lfree == old(lfree) && usedMem == old(usedMem)
      ensures Align(bytes) == 0 ==> r.None? && Keeps(old(words[..]), words[..], bs)
      ensures Align(bytes) == 0 && p.Some? ==> Live(bs) == old(Live(bs)) - iset{old(BlockAt(p.value))}
      ensures r.None? && p.Some? && old(Allocated(p.value)) ==>
        (old(BlockAt(p.value)) in Live(bs) <==> 0 < bytes <= WORD - ALIGN)
      // a null pointer asks for a new block
      ensures r.Some? && p.None? ==>
        && Allocated(r.value) && BlockAt(r.value) !in old(Live(bs))
          && Live(bs) == old(Live(bs)) + iset{BlockAt(r.value)}
        && Keeps(old(words[..]), words[..], old(bs))
      // a pointer outside the heap comes back as it is
      ensures r.Some? && p.Some? && !Inside(p.value) ==> r == p && bs == old(bs) && words[..] == old(words[..])
      // any other block is resized, where it is if it need not grow and can be cut
      ensures r.Some? && p.Some? && Inside(p.value) ==>
        && Resized(old(words[..]), old(bs), old(BlockAt(p.value)), p.value, r.value, Align(bytes) / ALIGN)
        && (r == p <==> !old(Moves(p.value, Align(bytes) / ALIGN)))
        && (r == p <==> var len := old(BlockAt(p.value)).end - p.value; var n := Align(bytes) / ALIGN;
                        n == len || n + HDR + MIN_WORDS < len)
        && (r == p ==> BlockAt(p.value).end == p.value + Align(bytes) / ALIGN)
      // which block a moved one goes into, and the layout then
      ensures r.Some? && p.Some? && Inside(p.value) && r != p ==>
        && FirstBehind(old(bs), old(lfree), j, Need(Align(bytes)), size) && j + 1 < |old(bs)|
        && r.value == old(bs)[j].at + HDR
        && MovedInto(old(bs), old(lfree), j, Need(Align(bytes)), p.value, bs, lfree)
      // the hint in all other cases
      ensures Align(bytes) == 0 ==>
        lfree == if p.Some? then HintAfterFree(old(bs), old(IndexOf(p.value)), old(lfree)) else old(lfree)
      ensures p.None? ==> NextFree(bs, old(lfree), lfree)
      ensures Align(bytes) == 0 && p.Some? ==> StartOf(bs, Min(old(lfree), p.value - HDR), lfree)
      ensures r.Some? && r == p && Inside(p.value) ==> StartOf(bs, old(lfree), lfree)
      ensures p.Some? && (r == p || r.None?) && Align(bytes) != 0 ==>
        lfree == if r == p && Inside(p.value) && old(CutsInPlace(p.value, Align(bytes) / ALIGN))
                 then HintAfterCut(old(bs), old(IndexOf(p.value)), p.value + Align(bytes) / ALIGN, old(lfree))
                 else old(lfree)
      // only a cut above the hint loses the lowest free block
      ensures Lowest(old(bs), old(lfree)) ==>
        (Lowest(bs, lfree) <==>
         !(r.Some? && r == p && Inside(p.value) && old(CutsInPlace(p.value, Align(bytes) / ALIGN)))
         || old(lfree) < p.value || (old(lfree) == old(BlockAt(p.value).end) && old(lfree) < size + HDR))
      // what comes back holds the bytes asked for
      ensures r.Some? && (p.None? || Inside(p.value)) ==>
        Allocated(r.value) && (BlockAt(r.value).end - r.value) * ALIGN >= bytes
      // and not much more, if it is a new block
      ensures r.Some? && r != p && (p.None? || Inside(p.value)) ==>
        BlockAt(r.value).end - r.value < Need(Align(bytes)) + HDR + MIN_WORDS
      // the peak
      ensures maxMem == if r.Some? && r != p && (p.None? || Inside(p.value))
                        then Max(old(maxMem), old(usedMem) + BlockAt(r.value).end - BlockAt(r.value).start)
                        else old(maxMem)
    {
      hide Tiled, Rep, Coalesced, Sum, Keeps, Live, Lowest, Resized, FreeHead, Taken, Fits, FirstFit;
      hide HintAfterCut, HintAfterFree, MovedInto, FirstBehind, NextFree, Shrink, Tiling.Release, StartOf, Need;
      AlignCovers(bytes);
      j := 0;
      HintStays();
      var n := Align(bytes) / ALIGN;
      if p.Some? && Allocated(p.value) {
        HandedOutLive(bs, IndexOf(p.value));
      }
      if n > size {
        return None, j;
      } else if n == 0 {
        Free(p);
        return None, j;
      }
      if p.None? {
        r, j := Malloc(n * ALIGN);
        if r.Some? {
          HandedOutLive(bs, j);
          LiveAt(words[..], bs, ExtentOf(bs, j), size);
        }
        return;
      }
      if p.value < 0 || p.value >= size + HDR {
        return p, j;
      }
      r, j := Resize(p.value, n);
    }
  }

  lemma ThreeBlocks(bs: seq<Block>, lfree: nat)
    requires bs == [Block(0, true), Block(33, true), Block(66, false), Block(103, true)] && NextFree(bs, 33, lfree)
    ensures lfree == 66
  {
    assert !bs[2].used;
    var i: nat :| i < |bs| && bs[i].at == lfree && (!bs[i].used || i + 1 == |bs|);
  }

  lemma TwoBlocks(bs: seq<Block>, lfree: nat)
    requires bs == [Block(0, true), Block(33, false), Block(103, true)] && NextFree(bs, 0, lfree)
    ensures lfree == 33 && Fits(bs, 1, 30, 100)
  {
    assert !bs[1].used;
    var i: nat :| i < |bs| && bs[i].at == lfree && (!bs[i].used || i + 1 == |bs|);
  }

  lemma ThirtyWords()
    ensures Need(120) == 30
    ensures Fits([Block(0, false), Block(103, true)], 0, 30, 100)
    ensures Taken([Block(0, false), Block(103, true)], 0, 30) == [Block(0, true), Block(33, false), Block(103, true)]
    ensures Taken([Block(0, true), Block(33, false), Block(103, true)], 1, 30)
      == [Block(0, true), Block(33, true), Block(66, false), Block(103, true)]
  {}

  /** Two blocks are allocated in a fresh heap and the first is shrunk: its tail is free below the hint. */
  method ShrinkLosesHint() returns (h: Heap)
    ensures fresh(h) && h.Valid() && !Lowest(h.bs, h.lfree)
  {
    hide Rep, FreeHead, Coalesced, Sum, Keeps, Taken, Lowest, FirstFit, Tiled, OthersKept, SamePayload, Live, NextFree;
    hide Shrink, HintAfterCut, MovedInto, FirstBehind, Need;
    h := new Heap(100);
    ThirtyWords();
    ghost var i, j;
    var a, b;
    a, i := h.Malloc(120);
    TwoBlocks(h.bs, h.lfree);
    b, j := h.Malloc(120);
    ThreeBlocks(h.bs, h.lfree);
    assert h.bs[0].used && h.bs[0].at + HDR == 3;
    b, j := h.Resize(3, 12);
  }

  /** A request of 2^32 - 1 bytes is rounded to zero and gets a block of twelve bytes. */
  method WrapShortens() returns (h: Heap, r: Option<int>)
    ensures fresh(h) && h.Valid() && r.Some? && h.Allocated(r.value) && h.BlockAt(r.value).end == r.value + MIN_WORDS
  {
    h := new Heap(100);
    assert Fits(h.bs, 0, MIN_WORDS, 100);
    ghost var i;
    r, i := h.Malloc(0xFFFF_FFFF);
    assert i == 0;
    LiveAt(h.words[..], h.bs, ExtentOf(h.bs, 0), h.size) by { HandedOutLive(h.bs, 0); }
  }

  lemma WrapWords()
    ensures Align(0xFFFF_FFFF) == 0 && Align(40) == 40 && Need(40) == 10
  {}

  /** A block resized to 2^32 - 1 bytes is freed, and the result is null. */
  method WrapFrees() returns (h: Heap, r: Option<int>, ghost x: Extent)
    ensures fresh(h) && h.Valid() && r.None? && x.end - x.start >= HDR + 10 && x !in Live(h.bs)
  {
    hide Rep, FreeHead, Coalesced, Sum, Keeps, Taken, Lowest, FirstFit, Tiled, OthersKept, SamePayload, Live;
    hide NextFree, FirstBehind, HintAfterFree, HintAfterCut, MovedInto, Shrink, Tiling.Release, Align, Need;
    h := new Heap(100);
    WrapWords();
    assert Fits(h.bs, 0, 10, 100);
    ghost var i;
    var p;
    p, i := h.Malloc(40);
    HandedOutLive(h.bs, i);
    LiveAt(h.words[..], h.bs, ExtentOf(h.bs, i), h.size);
    x := h.BlockAt(p.value);
    ghost var j;
    r, j := h.Realloc(p, 0xFFFF_FFFF);
  }

  /** A fresh heap refuses a request for its whole region, though it fits. */
  method FreshRefusesAll(size: nat) returns (h: Heap, r: Option<int>)
    requires size >= MIN_WORDS && (size + 2 * HDR) * ALIGN < WORD
    ensures fresh(h) && h.Valid() && r.None?
    ensures h.bs == [Block(0, false), Block(size + HDR, true)]
  {
    h := new Heap(size);
    assert Align(size * ALIGN) == size * ALIGN;
    ghost var i;
    r, i := h.Malloc(size * ALIGN);
  }

  /** Where the scan of a region of fewer words than the minimal block is after `n` steps:
      the end marker, whose next block is itself, follows the first. */
  function TinyScan(size: nat, n: nat): nat {
    if n == 0 then 0 else size + HDR
  }

  /** There the scan goes on for ever: the bound has wrapped, the first block is too short
      and the end marker is in use. */
  lemma TinyRegionNeverEnds(s: seq<int>, bs: seq<Block>, size: nat, n: nat)
    requires Laid(s, bs, size) && size < MIN_WORDS && bs == [Block(0, false), Block(size + HDR, true)]
    ensures var ptr := TinyScan(size, n);
      && ptr + 1 < |s| && s[ptr + 1] == TinyScan(size, n + 1)
      && ptr * ALIGN < Sub32(size * ALIGN, MIN_WORDS * ALIGN)
      && !(!IsUsed(s[ptr]) && s[ptr + 1] - (ptr + HDR) >= MIN_WORDS)
  {
    Reads(s, bs, 0);
    Reads(s, bs, 1);
  }
}
