/** The layout shared by the two boundary-tag allocators: a region cut into
    consecutive blocks.  A block runs from its own offset to the offset of the
    next one; the last block is the end marker, which is always in use. */
module Tiling {

  datatype Block = Block(at: nat, used: bool)

  /** The blocks start at offset 0 and follow each other at least `gap` apart. */
  ghost predicate Tiled(bs: seq<Block>, gap: nat) {
    && |bs| >= 2
    && bs[0].at == 0
    && bs[|bs| - 1].used
    && forall i, j | 0 <= i < j < |bs| :: bs[i].at + gap <= bs[j].at
  }

  /** No two neighbouring blocks are both free. */
  ghost predicate Coalesced(bs: seq<Block>) {
    forall i, j | 0 <= i < j < |bs| && j == i + 1 :: bs[i].used || bs[j].used
  }

  /** As `Coalesced`, but block `k` may have free neighbours. */
  ghost predicate CoalescedExcept(bs: seq<Block>, k: nat) {
    forall i, j | 0 <= i < j < |bs| && j == i + 1 && i != k && j != k :: bs[i].used || bs[j].used
  }

  datatype Extent = Extent(start: nat, end: nat)

  /** What block `i` occupies, header included. */
  function ExtentOf(bs: seq<Block>, i: nat): Extent
    requires i + 1 < |bs|
  {
    Extent(bs[i].at, bs[i + 1].at)
  }

  ghost predicate HandedOut(bs: seq<Block>, i: nat, x: Extent) {
    i + 1 < |bs| && bs[i].used && x == ExtentOf(bs, i)
  }

  ghost predicate IsLive(bs: seq<Block>, x: Extent) {
    exists i :: HandedOut(bs, i, x)
  }

  /** The extents handed out to callers. */
  ghost function Live(bs: seq<Block>): iset<Extent> {
    iset x | IsLive(bs, x)
  }

  function Mark(bs: seq<Block>, i: nat, used: bool): seq<Block>
    requires i < |bs|
  {
    bs[i := Block(bs[i].at, used)]
  }

  /** A new free block starting at `at`, cut from the tail of block `i`. */
  function Insert(bs: seq<Block>, i: nat, at: nat): seq<Block>
    requires i < |bs|
  {
    bs[..i + 1] + [Block(at, false)] + bs[i + 1..]
  }

  /** Block `i` absorbed by its predecessor. */
  function Drop(bs: seq<Block>, i: nat): seq<Block>
    requires i < |bs|
  {
    bs[..i] + bs[i + 1..]
  }

  function MergeNext(bs: seq<Block>, i: nat): (r: seq<Block>)
    requires i < |bs|
    ensures i < |r|
  {
    if i + 1 < |bs| && !bs[i + 1].used then Drop(bs, i + 1) else bs
  }

  function MergePrev(bs: seq<Block>, i: nat): seq<Block>
    requires i < |bs|
  {
    if i > 0 && !bs[i - 1].used then Drop(bs, i) else bs
  }

  /** Block `i`, just freed, joined with its free neighbours. */
  function Plug(bs: seq<Block>, i: nat): seq<Block>
    requires i < |bs|
  {
    MergePrev(MergeNext(bs, i), i)
  }

  function Release(bs: seq<Block>, i: nat): seq<Block>
    requires i < |bs|
  {
    Plug(Mark(bs, i, false), i)
  }

  /** Block `i` handed out, with its tail from `at` on split off if `split`. */
  function Take(bs: seq<Block>, i: nat, split: bool, at: nat): seq<Block>
    requires i < |bs|
  {
    if split then Mark(Insert(bs, i, at), i, true) else Mark(bs, i, true)
  }

  /** Used block `i` cut at `at`; its tail becomes free. */
  function Shrink(bs: seq<Block>, i: nat, at: nat): seq<Block>
    requires i < |bs|
  {
    Plug(Insert(bs, i, at), i + 1)
  }

  /** Total size, less `h` bytes of header each, of the blocks whose flag is `u`. */
  function Sum(bs: seq<Block>, u: bool, h: nat): int {
    if |bs| <= 1 then 0
    else (if bs[0].used == u then bs[1].at - bs[0].at - h else 0) + Sum(bs[1..], u, h)
  }

  // ----- what each step does to the layout

  lemma LiveMark(bs: seq<Block>, i: nat, used: bool, gap: nat)
    requires Tiled(bs, gap) && gap > 0 && i < |bs| - 1
    ensures Live(Mark(bs, i, used)) ==
      if used then Live(bs) + iset{ExtentOf(bs, i)} else Live(bs) - iset{ExtentOf(bs, i)}
  {
    var r := Mark(bs, i, used);
    forall x, k: nat | k != i ensures HandedOut(r, k, x) <==> HandedOut(bs, k, x) {}
    assert used ==> HandedOut(r, i, ExtentOf(bs, i));
    forall k: nat | HandedOut(r, k, ExtentOf(bs, i)) ensures k == i {}
  }

  lemma HandedInsert(bs: seq<Block>, i: nat, at: nat, k: nat, x: Extent)
    requires i < |bs| - 1 && k != i
    ensures k < i ==> (HandedOut(Insert(bs, i, at), k, x) <==> HandedOut(bs, k, x))
    ensures k > i ==> (HandedOut(Insert(bs, i, at), k + 1, x) <==> HandedOut(bs, k, x))
  {
    var r := Insert(bs, i, at);
    if k < i {
      assert r[k] == bs[k] && r[k + 1] == bs[k + 1];
    } else if k < |bs| {
      assert r[k + 1] == bs[k];
      assert k + 1 < |bs| ==> r[k + 2] == bs[k + 1];
    }
  }

  lemma ExtentsDiffer(bs: seq<Block>, gap: nat, i: nat, k: nat)
    requires Tiled(bs, gap) && gap > 0 && i < |bs| - 1 && k < |bs| - 1 && i != k
    ensures bs[i].at != bs[k].at
  {
    assert bs[if i < k then i else k].at + gap <= bs[if i < k then k else i].at;
  }

  lemma LiveInsert(bs: seq<Block>, i: nat, at: nat, gap: nat)
    requires Tiled(bs, gap) && gap > 0 && i < |bs| - 1
    requires bs[i].at < at < bs[i + 1].at
    ensures Live(Insert(bs, i, at)) ==
      if bs[i].used then Live(bs) - iset{ExtentOf(bs, i)} + iset{Extent(bs[i].at, at)} else Live(bs)
  {
    hide Tiled;
    var r := Insert(bs, i, at);
    var goal := if bs[i].used then Live(bs) - iset{ExtentOf(bs, i)} + iset{Extent(bs[i].at, at)} else Live(bs);
    assert HandedOut(r, i, Extent(bs[i].at, at)) <==> bs[i].used;
    forall x | x in Live(r) ensures x in goal {
      var k: nat :| HandedOut(r, k, x);
      if k != i {
        assert r[i + 1] == Block(at, false);
        var m: nat := if k < i then k else k - 1;
        HandedInsert(bs, i, at, m, x);
        assert HandedOut(bs, m, x);
        ExtentsDiffer(bs, gap, i, m);
      }
    }
    forall x | x in goal ensures x in Live(r) {
      if !bs[i].used || x != Extent(bs[i].at, at) {
        var k: nat :| HandedOut(bs, k, x);
        assert k != i;
        HandedInsert(bs, i, at, k, x);
        assert IsLive(r, x);
      }
    }
  }

  lemma LiveDrop(bs: seq<Block>, i: nat)
    requires 0 < i < |bs| - 1
    requires !bs[i - 1].used && !bs[i].used
    ensures Live(Drop(bs, i)) == Live(bs)
  {
    var r := Drop(bs, i);
    forall x, k: nat | HandedOut(r, k, x) ensures HandedOut(bs, if k < i then k else k + 1, x) {}
    forall x, k: nat | HandedOut(bs, k, x) ensures HandedOut(r, if k < i then k else k - 1, x) {}
  }

  lemma DropTiled(bs: seq<Block>, i: nat, gap: nat)
    requires Tiled(bs, gap) && 0 < i < |bs| - 1
    ensures Tiled(Drop(bs, i), gap)
  {
    var r := Drop(bs, i);
    forall a, b | 0 <= a < b < |r| ensures r[a].at + gap <= r[b].at {
      assert r[a] == bs[if a < i then a else a + 1];
      assert r[b] == bs[if b < i then b else b + 1];
    }
  }

  lemma InsertAts(bs: seq<Block>, i: nat, at: nat, k: nat)
    requires i < |bs| && k <= |bs|
    ensures |Insert(bs, i, at)| == |bs| + 1
    ensures Insert(bs, i, at)[k].at == if k <= i then bs[k].at else if k == i + 1 then at else bs[k - 1].at
  {}

  lemma InsertShape(bs: seq<Block>, i: nat, at: nat)
    requires i < |bs| - 1
    ensures var r := Insert(bs, i, at);
      |r| == |bs| + 1 && r[i] == bs[i] && r[i + 1] == Block(at, false) && r[i + 2] == bs[i + 1]
        && r[|bs|] == bs[|bs| - 1]
  {}

  /** A cut can join the new block forwards only. */
  lemma ShrinkForward(bs: seq<Block>, i: nat, at: nat)
    requires i < |bs| - 1 && bs[i].used
    ensures i + 1 < |Insert(bs, i, at)| && Shrink(bs, i, at) == MergeNext(Insert(bs, i, at), i + 1)
  {
    var m := Insert(bs, i, at);
    assert m[i] == bs[i] && MergeNext(m, i + 1)[i] == m[i];
  }

  /** Block by block: the tail is a free block of its own, which takes in a free one behind it. */
  lemma ShrinkBlocks(bs: seq<Block>, i: nat, at: nat)
    requires i < |bs| - 1 && bs[i].used && bs[|bs| - 1].used
    ensures Shrink(bs, i, at)
      == bs[..i + 1] + [Block(at, false)] + (if bs[i + 1].used then bs[i + 1..] else bs[i + 2..])
  {
    ShrinkForward(bs, i, at);
    var m := Insert(bs, i, at);
    assert m[i + 2] == bs[i + 1] && m[..i + 2] == bs[..i + 1] + [Block(at, false)] && m[i + 2..] == bs[i + 1..];
    if !bs[i + 1].used { assert m[i + 3..] == bs[i + 2..]; }
  }

  lemma InsertTiled(bs: seq<Block>, i: nat, at: nat, gap: nat)
    requires Tiled(bs, gap) && i < |bs| - 1
    requires bs[i].at + gap <= at && at + gap <= bs[i + 1].at
    ensures Tiled(Insert(bs, i, at), gap)
  {
    var r := Insert(bs, i, at);
    forall a, b | 0 <= a < b < |r| ensures r[a].at + gap <= r[b].at {
      hide Insert;
      InsertAts(bs, i, at, a);
      InsertAts(bs, i, at, b);
    }
  }

  lemma MergeNextKeeps(bs: seq<Block>, i: nat, gap: nat)
    requires Tiled(bs, gap) && gap > 0 && i < |bs| - 1 && !bs[i].used
    requires CoalescedExcept(bs, i)
    ensures Tiled(MergeNext(bs, i), gap) && Live(MergeNext(bs, i)) == Live(bs)
  {
    if !bs[i + 1].used {
      DropTiled(bs, i + 1, gap);
      LiveDrop(bs, i + 1);
    }
  }

  lemma MergeNextCoalesces(bs: seq<Block>, i: nat)
    requires i < |bs| - 1 && !bs[i].used && bs[|bs| - 1].used
    requires CoalescedExcept(bs, i)
    ensures var m := MergeNext(bs, i);
      && i < |m| - 1 && m[..i + 1] == bs[..i + 1] && m[i + 1].used
      && (forall k, j | 0 <= k < j < |m| && j == k + 1 && j != i :: m[k].used || m[j].used)
  {
    if !bs[i + 1].used {
      var m := MergeNext(bs, i);
      assert bs[i + 1].used || bs[i + 2].used;
      forall k | 0 <= k < |m| - 1 && k + 1 != i ensures m[k].used || m[k + 1].used {
        if k > i { assert m[k] == bs[k + 1] && m[k + 1] == bs[k + 2]; }
      }
    }
  }

  lemma MergePrevCoalesces(m: seq<Block>, i: nat)
    requires i < |m| - 1 && !m[i].used && m[i + 1].used
    requires forall k, j | 0 <= k < j < |m| && j == k + 1 && j != i :: m[k].used || m[j].used
    ensures Coalesced(MergePrev(m, i))
  {
    if i > 0 && !m[i - 1].used {
      var r := MergePrev(m, i);
      forall k, j | 0 <= k < j < |r| && j == k + 1 ensures r[k].used || r[j].used {
        if k >= i { assert r[k] == m[k + 1] && r[j] == m[k + 2]; }
        else if j < i { assert r[k] == m[k] && r[j] == m[j]; }
        else { assert r[j] == m[i + 1]; }
      }
    }
  }

  /** Joining a freed block with its neighbours leaves a well-formed layout with
      the same extents handed out. */
  lemma PlugKeeps(bs: seq<Block>, i: nat, gap: nat)
    requires Tiled(bs, gap) && gap > 0 && i < |bs| - 1 && !bs[i].used
    requires CoalescedExcept(bs, i)
    ensures Tiled(Plug(bs, i), gap) && Coalesced(Plug(bs, i))
    ensures Live(Plug(bs, i)) == Live(bs)
  {
    MergeNextKeeps(bs, i, gap);
    MergeNextCoalesces(bs, i);
    var m := MergeNext(bs, i);
    assert m[i] == m[..i + 1][i] == bs[i];
    MergePrevCoalesces(m, i);
    if i > 0 && !m[i - 1].used {
      DropTiled(m, i, gap);
      LiveDrop(m, i);
    }
  }

  /** Freeing a block keeps the layout well formed and takes back exactly its extent. */
  lemma ReleaseKeeps(bs: seq<Block>, i: nat, gap: nat)
    requires Tiled(bs, gap) && Coalesced(bs) && gap > 0 && i < |bs| - 1 && bs[i].used
    ensures Tiled(Release(bs, i), gap) && Coalesced(Release(bs, i))
    ensures Live(Release(bs, i)) == Live(bs) - iset{ExtentOf(bs, i)}
  {
    LiveMark(bs, i, false, gap);
    PlugKeeps(Mark(bs, i, false), i, gap);
  }

  lemma MarkTiled(bs: seq<Block>, i: nat, used: bool, gap: nat)
    requires Tiled(bs, gap) && i < |bs| - 1
    ensures Tiled(Mark(bs, i, used), gap)
  {}

  lemma TakeCoalesced(bs: seq<Block>, i: nat, at: nat)
    requires Coalesced(bs) && i < |bs| - 1 && !bs[i].used
    ensures Coalesced(Mark(Insert(bs, i, at), i, true)) && Coalesced(Mark(bs, i, true))
  {
    var r := Mark(Insert(bs, i, at), i, true);
    assert bs[i + 1].used;
    forall k, j | 0 <= k < j < |r| && j == k + 1 ensures r[k].used || r[j].used {
      if k < i { assert r[k] == bs[k]; }
      if k > i + 1 { assert r[k] == bs[k - 1] && r[j] == bs[k]; }
      if k == i + 1 { assert r[j] == bs[i + 1]; }
    }
  }

  /** Handing out a free block keeps the layout well formed and adds exactly one extent. */
  lemma TakeKeeps(bs: seq<Block>, i: nat, split: bool, at: nat, gap: nat)
    requires Tiled(bs, gap) && Coalesced(bs) && gap > 0 && i < |bs| - 1 && !bs[i].used
    requires split ==> bs[i].at + gap <= at && at + gap <= bs[i + 1].at
    ensures var r := Take(bs, i, split, at);
      && Tiled(r, gap) && Coalesced(r)
      && Live(r) == Live(bs) + iset{Extent(bs[i].at, if split then at else bs[i + 1].at)}
  {
    hide Tiled, Coalesced, Live;
    TakeCoalesced(bs, i, at);
    if split {
      InsertTiled(bs, i, at, gap);
      LiveInsert(bs, i, at, gap);
      var m := Insert(bs, i, at);
      assert m[i] == bs[i] && m[i + 1].at == at;
      MarkTiled(m, i, true, gap);
      LiveMark(m, i, true, gap);
    } else {
      MarkTiled(bs, i, true, gap);
      LiveMark(bs, i, true, gap);
    }
  }

  lemma ShrinkCoalesces(bs: seq<Block>, i: nat, at: nat)
    requires Coalesced(bs) && i < |bs| - 1 && bs[i].used
    ensures CoalescedExcept(Insert(bs, i, at), i + 1)
  {
    var m := Insert(bs, i, at);
    forall k, j | 0 <= k < j < |m| && j == k + 1 && k != i + 1 && j != i + 1 ensures m[k].used || m[j].used {
      if k <= i { assert m[k] == bs[k] && m[j] == bs[j]; }
      if k > i + 1 { assert m[k] == bs[k - 1] && m[j] == bs[k]; }
    }
  }

  /** Cutting a used block keeps the layout well formed and shortens exactly its extent. */
  lemma ShrinkKeeps(bs: seq<Block>, i: nat, at: nat, gap: nat)
    requires Tiled(bs, gap) && Coalesced(bs) && gap > 0 && i < |bs| - 1 && bs[i].used
    requires bs[i].at + gap <= at && at + gap <= bs[i + 1].at
    ensures Tiled(Shrink(bs, i, at), gap) && Coalesced(Shrink(bs, i, at))
    ensures Live(Shrink(bs, i, at)) == Live(bs) - iset{ExtentOf(bs, i)} + iset{Extent(bs[i].at, at)}
  {
    InsertTiled(bs, i, at, gap);
    LiveInsert(bs, i, at, gap);
    ShrinkCoalesces(bs, i, at);
    PlugKeeps(Insert(bs, i, at), i + 1, gap);
  }

  /** Freeing a block right after handing it out restores the partition. */
  lemma ReleaseUndoesTake(bs: seq<Block>, i: nat, split: bool, at: nat)
    requires Coalesced(bs) && i < |bs| - 1 && !bs[i].used
    ensures Release(Take(bs, i, split, at), i) == bs
  {
    assert (i > 0 ==> bs[i - 1].used) && bs[i + 1].used;
    if split {
      ReleaseUndoesSplit(bs, i, at);
    } else {
      ReleaseUndoesWhole(bs, i);
    }
  }

  lemma ReleaseUndoesSplit(bs: seq<Block>, i: nat, at: nat)
    requires i < |bs| - 1 && !bs[i].used && (i > 0 ==> bs[i - 1].used)
    ensures Release(Mark(Insert(bs, i, at), i, true), i) == bs
  {
    MarkBack(Insert(bs, i, at), i);
    DropUndoesInsert(bs, i, at);
  }

  lemma ReleaseUndoesWhole(bs: seq<Block>, i: nat)
    requires i < |bs| - 1 && !bs[i].used && bs[i + 1].used && (i > 0 ==> bs[i - 1].used)
    ensures Release(Mark(bs, i, true), i) == bs
  {
    MarkBack(bs, i);
  }

  lemma MarkBack(bs: seq<Block>, i: nat)
    requires i < |bs| && !bs[i].used
    ensures Mark(Mark(bs, i, true), i, false) == bs
  {}

  lemma DropUndoesInsert(bs: seq<Block>, i: nat, at: nat)
    requires i < |bs|
    ensures var m := Insert(bs, i, at);
      m[i + 1] == Block(at, false) && m[..i + 1] == bs[..i + 1] && Drop(m, i + 1) == bs
  {}

  /** Joining backwards first and then forwards gives the same layout. */
  lemma PlugOrder(bs: seq<Block>, i: nat)
    requires 0 < i < |bs| && !bs[i - 1].used
    ensures Plug(bs, i) == MergeNext(MergePrev(bs, i), i - 1)
  {
    var d := Drop(bs, i);
    assert i + 1 < |bs| ==> d[i] == bs[i + 1];
    if i + 1 < |bs| && !bs[i + 1].used {
      assert Drop(Drop(bs, i + 1), i) == Drop(d, i);
    }
  }

  /** The same, whether or not there is anything to join. */
  lemma PlugBackwardFirst(bs: seq<Block>, i: nat)
    requires i < |bs|
    ensures Plug(bs, i) == MergeNext(MergePrev(bs, i), if i > 0 && !bs[i - 1].used then i - 1 else i)
  {
    if i > 0 && !bs[i - 1].used {
      PlugOrder(bs, i);
    } else {
      var m := MergeNext(bs, i);
      assert i > 0 ==> m[i - 1] == bs[i - 1];
    }
  }

  // ----- the layout is determined by what is handed out

  /** A block of one layout that is handed out is one of the other, with the same end. */
  lemma SameBlock(a: seq<Block>, b: seq<Block>, gap: nat, k: nat)
    requires Tiled(b, gap) && gap > 0 && Live(a) == Live(b)
    requires k + 1 < |a| && k + 1 < |b| && a[k].at == b[k].at && a[k].used
    ensures b[k].used && a[k + 1].at == b[k + 1].at
  {
    HandedOutLive(a, k);
    var x := ExtentOf(a, k);
    assert x in Live(b);
    var m: nat :| HandedOut(b, m, x);
    if m < k { Apart(b, gap, m, k); } else if k < m { Apart(b, gap, k, m); }
  }

  /** Behind a free block, the next one cannot start earlier in one layout than in the other. */
  lemma NotEarlier(a: seq<Block>, b: seq<Block>, gap: nat, k: nat)
    requires Tiled(a, gap) && Tiled(b, gap) && gap > 0 && Live(a) == Live(b) && a[|a| - 1].at == b[|b| - 1].at
    requires k + 1 < |a| && k + 1 < |b| && a[k].at == b[k].at && a[k + 1].used
    ensures a[k + 1].at >= b[k + 1].at
  {
    Apart(a, gap, k, k + 1);
    if k + 1 < |b| - 1 { Apart(b, gap, k + 1, |b| - 1); }
    if k + 2 < |a| {
      HandedOutLive(a, k + 1);
      var x := ExtentOf(a, k + 1);
      assert x in Live(b);
      var m: nat :| HandedOut(b, m, x);
      if m < k { Apart(b, gap, m, k); }
      if k + 1 < m { Apart(b, gap, k + 1, m); }
    }
  }

  lemma {:induction false} SamePrefix(a: seq<Block>, b: seq<Block>, gap: nat, k: nat)
    requires Tiled(a, gap) && Tiled(b, gap) && Coalesced(a) && Coalesced(b) && gap > 0
    requires Live(a) == Live(b) && a[|a| - 1].at == b[|b| - 1].at && k < |a|
    ensures k < |b| && a[k].at == b[k].at && a[..k] == b[..k] && (k + 1 == |a| <==> k + 1 == |b|)
  {
    hide Live;
    if k == 0 {
      assert a[..0] == b[..0];
    } else {
      SamePrefix(a, b, gap, k - 1);
      if a[k - 1].used {
        SameBlock(a, b, gap, k - 1);
      } else if b[k - 1].used {
        SameBlock(b, a, gap, k - 1);
      } else {
        NotEarlier(a, b, gap, k - 1);
        NotEarlier(b, a, gap, k - 1);
      }
      assert a[..k] == a[..k - 1] + [a[k - 1]] && b[..k] == b[..k - 1] + [b[k - 1]];
      if k + 1 < |a| { Apart(a, gap, k, |a| - 1); }
      if k + 1 < |b| { Apart(b, gap, k, |b| - 1); }
    }
  }

  /** Two coalesced layouts of one region that hand out the same extents are the same layout. */
  lemma LayoutIsUnique(a: seq<Block>, b: seq<Block>, gap: nat)
    requires Tiled(a, gap) && Tiled(b, gap) && Coalesced(a) && Coalesced(b) && gap > 0
    requires Live(a) == Live(b) && a[|a| - 1].at == b[|b| - 1].at
    ensures a == b
  {
    SamePrefix(a, b, gap, |a| - 1);
    assert a == a[..|a| - 1] + [a[|a| - 1]] && b == b[..|b| - 1] + [b[|b| - 1]];
  }

  /** When everything has been freed, in whatever order, the layout is the one the heap began with. */
  lemma NothingLiveIsFresh(bs: seq<Block>, gap: nat)
    requires Tiled(bs, gap) && Coalesced(bs) && gap > 0 && Live(bs) == iset{}
    ensures bs == [Block(0, false), Block(bs[|bs| - 1].at, true)]
  {
    var one := [Block(0, false), Block(bs[|bs| - 1].at, true)];
    Apart(bs, gap, 0, |bs| - 1);
    forall x ensures x !in Live(one) {}
    LayoutIsUnique(bs, one, gap);
  }

  // ----- sums

  lemma {:induction false} SumMark(bs: seq<Block>, i: nat, used: bool, u: bool, h: nat)
    requires i < |bs| - 1
    ensures Sum(Mark(bs, i, used), u, h) == Sum(bs, u, h)
      + (if used == u then bs[i + 1].at - bs[i].at - h else 0)
      - (if bs[i].used == u then bs[i + 1].at - bs[i].at - h else 0)
  {
    if i == 0 {
      assert Mark(bs, 0, used)[1..] == bs[1..];
    } else {
      assert Mark(bs, i, used)[1..] == Mark(bs[1..], i - 1, used);
      SumMark(bs[1..], i - 1, used, u, h);
    }
  }

  lemma {:induction false} SumInsert(bs: seq<Block>, i: nat, at: nat, u: bool, h: nat)
    requires i < |bs| - 1
    ensures Sum(Insert(bs, i, at), u, h) == Sum(bs, u, h)
      + (if bs[i].used == u then at - bs[i + 1].at else 0)
      + (if !u then bs[i + 1].at - at - h else 0)
  {
    var r := Insert(bs, i, at);
    if i == 0 {
      assert r[1..][1..] == bs[1..];
      assert r[1..][0] == Block(at, false) && r[1..][1] == bs[1];
    } else {
      assert r[1..] == Insert(bs[1..], i - 1, at);
      SumInsert(bs[1..], i - 1, at, u, h);
    }
  }

  lemma {:induction false} SumDrop(bs: seq<Block>, i: nat, u: bool, h: nat)
    requires 0 < i < |bs| - 1
    ensures Sum(Drop(bs, i), u, h) == Sum(bs, u, h)
      + (if bs[i - 1].used == u then bs[i + 1].at - bs[i].at else 0)
      - (if bs[i].used == u then bs[i + 1].at - bs[i].at - h else 0)
  {
    var r := Drop(bs, i);
    if i == 1 {
      assert r[1..] == bs[1..][1..];
    } else {
      assert r[1..] == Drop(bs[1..], i - 1);
      SumDrop(bs[1..], i - 1, u, h);
    }
  }

  /** Used space, free space and one header per block fill the region. */
  lemma {:induction false} SumsFill(bs: seq<Block>, h: nat)
    requires |bs| >= 1
    ensures Sum(bs, true, h) + Sum(bs, false, h) + h * (|bs| - 1) == bs[|bs| - 1].at - bs[0].at
  {
    if |bs| <= 1 {
    } else {
      SumsFill(bs[1..], h);
    }
  }

  lemma SumPlug(bs: seq<Block>, i: nat, u: bool, h: nat)
    requires i < |bs| - 1 && !bs[i].used && bs[|bs| - 1].used
    ensures Sum(Plug(bs, i), u, h) == Sum(bs, u, h)
      + (if u then 0 else h * ((if bs[i + 1].used then 0 else 1) + (if i > 0 && !bs[i - 1].used then 1 else 0)))
  {
    var m := MergeNext(bs, i);
    if !bs[i + 1].used {
      SumDrop(bs, i + 1, u, h);
      assert m[i] == bs[i] && (i > 0 ==> m[i - 1] == bs[i - 1]);
    }
    if i > 0 && !m[i - 1].used {
      SumDrop(m, i, u, h);
    }
  }

  lemma HandedOutLive(bs: seq<Block>, i: nat)
    requires i + 1 < |bs| && bs[i].used
    ensures ExtentOf(bs, i) in Live(bs)
  {
    assert HandedOut(bs, i, ExtentOf(bs, i));
  }

  /** Nothing handed out starts where a free block does. */
  lemma FreeIsNotLive(bs: seq<Block>, gap: nat, i: nat, x: Extent)
    requires Tiled(bs, gap) && gap > 0 && i + 1 < |bs| && !bs[i].used && x.start == bs[i].at
    ensures x !in Live(bs)
  {
    forall k: nat | k + 1 < |bs| && bs[k].used ensures bs[k].at != bs[i].at {
      ExtentsDiffer(bs, gap, i, k);
    }
  }

  // ----- what callers keep in their blocks

  lemma Apart(bs: seq<Block>, gap: nat, i: nat, j: nat)
    requires Tiled(bs, gap) && i < j < |bs|
    ensures bs[i].at + gap <= bs[j].at
  {}

  /** Two extents handed out never overlap. */
  lemma LiveDisjoint(bs: seq<Block>, gap: nat, x: Extent, y: Extent)
    requires Tiled(bs, gap) && x in Live(bs) && y in Live(bs) && x != y
    ensures x.end <= y.start || y.end <= x.start
  {
    var i: nat :| HandedOut(bs, i, x);
    var j: nat :| HandedOut(bs, j, y);
    if i + 1 < j { Apart(bs, gap, i + 1, j); }
    if j + 1 < i { Apart(bs, gap, j + 1, i); }
  }

  /** An extent handed out has its header and lies below the end marker. */
  lemma LiveBounds(bs: seq<Block>, gap: nat, x: Extent)
    requires Tiled(bs, gap) && x in Live(bs)
    ensures x.start + gap <= x.end <= bs[|bs| - 1].at
  {
    var i: nat :| HandedOut(bs, i, x);
    Apart(bs, gap, i, i + 1);
    if i + 1 < |bs| - 1 { Apart(bs, gap, i + 1, |bs| - 1); }
  }

  /** The first `n` payload words at `p` in `s` are those at `q` in `t`. */
  ghost predicate SamePayload(s: seq<int>, p: int, t: seq<int>, q: int, n: int) {
    n > 0 ==>
      && 0 <= p && p + n <= |s| && 0 <= q && q + n <= |t|
      && forall a | q <= a < q + n :: t[a] == s[a - q + p]
  }

  /** Every extent handed out under `bs`, except `x`, still is under `b2`, its payload,
      behind a header of `h`, unchanged. */
  ghost predicate OthersKept(s: seq<int>, bs: seq<Block>, t: seq<int>, b2: seq<Block>, x: Extent, h: nat) {
    forall y | y in Live(bs) && y != x ::
      y in Live(b2) && SamePayload(s, y.start + h, t, y.start + h, y.end - y.start - h)
  }
}
