/** The page allocator under the slab: an address-ordered list of free runs of pages. */
module Pages {
  import opened Machine

  datatype Run = Run(start: nat, len: nat) {
    function End(): nat {
      start + len
    }
  }

  /** Non-empty runs in address order, with at least one page between any two. */
  ghost predicate Canonical(list: seq<Run>) {
    && (forall i | 0 <= i < |list| :: list[i].len > 0)
    && forall i, j | 0 <= i < j < |list| :: list[i].End() < list[j].start
  }

  ghost predicate IsFree(list: seq<Run>, p: int) {
    exists i: nat :: InRun(list, i, p)
  }

  ghost predicate InRun(list: seq<Run>, i: nat, p: int) {
    i < |list| && list[i].start <= p < list[i].End()
  }

  /** The free pages. */
  ghost function FreePages(list: seq<Run>): iset<int> {
    iset p | IsFree(list, p)
  }

  predicate Within(p: int, start: int, n: int) {
    start <= p < start + n
  }

  ghost function Range(start: int, n: int): iset<int> {
    iset p | Within(p, start, n)
  }

  // ----- the list is determined by the pages it holds

  lemma FirstPage(list: seq<Run>)
    requires Canonical(list) && list != []
    ensures list[0].start in FreePages(list)
    ensures forall p | p in FreePages(list) :: p >= list[0].start
    ensures list[0].End() !in FreePages(list)
    ensures forall p | list[0].start <= p < list[0].End() :: p in FreePages(list)
  {
    forall p | list[0].start <= p < list[0].End() ensures p in FreePages(list) { assert InRun(list, 0, p); }
    forall p | p in FreePages(list) ensures p >= list[0].start && p != list[0].End() {
      var i :| InRun(list, i, p);
    }
  }

  lemma TailPages(list: seq<Run>)
    requires Canonical(list) && list != []
    ensures Canonical(list[1..])
    ensures FreePages(list[1..]) == FreePages(list) - Range(list[0].start, list[0].len)
  {
    var t := list[1..];
    forall p | IsFree(t, p) ensures IsFree(list, p) && p >= list[0].End() {
      var i: nat :| InRun(t, i, p);
      assert InRun(list, i + 1, p);
    }
    forall p | IsFree(list, p) && !(list[0].start <= p < list[0].End()) ensures IsFree(t, p) {
      var i: nat :| InRun(list, i, p);
      assert InRun(t, i - 1, p);
    }
  }

  /** Two lists with the same pages are the same list. */
  lemma {:induction false} ListIsUnique(a: seq<Run>, b: seq<Run>)
    requires Canonical(a) && Canonical(b) && FreePages(a) == FreePages(b)
    ensures a == b
  {
    hide FreePages, Canonical;
    if a == [] {
      if b != [] { FirstPage(b); NoPages(); }
    } else if b == [] {
      FirstPage(a);
      NoPages();
    } else {
      FirstPage(a);
      FirstPage(b);
      assert a[0].End() in FreePages(a) <==> a[0].End() in FreePages(b);
      assert b[0].End() in FreePages(a) <==> b[0].End() in FreePages(b);
      TailPages(a);
      TailPages(b);
      ListIsUnique(a[1..], b[1..]);
      assert a == [a[0]] + a[1..] && b == [b[0]] + b[1..];
    }
  }

  lemma NoPages()
    ensures FreePages([]) == iset{}
  {}

  /** When all pages of a region are free again, in whatever order they came back,
      the list is the single run it started as. */
  lemma AllFreeIsOneRun(list: seq<Run>, start: nat, n: nat)
    requires Canonical(list) && n > 0 && FreePages(list) == Range(start, n)
    ensures list == [Run(start, n)]
  {
    OneRun(start, n);
    ListIsUnique(list, [Run(start, n)]);
  }

  /** The pages behind the first `m` of a single run. */
  lemma RestOfRun(list: seq<Run>, start: nat, n: nat, p: nat, m: nat)
    requires list == [Run(start, n)] && 0 < m <= n && LowestFit(list, p, m)
    ensures p == start && Range(start, n) - Range(p, m) == Range(start + m, n - m)
  {
    forall q | start <= q < start + m ensures IsFree(list, q) { assert InRun(list, 0, q); }
    assert AllFree(list, start, m);
    assert IsFree(list, p);
    var i: nat :| InRun(list, i, p);
  }

  lemma OneRun(start: nat, n: nat)
    requires n > 0
    ensures Canonical([Run(start, n)]) && FreePages([Run(start, n)]) == Range(start, n)
  {
    var one := [Run(start, n)];
    forall p | start <= p < start + n ensures IsFree(one, p) { assert InRun(one, 0, p); }
  }

  // ----- runs of free pages

  lemma RunsApart(list: seq<Run>, i: nat, k: nat)
    requires Canonical(list) && i < |list| && k < |list|
    ensures i != k ==> Range(list[i].start, list[i].len) !! Range(list[k].start, list[k].len)
    ensures i < k ==> list[i].End() < list[k].start
    ensures k < i ==> list[k].End() < list[i].start
  {}

  /** The `n` pages from `p` on are free. */
  ghost predicate AllFree(list: seq<Run>, p: nat, n: nat) {
    forall q | p <= q < p + n :: IsFree(list, q)
  }

  /** `n` free pages in a row lie within one run. */
  lemma {:induction false} InOneRun(list: seq<Run>, p: nat, n: nat) returns (i: nat)
    requires Canonical(list) && n > 0 && AllFree(list, p, n)
    ensures i < |list| && list[i].start <= p && p + n <= list[i].End()
    decreases n
  {
    if n == 1 {
      assert IsFree(list, p);
      i :| InRun(list, i, p);
    } else {
      i := InOneRun(list, p, n - 1);
      assert IsFree(list, p + n - 1);
      var j: nat :| InRun(list, j, p + n - 1);
      RunsApart(list, i, j);
    }
  }

  lemma RunAllFree(list: seq<Run>, i: nat, n: nat)
    requires i < |list| && n <= list[i].len
    ensures AllFree(list, list[i].start, n)
  {
    forall q | list[i].start <= q < list[i].start + n ensures IsFree(list, q) { assert InRun(list, i, q); }
  }

  /** The lowest place with `n` free pages in a row. */
  ghost predicate LowestFit(list: seq<Run>, p: nat, n: nat) {
    AllFree(list, p, n) && forall r: nat | AllFree(list, r, n) :: p <= r
  }

  /** No `n` free pages in a row, or none asked for. */
  ghost predicate NoRun(list: seq<Run>, n: nat) {
    n == 0 || forall p: nat :: !AllFree(list, p, n)
  }

  /** The first run that is long enough starts at the lowest fit. */
  lemma FirstIsLowest(list: seq<Run>, i: nat, n: nat)
    requires Canonical(list) && n > 0 && i < |list| && list[i].len >= n
    requires forall k | 0 <= k < i :: list[k].len < n
    ensures LowestFit(list, list[i].start, n)
  {
    RunAllFree(list, i, n);
    forall r: nat | AllFree(list, r, n) ensures list[i].start <= r {
      var k := InOneRun(list, r, n);
      RunsApart(list, i, k);
    }
  }

  // ----- what the list operations do to the pages

  /** Run `i` replaced by `r`. */
  lemma ReplacePages(list: seq<Run>, i: nat, r: Run, out: iset<int>, add: iset<int>)
    requires i < |list|
    requires Range(r.start, r.len) == Range(list[i].start, list[i].len) - out + add
    requires forall k | 0 <= k < |list| && k != i :: Range(list[k].start, list[k].len) !! out
    ensures FreePages(list[i := r]) == FreePages(list) - out + add
  {
    var t := list[i := r];
    forall p | IsFree(t, p) ensures p in FreePages(list) - out + add {
      var k: nat :| InRun(t, k, p);
      if k == i {
        assert Within(p, r.start, r.len);
        assert p in Range(list[i].start, list[i].len) - out + add;
        if p !in add { assert InRun(list, i, p); }
      } else {
        assert InRun(list, k, p) && Within(p, list[k].start, list[k].len);
        assert p in Range(list[k].start, list[k].len);
      }
    }
    forall p | p in FreePages(list) - out + add ensures IsFree(t, p) {
      if p in add {
        assert p in Range(r.start, r.len);
        assert InRun(t, i, p);
      } else {
        var k: nat :| InRun(list, k, p);
        if k == i {
          assert p in Range(list[i].start, list[i].len) - out + add;
          assert p in Range(r.start, r.len);
        }
        assert InRun(t, k, p);
      }
    }
  }

  lemma RemovePages(list: seq<Run>, i: nat)
    requires Canonical(list) && i < |list|
    ensures Canonical(list[..i] + list[i + 1..])
    ensures FreePages(list[..i] + list[i + 1..]) == FreePages(list) - Range(list[i].start, list[i].len)
  {
    var t := list[..i] + list[i + 1..];
    forall k: nat | k < |t| ensures t[k] == list[RemovedFrom(i, k)] && RemovedFrom(i, k) < |list| {}
    forall p ensures IsFree(t, p) <==> IsFree(list, p) && !Within(p, list[i].start, list[i].len) {
      RemovePage(list, i, t, p);
    }
    forall a: nat, b: nat | a < b < |t| ensures t[a].End() < t[b].start {
      RunsApart(list, RemovedFrom(i, a), RemovedFrom(i, b));
    }
  }

  function RemovedFrom(i: nat, k: nat): nat {
    if k < i then k else k + 1
  }

  lemma RemovePage(list: seq<Run>, i: nat, t: seq<Run>, p: int)
    requires Canonical(list) && i < |list| && |t| == |list| - 1
    requires forall k: nat | k < |t| :: RemovedFrom(i, k) < |list| && t[k] == list[RemovedFrom(i, k)]
    ensures IsFree(t, p) <==> IsFree(list, p) && !Within(p, list[i].start, list[i].len)
  {
    if IsFree(t, p) {
      var k: nat :| InRun(t, k, p);
      assert InRun(list, RemovedFrom(i, k), p);
      RunsApart(list, i, RemovedFrom(i, k));
    }
    if IsFree(list, p) && !Within(p, list[i].start, list[i].len) {
      var k: nat :| InRun(list, k, p);
      var m: nat := if k < i then k else k - 1;
      assert RemovedFrom(i, m) == k && InRun(t, m, p);
    }
  }

  function Spliced(list: seq<Run>, i: nat, r: Run): seq<Run>
    requires i <= |list|
  {
    list[..i] + [r] + list[i..]
  }

  lemma SplicedAt(list: seq<Run>, i: nat, r: Run, k: nat)
    requires i <= |list| && k <= |list|
    ensures |Spliced(list, i, r)| == |list| + 1
    ensures Spliced(list, i, r)[k] == if k < i then list[k] else if k == i then r else list[k - 1]
  {}

  lemma InsertCanonical(list: seq<Run>, i: nat, r: Run)
    requires Canonical(list) && i <= |list| && r.len > 0
    requires forall k | 0 <= k < i :: list[k].End() < r.start
    requires forall k | i <= k < |list| :: r.End() < list[k].start
    ensures Canonical(Spliced(list, i, r))
  {
    hide Spliced;
    var t := Spliced(list, i, r);
    SplicedAt(list, i, r, i);
    forall a | 0 <= a < |t| ensures t[a].len > 0 { SplicedAt(list, i, r, a); }
    forall a, b | 0 <= a < b < |t| ensures t[a].End() < t[b].start {
      SplicedAt(list, i, r, a);
      SplicedAt(list, i, r, b);
    }
  }

  lemma InsertPages(list: seq<Run>, i: nat, r: Run)
    requires i <= |list|
    ensures FreePages(Spliced(list, i, r)) == FreePages(list) + Range(r.start, r.len)
  {
    hide Spliced;
    var t := Spliced(list, i, r);
    SplicedAt(list, i, r, i);
    forall p | IsFree(t, p) ensures p in FreePages(list) + Range(r.start, r.len) {
      var k: nat :| InRun(t, k, p);
      SplicedAt(list, i, r, k);
      if k != i { assert InRun(list, if k < i then k else k - 1, p); } else { assert Within(p, r.start, r.len); }
    }
    forall p | IsFree(list, p) ensures IsFree(t, p) {
      var k: nat :| InRun(list, k, p);
      var m := if k < i then k else k + 1;
      SplicedAt(list, i, r, m);
      assert InRun(t, m, p);
    }
    forall p | Within(p, r.start, r.len) ensures IsFree(t, p) { assert InRun(t, i, p); }
  }

  /** Pages being freed lie wholly before or behind each run. */
  lemma NotTouching(list: seq<Run>, i: nat, addr: nat, n: nat)
    requires Canonical(list) && i < |list| && n > 0 && Range(addr, n) !! FreePages(list)
    ensures list[i].End() <= addr || addr + n <= list[i].start
  {
    var p := if addr < list[i].start then list[i].start else addr;
    assert InRun(list, i, p) ==> p in FreePages(list);
    assert Within(p, addr, n) ==> p in Range(addr, n);
  }

  /** Once a run lies behind, so do all later ones. */
  lemma Behind(list: seq<Run>, i: nat, addr: nat, n: nat)
    requires Canonical(list) && i <= |list|
    requires i < |list| ==> addr + n < list[i].start
    ensures forall k | i <= k < |list| :: addr + n < list[k].start
  {
    forall k | i <= k < |list| ensures addr + n < list[k].start { RunsApart(list, i, k); }
  }

  lemma Ahead(list: seq<Run>, i: nat)
    requires Canonical(list) && i < |list|
    ensures forall k | 0 <= k < i :: list[k].End() < list[i].start
    ensures forall k | i < k < |list| :: list[i].End() < list[k].start
  {}

  /** A run extended upwards, short of the next one. */
  lemma GrowUp(list: seq<Run>, i: nat, addr: nat, n: nat)
    requires Canonical(list) && i < |list| && n > 0 && list[i].End() == addr && Range(addr, n) !! FreePages(list)
    ensures i + 1 < |list| ==> addr + n <= list[i + 1].start
    ensures var t := list[i := Run(list[i].start, list[i].len + n)];
      && FreePages(t) == FreePages(list) + Range(addr, n)
      && ((i + 1 < |list| ==> addr + n < list[i + 1].start) ==> Canonical(t))
  {
    if i + 1 < |list| {
      NotTouching(list, i + 1, addr, n);
      RunsApart(list, i, i + 1);
    }
    var r := Run(list[i].start, list[i].len + n);
    RangeJoins(list[i].start, list[i].len, n);
    ReplacePages(list, i, r, iset{}, Range(addr, n));
    assert FreePages(list) - iset{} == FreePages(list);
    if i + 1 < |list| ==> addr + n < list[i + 1].start {
      if i + 1 < |list| { Behind(list, i + 1, addr, n); }
      var t := list[i := r];
      forall a, b | 0 <= a < b < |t| ensures t[a].End() < t[b].start { RunsApart(list, a, b); }
    }
  }

  lemma RangeJoins(start: int, m: nat, n: nat)
    ensures Range(start, m + n) == Range(start, m) + Range(start + m, n)
    ensures Range(start, m) - iset{} + Range(start + m, n) == Range(start, m + n)
    ensures Range(start + m, n) - iset{} + Range(start, m) == Range(start, m + n)
  {}

  /** A run extended downwards, short of the one before. */
  lemma GrowDown(list: seq<Run>, i: nat, addr: nat, n: nat)
    requires Canonical(list) && i < |list| && n > 0 && list[i].start == addr + n
    requires forall k | 0 <= k < i :: list[k].End() < addr
    ensures var t := list[i := Run(addr, list[i].len + n)];
      Canonical(t) && FreePages(t) == FreePages(list) + Range(addr, n)
  {
    var r := Run(addr, list[i].len + n);
    RangeJoins(addr, n, list[i].len);
    ReplacePages(list, i, r, iset{}, Range(addr, n));
    assert FreePages(list) - iset{} == FreePages(list);
    var t := list[i := r];
    forall a, b | 0 <= a < b < |t| ensures t[a].End() < t[b].start { RunsApart(list, a, b); }
  }

  lemma NotShared(list: seq<Run>, d: seq<Run>, addr: nat, n: nat, up: Run)
    requires FreePages(d) == FreePages(list) - Range(up.start, up.len)
    requires Range(addr, n) !! FreePages(list) && up.start == addr + n
    requires Range(up.start, up.len) <= FreePages(list)
    ensures Range(addr, n + up.len) !! FreePages(d)
    ensures FreePages(d) + Range(addr, n + up.len) == FreePages(list) + Range(addr, n)
  {
    RangeJoins(addr, n, up.len);
    hide FreePages, Range;
  }

  /** The pages freed fill the gap between two runs. */
  lemma JoinRuns(list: seq<Run>, i: nat, addr: nat, n: nat)
    requires Canonical(list) && i + 1 < |list| && n > 0
    requires list[i].End() == addr && list[i + 1].start == addr + n && Range(addr, n) !! FreePages(list)
    ensures var t := list[..i] + [Run(list[i].start, list[i].len + n + list[i + 1].len)] + list[i + 2..];
      Canonical(t) && FreePages(t) == FreePages(list) + Range(addr, n)
  {
    // take the upper run out, then let the lower one grow over its pages too
    hide FreePages, Range, Canonical;
    var up := list[i + 1];
    var d := list[..i + 1] + list[i + 2..];
    RemovePages(list, i + 1);
    assert d[i] == list[i];
    RangeJoins(addr, n, up.len);
    FreeRange(list, i + 1);
    NotShared(list, d, addr, n, up);
    Ahead(list, i + 1);
    assert i + 1 < |d| ==> d[i + 1] == list[i + 2];
    GrowUp(d, i, addr, n + up.len);
    assert d[i := Run(list[i].start, list[i].len + n + up.len)]
      == list[..i] + [Run(list[i].start, list[i].len + n + up.len)] + list[i + 2..];
  }

  lemma FreeRange(list: seq<Run>, i: nat)
    requires i < |list|
    ensures Range(list[i].start, list[i].len) <= FreePages(list)
  {
    forall p | Within(p, list[i].start, list[i].len) ensures IsFree(list, p) { assert InRun(list, i, p); }
  }

  class PageAllocator {
    var list: seq<Run>

    ghost predicate Valid()
      reads this
    {
      Canonical(list)
    }

    /** One run of `n` pages, by way of freeing it into the empty list. */
    constructor (addr: nat, n: nat)
      requires n > 0
      ensures Valid() && list == [Run(addr, n)]
    {
      list := [];
      new;
      assert FreePages([]) == iset{};
      Free(addr, n);
      assert iset{} + Range(addr, n) == Range(addr, n);
      AllFreeIsOneRun(list, addr, n);
    }

    /** Takes `n` pages from the first run that has them, from its front. */
    method Alloc(n: nat) returns (r: Option<nat>)
      requires Valid()
      modifies this
      ensures Valid()
      ensures r.None? <==> NoRun(old(list), n)
      ensures r.None? ==> list == old(list)
      ensures r.Some? ==> n > 0 && LowestFit(old(list), r.value, n)
      ensures r.Some? ==> FreePages(list) == FreePages(old(list)) - Range(r.value, n)
    {
      if n == 0 {
        return None;
      }
      var i := 0;
      while i < |list|
        invariant i <= |list| && list == old(list)
        invariant forall k | 0 <= k < i :: list[k].len < n
      {
        var b := list[i];
        if b.len > n {
          FirstIsLowest(list, i, n);
          var rest := Run(b.start + n, b.len - n);
          forall k: nat | k < |list| && k != i ensures Range(list[k].start, list[k].len) !! Range(b.start, n) {
            RunsApart(list, i, k);
          }
          ReplacePages(list, i, rest, Range(b.start, n), iset{});
          list := list[i := rest];
          return Some(b.start);
        }
        if b.len == n {
          FirstIsLowest(list, i, n);
          RemovePages(list, i);
          list := list[..i] + list[i + 1..];
          return Some(b.start);
        }
        i := i + 1;
      }
      forall p: nat ensures !AllFree(list, p, n) {
        if AllFree(list, p, n) {
          var k := InOneRun(list, p, n);
        }
      }
      r := None;
    }

    /** Extends run `i` by the `n` pages behind it, and joins it with the next run if they meet. */
    method Extend(i: nat, addr: nat, n: nat)
      requires Valid() && n > 0 && Range(addr, n) !! FreePages(list)
      requires i < |list| && list[i].End() == addr
      modifies this
      ensures Valid() && FreePages(list) == FreePages(old(list)) + Range(addr, n)
    {
      hide FreePages, Range, Canonical;
      GrowUp(list, i, addr, n);
      var b := list[i];
      if i + 1 < |list| && b.End() + n == list[i + 1].start {
        JoinRuns(list, i, addr, n);
        list := list[..i] + [Run(b.start, b.len + n + list[i + 1].len)] + list[i + 2..];
      } else {
        list := list[i := Run(b.start, b.len + n)];
      }
    }

    /** Gives back `n` pages from `addr` on, joining them with the runs they touch. */
    method Free(addr: nat, n: nat)
      requires Valid() && n > 0 && Range(addr, n) !! FreePages(list)
      modifies this
      ensures Valid() && FreePages(list) == FreePages(old(list)) + Range(addr, n)
    {
      hide FreePages, Range, Canonical, Spliced;
      var i := 0;
      while i < |list|
        invariant i <= |list| && list == old(list)
        invariant forall k | 0 <= k < i :: list[k].End() < addr
      {
        var b := list[i];
        NotTouching(list, i, addr, n);
        if b.End() == addr {
          Extend(i, addr, n);
          return;
        }
        if b.start == addr + n {
          GrowDown(list, i, addr, n);
          list := list[i := Run(addr, b.len + n)];
          return;
        }
        if b.start > addr + n {
          break;
        }
        i := i + 1;
      }
      Behind(list, i, addr, n);
      InsertCanonical(list, i, Run(addr, n));
      InsertPages(list, i, Run(addr, n));
      list := Spliced(list, i, Run(addr, n));
    }
  }
}