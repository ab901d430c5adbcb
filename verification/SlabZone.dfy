/** Size classes of the slab allocator, and the chunks of one zone. */
module SlabZone {
  import opened Machine

  const NZONES: nat := 72
  const PAGE: nat := 4096        // RT_MM_PAGE_SIZE
  const HEADER: nat := 36        // sizeof(slab_zone)

  datatype SizeClass = SizeClass(index: nat, size: nat)

  /** `n` rounded up to a multiple of `g`. */
  function RoundUp(n: nat, g: nat): nat
    requires g > 0
  {
    (n + g - 1) / g * g
  }

  /** Rounds up to a multiple of `g`; classes of that granularity start `shift` up. */
  function Classify(n: nat, g: nat, shift: int): SizeClass
    requires g > 0 && RoundUp(n, g) / g + shift >= 0
  {
    SizeClass(RoundUp(n, g) / g + shift, RoundUp(n, g))
  }

  lemma ClassifyFacts(n: nat, g: nat)
    requires n > 0 && g > 0
    ensures var q := RoundUp(n, g) / g; RoundUp(n, g) == q * g && (q - 1) * g < n <= q * g && q >= 1
  {
    var m := n + g - 1;
    var q := m / g;
    assert m == q * g + m % g;
    DivExact(q, g);
    assert (q - 1) * g == q * g - g;
    assert q == 0 ==> q * g == 0;
  }

  lemma DivExact(q: nat, g: nat)
    requires g > 0
    ensures q * g / g == q
  {
    var m := q * g;
    var d := m / g;
    assert m == d * g + m % g;
    if d < q { Multiples(d, q, g); }
    if q < d { Multiples(q, d, g); }
  }

  /** The class of a request, and the request rounded up to the class's chunks.
      Requests of 16 KB and more have none and are left as they are. */
  function ZoneIndex(n: nat): SizeClass
    requires n > 0
  {
    ClassifyFacts(n, 8);
    if n < 128 then Classify(n, 8, -1)
    else if n < 256 then Classify(n, 16, 7)
    else if n < 512 then Classify(n, 32, 15)
    else if n < 1024 then Classify(n, 64, 23)
    else if n < 2048 then Classify(n, 128, 31)
    else if n < 4096 then Classify(n, 256, 39)
    else if n < 8192 then Classify(n, 512, 47)
    else if n < 16384 then Classify(n, 1024, 55)
    else SizeClass(0, n)
  }

  /** The granularity of the class of `n`, and the number its classes start at. */
  function Grain(n: nat): (nat, int) {
    if n < 128 then (8, -1) else if n < 256 then (16, 7) else if n < 512 then (32, 15)
    else if n < 1024 then (64, 23) else if n < 2048 then (128, 31) else if n < 4096 then (256, 39)
    else if n < 8192 then (512, 47) else (1024, 55)
  }

  /** In numbers: the class counts whole grains. */
  lemma ZoneIndexGrains(n: nat) returns (q: nat)
    requires 0 < n < 16384
    ensures var (g, shift) := Grain(n);
      && q >= 1 && g * (q - 1) < n <= g * q && q + shift >= 0 && ZoneIndex(n) == SizeClass(q + shift, g * q)
  {
    var (g, shift) := Grain(n);
    ClassifyFacts(n, g);
    q := RoundUp(n, g) / g;
  }

  /** The chunk size of each class. */
  function ChunkSize(index: nat): nat {
    if index < 16 then 8 * (index + 1)
    else if index < 24 then 16 * (index - 7)
    else if index < 32 then 32 * (index - 15)
    else if index < 40 then 64 * (index - 23)
    else if index < 48 then 128 * (index - 31)
    else if index < 56 then 256 * (index - 39)
    else if index < 64 then 512 * (index - 47)
    else 1024 * (index - 55)
  }

  /** Every request below 16 KB falls into the smallest class that holds it, and
      wastes less than eight bytes or an eighth of its size. */
  lemma ZoneIndexIsTightest(n: nat)
    requires 0 < n < 16384
    ensures var c := ZoneIndex(n);
      && c.index < NZONES && c.size == ChunkSize(c.index) && n <= c.size && c.size % 8 == 0
      && (c.index > 0 ==> ChunkSize(c.index - 1) < n)
      && (c.size - n < 8 || (c.size - n) * 8 < n)
  {
    hide ZoneIndex;
    var q := ZoneIndexGrains(n);
  }

  /** The class of a chunk size is the class it came from, so two requests share a
      class exactly when they share a chunk size. */
  lemma ChunkSizeRoundTrip(index: nat)
    requires index < NZONES - 1
    ensures 0 < ChunkSize(index) < ChunkSize(index + 1)
    ensures ZoneIndex(ChunkSize(index)) == SizeClass(index, ChunkSize(index))
  {
    hide ZoneIndex;
    var q := ZoneIndexGrains(ChunkSize(index));
  }

  lemma {:induction false} ChunkSizesIncrease(i: nat, j: nat)
    requires i < j < NZONES
    ensures ChunkSize(i) < ChunkSize(j)
  {
    ChunkSizeRoundTrip(j - 1);
    if i < j - 1 {
      ChunkSizesIncrease(i, j - 1);
    }
  }

  lemma SameClass(m: nat, n: nat)
    requires 0 < m < 16384 && 0 < n < 16384
    ensures ZoneIndex(m).index == ZoneIndex(n).index <==> ZoneIndex(m).size == ZoneIndex(n).size
  {
    ZoneIndexIsTightest(m);
    ZoneIndexIsTightest(n);
    var i, j := ZoneIndex(m).index, ZoneIndex(n).index;
    if i < j { ChunkSizesIncrease(i, j); } else if j < i { ChunkSizesIncrease(j, i); }
  }

  // ----- one zone

  predicate IsPowerOfTwo(n: nat) {
    n == 1 || (n > 0 && n % 2 == 0 && IsPowerOfTwo(n / 2))
  }

  /** Where the chunks start: behind the header, aligned to the chunk size if that is a power of two and
      to eight bytes otherwise. */
  function Offset(size: nat): (off: nat)
    requires size > 0
    ensures HEADER <= off < HEADER + (if size < 8 then 8 else size)
  {
    if IsPowerOfTwo(size) then RoundUpBounds(HEADER, size); RoundUp(HEADER, size) else RoundUp(HEADER, 8)
  }

  /** That is the first such place, and nothing but these bounds and divisions says so. */
  lemma OffsetIsFirst(size: nat, off: nat)
    requires size > 0
    ensures off == Offset(size) <==>
      if IsPowerOfTwo(size) then HEADER <= off < HEADER + size && off % size == 0
      else HEADER <= off < HEADER + 8 && off % 8 == 0
  {
    if IsPowerOfTwo(size) {
      var q := OffsetMultiple(size);
      MultipleOf(q, size);
      RoundUpBounds(HEADER, size);
      if HEADER <= off < HEADER + size && off % size == 0 { OneMultiple(off, Offset(size), size, HEADER); }
    }
  }

  /** Of `n` numbers in a row only one is a multiple of `n`. */
  lemma OneMultiple(a: int, b: int, n: nat, from: int)
    requires n > 0 && a % n == 0 && b % n == 0 && from <= a < from + n && from <= b < from + n
    ensures a == b
  {
    var p, q := a / n, b / n;
    assert a == p * n && b == q * n;
    if p < q { Multiples(p, q, n); } else if q < p { Multiples(q, p, n); }
  }

  /** Every chunk of every zone, whatever its class, starts at a multiple of eight bytes. */
  lemma ChunksByEight(p: nat, index: nat, k: nat)
    requires index < NZONES
    ensures ChunkSize(index) > 0
    ensures (p * PAGE + Offset(ChunkSize(index)) + k * ChunkSize(index)) % 8 == 0
  {
    hide Offset, IsPowerOfTwo;
    OffsetByEight(ChunkSize(index));
    hide ChunkSize;
    ChunkByEight(p, Offset(ChunkSize(index)), k, ChunkSize(index));
  }

  lemma ChunkByEight(p: nat, off: nat, k: nat, size: nat)
    requires off % 8 == 0 && size % 8 == 0
    ensures (p * PAGE + off + k * size) % 8 == 0
  {
    MultipleTimes(p, PAGE, 8);
    MultipleTimes(k, size, 8);
    SumByEight(p * PAGE, off, k * size);
  }

  lemma OffsetByEight(size: nat)
    requires size > 0 && size % 8 == 0
    ensures Offset(size) % 8 == 0
  {
    if IsPowerOfTwo(size) {
      hide Offset, IsPowerOfTwo;
      var q := OffsetMultiple(size);
      MultipleTimes(q, size, 8);
    }
  }

  lemma SumByEight(a: int, b: int, c: int)
    requires a % 8 == 0 && b % 8 == 0 && c % 8 == 0
    ensures (a + b + c) % 8 == 0
  {}

  lemma RoundUpBounds(n: nat, g: nat)
    requires g > 0
    ensures n <= RoundUp(n, g) < n + g
  {
    var q, r := (n + g - 1) / g, (n + g - 1) % g;
    assert n + g - 1 == q * g + r;
  }

  /** A zone: chunks `0..uindex` have been handed out before, `free` lists those of
      them that came back, as addresses. */
  datatype Zone = Zone(nfree: int, nmax: int, uindex: int, base: int, size: int, index: nat, free: seq<int>)

  function Chunk(z: Zone, k: int): int {
    z.base + k * z.size
  }

  /** Chunk `k` is exactly one of: handed out, on the free list, never used yet. */
  ghost predicate ChunkIn(z: Zone, out: iset<int>, k: int) {
    var a := Chunk(z, k);
    && (k > z.uindex ==> a !in out && a !in z.free)
    && (k <= z.uindex ==> (a in out <==> a !in z.free))
  }

  /** `a` is a chunk of the zone that has been used. */
  ghost predicate UsedChunk(z: Zone, a: int) {
    UsedUpTo(z, z.uindex, a)
  }

  ghost predicate UsedUpTo(z: Zone, u: int, a: int) {
    exists k :: 0 <= k <= u && a == Chunk(z, k)
  }

  ghost predicate ZoneOk(z: Zone, out: iset<int>) {
    && 0 <= z.uindex < z.nmax && z.size > 0
    && z.nfree == |z.free| + z.nmax - 1 - z.uindex
    && (forall k :: 0 <= k < z.nmax ==> ChunkIn(z, out, k))
    && (forall a | a in z.free :: UsedChunk(z, a))
    && (forall a | a in out :: UsedChunk(z, a))
    && (forall i, j | 0 <= i < j < |z.free| :: z.free[i] != z.free[j])
  }

  lemma ChunksDiffer(z: Zone, i: int, j: int)
    requires z.size > 0
    ensures Chunk(z, i) == Chunk(z, j) <==> i == j
    ensures i < j ==> Chunk(z, i) + z.size <= Chunk(z, j)
  {
    if i < j { Multiples(i, j, z.size); } else if j < i { Multiples(j, i, z.size); }
  }

  /** What the code does to a zone with free chunks: a never-used chunk if there is
      one, else the last one that came back. */
  function TakeChunk(z: Zone): Zone
    requires z.uindex + 1 == z.nmax ==> z.free != []
  {
    if z.uindex + 1 != z.nmax then z.(nfree := z.nfree - 1, uindex := z.uindex + 1)
    else z.(nfree := z.nfree - 1, free := z.free[1..])
  }

  function TakenChunk(z: Zone): int
    requires z.uindex + 1 == z.nmax ==> z.free != []
  {
    if z.uindex + 1 != z.nmax then Chunk(z, z.uindex + 1) else z.free[0]
  }

  lemma StillUsed(z: Zone, r: Zone)
    requires r.base == z.base && r.size == z.size && r.uindex >= z.uindex
    ensures forall a :: UsedChunk(z, a) ==> UsedChunk(r, a)
  {
    forall a | UsedChunk(z, a) ensures UsedChunk(r, a) {
      var k :| 0 <= k <= z.uindex && a == Chunk(z, k);
      assert a == Chunk(r, k);
    }
  }

  lemma TakeFresh(z: Zone, out: iset<int>)
    requires ZoneOk(z, out) && z.uindex + 1 < z.nmax
    ensures TakenChunk(z) !in out && ZoneOk(TakeChunk(z), out + iset{TakenChunk(z)})
    ensures UsedChunk(TakeChunk(z), TakenChunk(z))
  {
    var a, r := TakenChunk(z), TakeChunk(z);
    StillUsed(z, r);
    hide UsedChunk;
    assert ChunkIn(z, out, z.uindex + 1);
    assert UsedChunk(r, a) by { TopUsed(r); }
    forall k | 0 <= k < r.nmax ensures ChunkIn(r, out + iset{a}, k) {
      assert ChunkIn(z, out, k);
      ChunksDiffer(z, k, r.uindex);
    }
  }

  lemma TopUsed(z: Zone)
    requires 0 <= z.uindex
    ensures UsedChunk(z, Chunk(z, z.uindex))
  {}

  lemma TakeListed(z: Zone, out: iset<int>)
    requires ZoneOk(z, out) && z.uindex + 1 == z.nmax && z.free != []
    ensures TakenChunk(z) !in out && ZoneOk(TakeChunk(z), out + iset{TakenChunk(z)})
    ensures UsedChunk(TakeChunk(z), TakenChunk(z))
  {
    var a, r := TakenChunk(z), TakeChunk(z);
    StillUsed(z, r);
    assert a in z.free && UsedChunk(z, a);
    var m :| 0 <= m <= z.uindex && a == Chunk(z, m);
    hide UsedChunk;
    assert ChunkIn(z, out, m);
    forall x | x in z.free ensures x == a || x in r.free {
      var i :| 0 <= i < |z.free| && z.free[i] == x;
      assert i > 0 ==> r.free[i - 1] == x;
    }
    forall i | 0 <= i < |r.free| ensures r.free[i] == z.free[i + 1] && r.free[i] in z.free {}
    forall k | 0 <= k < r.nmax ensures ChunkIn(r, out + iset{a}, k) {
      assert ChunkIn(z, out, k);
      ChunksDiffer(z, k, m);
    }
  }

  /** A zone with free chunks never has to pop an empty list; what it hands out was
      not handed out before. */
  lemma TakeKeeps(z: Zone, out: iset<int>)
    requires ZoneOk(z, out) && z.nfree > 0
    ensures z.uindex + 1 == z.nmax ==> z.free != []
    ensures TakenChunk(z) !in out && ZoneOk(TakeChunk(z), out + iset{TakenChunk(z)})
    ensures UsedChunk(TakeChunk(z), TakenChunk(z))
  {
    if z.uindex + 1 != z.nmax { TakeFresh(z, out); } else { TakeListed(z, out); }
  }

  /** Different used chunks number at most `u + 1`. */
  lemma {:induction false} UsedChunksBound(s: seq<int>, z: Zone, u: int)
    requires u >= -1 && z.size > 0 && (forall i, j | 0 <= i < j < |s| :: s[i] != s[j])
    requires forall a | a in s :: UsedUpTo(z, u, a)
    ensures |s| <= u + 1
    decreases u + 1
  {
    var x := if s == [] then 0 else s[0];
    assert s != [] ==> x in s;
    if u < 0 {
    } else {
      var top := Chunk(z, u);
      var t := s;
      if top in s {
        var p :| 0 <= p < |s| && s[p] == top;
        t := s[..p] + s[p + 1..];
        forall i | 0 <= i < |t| ensures t[i] == s[if i < p then i else i + 1] {}
      }
      forall a | a in t ensures UsedUpTo(z, u - 1, a) {
        var i :| 0 <= i < |t| && t[i] == a;
        assert a in s && a != top;
        var k :| 0 <= k <= u && a == Chunk(z, k);
      }
      UsedChunksBound(t, z, u - 1);
    }
  }

  /** A list of all chunks used so far has at least as many members. */
  lemma {:induction false} UsedChunksCover(s: seq<int>, z: Zone, u: int)
    requires u >= -1 && z.size > 0
    requires forall k | 0 <= k <= u :: Chunk(z, k) in s
    ensures |s| >= u + 1
    decreases u + 1
  {
    if u < 0 {
    } else {
      var top := Chunk(z, u);
      var p :| 0 <= p < |s| && s[p] == top;
      var t := s[..p] + s[p + 1..];
      forall k | 0 <= k <= u - 1 ensures Chunk(z, k) in t {
        ChunksDiffer(z, k, u);
        var i :| 0 <= i < |s| && s[i] == Chunk(z, k);
        assert t[if i < p then i else i - 1] == s[i];
      }
      UsedChunksCover(t, z, u - 1);
    }
  }

  /** The count of free chunks is the maximum exactly when none is handed out. */
  lemma NoneHandedOut(z: Zone, out: iset<int>)
    requires ZoneOk(z, out)
    ensures z.nfree == z.nmax <==> out == iset{}
  {
    forall a ensures z.nfree == z.nmax ==> a !in out {
      if a in out {
        GiveKeeps(z, out, a);
      }
    }
    if out == iset{} {
      forall k | 0 <= k <= z.uindex ensures Chunk(z, k) in z.free {
        assert ChunkIn(z, out, k);
      }
      UsedChunksCover(z.free, z, z.uindex);
      UsedChunksBound(z.free, z, z.uindex);
    }
  }

  // ----- alignment

  /** The smaller of two powers of two divides the larger. */
  lemma {:induction false} PowersDivide(n: nat, m: nat)
    requires IsPowerOfTwo(n) && IsPowerOfTwo(m) && n <= m
    ensures m % n == 0
  {
    if n <= 1 {
    } else {
      PowersDivide(n / 2, m / 2);
      var q := m / 2 / (n / 2);
      assert m / 2 == q * (n / 2);
      assert m == q * n;
      MultipleOf(q, n);
    }
  }

  lemma SameRemainder(a: int, q: int, n: nat)
    requires n > 0
    ensures (a + q * n) % n == a % n
  {
    var b := a + q * n;
    var x, y := b / n, a / n + q;
    assert b == x * n + b % n && a == (a / n) * n + a % n;
    assert y * n == (a / n) * n + q * n;
    if x < y { Multiples(x, y, n); } else if y < x { Multiples(y, x, n); }
  }

  lemma OffsetMultiple(size: nat) returns (q: nat)
    requires IsPowerOfTwo(size)
    ensures Offset(size) == q * size
  {
    q := (HEADER + size - 1) / size;
  }

  lemma MultipleTimes(p: int, m: int, n: nat)
    requires n > 0 && m % n == 0
    ensures p * m % n == 0
  {
    var c := m / n;
    assert m == c * n;
    assert p * m == p * c * n by { Multiplied(p, c, n); }
    MultipleOf(p * c, n);
  }

  lemma Multiplied(p: int, c: int, n: int)
    ensures p * (c * n) == p * c * n
  {}

  lemma PageMultiple(p: nat, size: nat)
    requires IsPowerOfTwo(size) && size <= PAGE
    ensures p * PAGE % size == 0
  {
    PageIsPower();
    PowersDivide(size, PAGE);
    hide IsPowerOfTwo;
    MultipleTimes(p, PAGE, size);
  }

  lemma Distributed(q: int, k: int, n: int)
    ensures q * n + k * n == (q + k) * n
  {}

  /** Chunks of a power of two, in a zone at page `p`, are aligned to their size exactly when
      the size is at most a page or the zone itself is so aligned. */
  lemma ChunkAligned(p: nat, size: nat, k: int)
    requires IsPowerOfTwo(size)
    ensures (p * PAGE + Offset(size) + k * size) % size == 0 <==> size <= PAGE || p * PAGE % size == 0
  {
    hide IsPowerOfTwo, Offset;
    var q := OffsetMultiple(size);
    Distributed(q, k, size);
    SameRemainder(p * PAGE, q + k, size);
    if size <= PAGE { PageMultiple(p, size); }
  }

  lemma PageIsPower()
    ensures IsPowerOfTwo(PAGE)
  {
    assert IsPowerOfTwo(1) && IsPowerOfTwo(2) && IsPowerOfTwo(4) && IsPowerOfTwo(8) && IsPowerOfTwo(16);
    assert IsPowerOfTwo(32) && IsPowerOfTwo(64) && IsPowerOfTwo(128) && IsPowerOfTwo(256) && IsPowerOfTwo(512);
    assert IsPowerOfTwo(1024) && IsPowerOfTwo(2048);
  }

  function GiveChunk(z: Zone, a: int): Zone {
    z.(nfree := z.nfree + 1, free := [a] + z.free)
  }

  /** In a zone whose chunks have all been used before, the one that came back last is handed out next. */
  lemma TakeAfterGive(z: Zone, a: int)
    requires z.uindex + 1 == z.nmax
    ensures TakenChunk(GiveChunk(z, a)) == a && TakeChunk(GiveChunk(z, a)) == z
  {
    assert GiveChunk(z, a).free[1..] == z.free;
  }

  /** A chunk handed out goes back on the list. */
  lemma GiveKeeps(z: Zone, out: iset<int>, a: int)
    requires ZoneOk(z, out) && a in out
    ensures ZoneOk(GiveChunk(z, a), out - iset{a}) && z.nfree < z.nmax
  {
    var r := GiveChunk(z, a);
    StillUsed(z, r);
    assert UsedChunk(z, a);
    var m :| 0 <= m <= z.uindex && a == Chunk(z, m);
    assert ChunkIn(z, out, m);
    forall k | 0 <= k < r.nmax ensures ChunkIn(r, out - iset{a}, k) {
      assert ChunkIn(z, out, k);
      ChunksDiffer(z, k, m);
    }
    forall x | x in r.free ensures UsedUpTo(r, z.uindex, x) {
      assert x == a || x in z.free;
      assert UsedChunk(r, x);
    }
    forall i, j | 0 <= i < j < |r.free| ensures r.free[i] != r.free[j] {
      assert i == 0 ==> r.free[j] == z.free[j - 1] && r.free[j] in z.free;
      assert i > 0 ==> r.free[i] == z.free[i - 1] && r.free[j] == z.free[j - 1];
    }
    UsedChunksBound(r.free, r, z.uindex);
  }
}