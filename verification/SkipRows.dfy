/** The rows of the timer skip list, sparsest first, as sequences of timer numbers. */
module SkipRows {
  import opened Lists
  import opened Machine

  type Keys = map<int, int>

  // ----- subsequences

  /** The elements of `s` that belong to `S`, in order. */
  ghost function Keep(s: seq<int>, S: iset<int>): seq<int> {
    if s == [] then [] else (if s[0] in S then [s[0]] else []) + Keep(s[1..], S)
  }

  ghost function Elems(s: seq<int>): iset<int> {
    iset x | x in s
  }

  predicate IsNot(x: int, t: int) {
    x != t
  }

  ghost function Except(t: int): iset<int> {
    iset x | IsNot(x, t)
  }

  /** `a` is a subsequence of `b` (whose elements are all different). */
  ghost predicate Sub(a: seq<int>, b: seq<int>) {
    a == Keep(b, Elems(a))
  }

  /** `row` with `t` linked in behind its first `p` elements. */
  function Ins(row: seq<int>, p: nat, t: int): seq<int>
    requires p <= |row|
  {
    row[..p] + [t] + row[p..]
  }

  lemma {:induction false} KeepConcat(a: seq<int>, b: seq<int>, S: iset<int>)
    ensures Keep(a + b, S) == Keep(a, S) + Keep(b, S)
  {
    if a == [] {
      assert a + b == b;
    } else {
      var head := if a[0] in S then [a[0]] else [];
      assert (a + b)[0] == a[0] && (a + b)[1..] == a[1..] + b;
      KeepConcat(a[1..], b, S);
      assert Keep(a + b, S) == head + (Keep(a[1..], S) + Keep(b, S));
    }
  }

  lemma {:induction false} KeepMember(s: seq<int>, S: iset<int>, x: int)
    ensures x in Keep(s, S) <==> x in s && x in S
  {
    if s == [] {
    } else {
      KeepMember(s[1..], S, x);
      assert x in s <==> x == s[0] || x in s[1..];
    }
  }

  lemma {:induction false} KeepKeep(s: seq<int>, S: iset<int>, T: iset<int>)
    ensures Keep(Keep(s, S), T) == Keep(s, S * T)
  {
    if s == [] {
    } else {
      KeepKeep(s[1..], S, T);
      KeepConcat(if s[0] in S then [s[0]] else [], Keep(s[1..], S), T);
    }
  }

  /** Only membership of elements of `s` matters. */
  lemma {:induction false} KeepSame(s: seq<int>, S: iset<int>, T: iset<int>)
    requires forall x | x in s :: x in S <==> x in T
    ensures Keep(s, S) == Keep(s, T)
  {
    if s == [] {
    } else {
      var y := s[0];
      assert y in s;
      assert y in S <==> y in T;
      forall x | x in s[1..] ensures x in S <==> x in T {
        assert x in s;
      }
      KeepSame(s[1..], S, T);
    }
  }

  lemma {:induction false} DelIsKeep(row: seq<int>, t: int)
    ensures Del(row, t) == Keep(row, Except(t))
  {
    if row == [] {
    } else {
      DelIsKeep(row[1..], t);
    }
  }

  lemma {:induction false} DelMember(row: seq<int>, t: int, x: int)
    ensures x in Del(row, t) <==> x in row && x != t
  {
    DelIsKeep(row, t);
    KeepMember(row, Except(t), x);
  }

  lemma DelMembers(row: seq<int>, t: int)
    ensures forall x :: x in Del(row, t) <==> x in row && x != t
  {
    forall x ensures x in Del(row, t) <==> x in row && x != t { DelMember(row, t, x); }
  }

  lemma SubDel(a: seq<int>, b: seq<int>, t: int)
    requires Sub(a, b)
    ensures Sub(Del(a, t), Del(b, t))
  {
    var N := Except(t);
    DelIsKeep(a, t);
    DelIsKeep(b, t);
    KeepKeep(b, Elems(a), N);
    var E := Elems(Del(a, t));
    KeepKeep(b, N, E);
    forall x | x in b ensures x in Elems(a) * N <==> x in N * E { DelMember(a, t, x); }
    KeepSame(b, Elems(a) * N, N * E);
  }

  // ----- sorted rows

  /** All different, and by increasing key. */
  ghost predicate Sorted(row: seq<int>, key: Keys) {
    && (forall x | x in row :: x in key)
    && forall i, j | 0 <= i < j < |row| :: row[i] != row[j] && key[row[i]] <= key[row[j]]
  }

  /** Where a stable sorted insertion of key `k` belongs: behind all keys up to `k`. */
  ghost predicate IsPlace(row: seq<int>, key: Keys, k: int, p: nat) {
    && p <= |row|
    && (forall i | 0 <= i < |row| :: row[i] in key)
    && (forall i | 0 <= i < p :: key[row[i]] <= k)
    && (forall i | p <= i < |row| :: key[row[i]] > k)
  }

  /** Insertion into one flat list, behind all earlier and equal keys. */
  ghost function FlatInsert(row: seq<int>, key: Keys, t: int): seq<int>
    requires t in key && forall x | x in row :: x in key
  {
    if row == [] then [t]
    else
      var head := row[0];
      assert head in row;
      if key[head] > key[t] then [t] + row else [head] + FlatInsert(row[1..], key, t)
  }

  /** Linking in at the place of the key is insertion into the flat list. */
  lemma {:induction false} InsIsFlat(row: seq<int>, key: Keys, t: int, p: nat)
    requires t in key && (forall x | x in row :: x in key) && IsPlace(row, key, key[t], p)
    ensures Ins(row, p, t) == FlatInsert(row, key, t)
  {
    if row != [] && key[row[0]] <= key[t] {
      var tail := row[1..];
      assert p < |row| ==> key[row[p]] > key[t];
      forall i | 0 <= i < |tail| ensures tail[i] == row[i + 1] && tail[i] in key {}
      assert IsPlace(tail, key, key[t], p - 1);
      InsIsFlat(tail, key, t, p - 1);
      assert Ins(row, p, t) == [row[0]] + Ins(tail, p - 1, t);
    } else if row != [] {
      assert p == 0;
    }
  }

  /** First come, first served: what is inserted comes behind everything with an earlier or an equal key and before
      everything with a later one, and the rest keeps its order. */
  lemma {:induction false} InsertIsStable(row: seq<int>, key: Keys, t: int, x: int, y: int)
    requires Sorted(row, key) && t in key && t !in row && x in row && y in row
    ensures var r := FlatInsert(row, key, t);
      && t in r && x in r
      && (if key[x] <= key[t] then Ahead(r, x, t) else Ahead(r, t, x))
      && (Ahead(row, x, y) ==> Ahead(r, x, y))
  {
    hide Ahead;
    SortedTail(row, key);
    var head, tail := row[0], row[1..];
    assert row == [head] + tail;
    ConsAhead(head, tail, x, y);
    if key[head] > key[t] {
      ConsAhead(t, row, t, x);
      ConsAhead(t, row, x, y);
    } else {
      var r := FlatInsert(tail, key, t);
      assert FlatInsert(row, key, t) == [head] + r;
      InsertedMembers(tail, key, t);
      ConsAhead(head, r, x, t);
      ConsAhead(head, r, t, x);
      ConsAhead(head, r, x, y);
      if x != head {
        InsertIsStable(tail, key, t, x, if y == head then x else y);
      }
      HeadFirst(head, tail, x, y);
    }
  }

  lemma HeadFirst(head: int, tail: seq<int>, x: int, y: int)
    requires head !in tail
    ensures Ahead([head] + tail, x, y) ==> y != head && y in tail
  {
    var row := [head] + tail;
    if i, j :| At(row, i, x) && At(row, j, y) && i < j {
      assert tail[j - 1] == y;
    }
  }

  lemma {:induction false} InsertedMembers(row: seq<int>, key: Keys, t: int)
    requires t in key && forall x | x in row :: x in key
    ensures forall x :: x in FlatInsert(row, key, t) <==> x in row || x == t
  {
    if row == [] {
    } else {
      assert row == [row[0]] + row[1..];
      InsertedMembers(row[1..], key, t);
    }
  }

  lemma PlaceIsUnique(row: seq<int>, key: Keys, k: int, p: nat, q: nat)
    requires IsPlace(row, key, k, p) && IsPlace(row, key, k, q)
    ensures p == q
  {
    assert p < |row| ==> key[row[p]] > k;
    assert q < |row| ==> key[row[q]] > k;
  }

  lemma SortedTail(row: seq<int>, key: Keys)
    requires Sorted(row, key) && row != []
    ensures Sorted(row[1..], key) && row[0] in key
    ensures forall x | x in row[1..] :: x != row[0] && x in key && key[row[0]] <= key[x]
  {
    var tail := row[1..];
    var head := row[0];
    assert head in row;
    forall x | x in tail ensures x in key && x != row[0] && key[row[0]] <= key[x] {
      var i :| 0 <= i < |tail| && tail[i] == x;
      var y := row[i + 1];
      assert y in row && x == y;
    }
    forall i, j | 0 <= i < j < |tail| ensures tail[i] != tail[j] && key[tail[i]] <= key[tail[j]] {
      var x, y := row[i + 1], row[j + 1];
      assert tail[i] == x && tail[j] == y;
    }
  }

  lemma {:induction false} SortedKeep(row: seq<int>, key: Keys, S: iset<int>)
    requires Sorted(row, key)
    ensures Sorted(Keep(row, S), key)
  {
    if row == [] {
    } else {
      var tail := row[1..];
      var r := Keep(tail, S);
      SortedTail(row, key);
      SortedKeep(tail, key, S);
      forall i | 0 <= i < |r| ensures r[i] != row[0] && r[i] in key && key[row[0]] <= key[r[i]] {
        KeepMember(tail, S, r[i]);
      }
    }
  }

  lemma DelHead(row: seq<int>, key: Keys)
    requires Sorted(row, key) && row != []
    ensures Del(row, row[0]) == row[1..] && row[0] !in row[1..]
  {
    SortedTail(row, key);
    DelAbsent(row[1..], row[0]);
  }

  lemma SortedDel(row: seq<int>, key: Keys, t: int)
    requires Sorted(row, key)
    ensures Sorted(Del(row, t), key)
  {
    DelIsKeep(row, t);
    SortedKeep(row, key, Except(t));
  }

  /** A key changes nothing in a row that does not hold its timer. */
  lemma SortedRekey(row: seq<int>, key: Keys, t: int, k: int)
    requires Sorted(row, key) && t !in row
    ensures Sorted(row, key[t := k])
  {
    forall i | 0 <= i < |row| ensures row[i] != t { assert row[i] in row; }
  }

  lemma InsAt(row: seq<int>, p: nat, t: int, i: nat)
    requires p <= |row| && i <= |row|
    ensures Ins(row, p, t)[i] == if i < p then row[i] else if i == p then t else row[i - 1]
  {}

  lemma InsMembers(row: seq<int>, p: nat, t: int)
    requires p <= |row|
    ensures forall x :: x in Ins(row, p, t) <==> x in row || x == t
  {
    assert row == row[..p] + row[p..];
  }

  lemma SortedIns(row: seq<int>, key: Keys, p: nat, t: int)
    requires Sorted(row, key) && t !in row && t in key && IsPlace(row, key, key[t], p)
    ensures Sorted(Ins(row, p, t), key)
  {
    var r := Ins(row, p, t);
    forall i, j | 0 <= i < j < |r| ensures r[i] != r[j] && key[r[i]] <= key[r[j]] {
      InsAt(row, p, t, i);
      InsAt(row, p, t, j);
    }
  }

  /** Inserting into both rows keeps the sparse one a subsequence of the dense one. */
  lemma SubIns(a: seq<int>, b: seq<int>, key: Keys, p: nat, q: nat, t: int)
    requires Sub(a, b) && Sorted(b, key) && t !in b && t in key
    requires IsPlace(a, key, key[t], p) && IsPlace(b, key, key[t], q)
    ensures Sub(Ins(a, p, t), Ins(b, q, t))
  {
    var S := Elems(a);
    var T := S + iset{t};
    KeepMember(b, S, t);
    var lo, hi := Keep(b[..q], S), Keep(b[q..], S);
    KeepConcat(b[..q], b[q..], S);
    assert b == b[..q] + b[q..];
    assert a == lo + hi;
    SplitPlace(b, S, key, key[t], q, a, p);
    KeepSame(b[..q], S, T);
    KeepSame(b[q..], S, T);
    KeepConcat(b[..q] + [t], b[q..], T);
    KeepConcat(b[..q], [t], T);
    assert Keep([t], T) == [t];
    assert Ins(b, q, t) == (b[..q] + [t]) + b[q..];
    assert Keep(Ins(b, q, t), T) == Ins(a, p, t);
    assert Elems(Ins(a, p, t)) == T;
  }

  /** A place in the dense row splits the sparse row at its own place. */
  lemma SplitPlace(b: seq<int>, S: iset<int>, key: Keys, k: int, q: nat, a: seq<int>, p: nat)
    requires IsPlace(b, key, k, q) && IsPlace(a, key, k, p) && a == Keep(b[..q], S) + Keep(b[q..], S)
    ensures a[..p] == Keep(b[..q], S) && a[p..] == Keep(b[q..], S)
  {
    var lo, hi := Keep(b[..q], S), Keep(b[q..], S);
    forall i | 0 <= i < |lo| ensures key[a[i]] <= k {
      KeepMember(b[..q], S, lo[i]);
      var j :| 0 <= j < q && b[j] == lo[i];
    }
    forall i | |lo| <= i < |a| ensures key[a[i]] > k {
      KeepMember(b[q..], S, hi[i - |lo|]);
      var j :| 0 <= j < |b| - q && b[q..][j] == hi[i - |lo|];
      assert b[q + j] == a[i];
    }
    assert IsPlace(a, key, k, |lo|);
    PlaceIsUnique(a, key, k, p, |lo|);
  }

  lemma KeepNone(t: int, S: iset<int>)
    requires t !in S
    ensures Keep([t], S) == []
  {}

  lemma InsParts(row: seq<int>, p: nat, t: int)
    requires p <= |row|
    ensures Ins(row, p, t) == row[..p] + [t] + row[p..] && row == row[..p] + row[p..]
  {}

  lemma DropsEmpty(a: seq<int>, b: seq<int>)
    ensures a + [] + b == a + b
  {}

  /** Inserting into the dense row only keeps the sparse one a subsequence. */
  lemma SubInsDense(a: seq<int>, b: seq<int>, q: nat, t: int)
    requires Sub(a, b) && t !in b && q <= |b|
    ensures Sub(a, Ins(b, q, t))
  {
    hide Keep, Ins;
    var S := Elems(a);
    KeepMember(b, S, t);
    KeepNone(t, S);
    InsParts(b, q, t);
    KeepConcat(b[..q], b[q..], S);
    KeepConcat(b[..q] + [t], b[q..], S);
    KeepConcat(b[..q], [t], S);
    DropsEmpty(Keep(b[..q], S), Keep(b[q..], S));
  }

  // ----- all rows together

  /** Every row is sorted, and each is a subsequence of the next denser one. */
  ghost predicate Rows(rows: seq<seq<int>>, key: Keys) {
    && |rows| >= 1
    && (forall l | 0 <= l < |rows| :: Sorted(rows[l], key))
    && (forall l, m | 0 <= l < m < |rows| && m == l + 1 :: Sub(rows[l], rows[m]))
  }

  /** The last row holds every timer. */
  function Dense(rows: seq<seq<int>>): seq<int>
    requires |rows| >= 1
  {
    rows[|rows| - 1]
  }

  lemma SubMember(a: seq<int>, b: seq<int>, x: int)
    requires Sub(a, b) && x in a
    ensures x in b
  {
    KeepMember(b, Elems(a), x);
  }

  lemma {:induction false} InDense(rows: seq<seq<int>>, key: Keys, l: nat, x: int)
    requires Rows(rows, key) && l < |rows| && x in rows[l]
    ensures x in Dense(rows)
    decreases |rows| - l
  {
    if l + 1 < |rows| {
      SubMember(rows[l], rows[l + 1], x);
      InDense(rows, key, l + 1, x);
    }
  }

  /** Unlinking a timer from every row. */
  lemma RowsDel(rows: seq<seq<int>>, key: Keys, t: int, after: seq<seq<int>>)
    requires Rows(rows, key) && |after| == |rows|
    requires forall l | 0 <= l < |rows| :: after[l] == Del(rows[l], t)
    ensures Rows(after, key)
    ensures forall l | 0 <= l < |rows| :: t !in after[l]
  {
    hide Sorted, Sub;
    forall l | 0 <= l < |rows| ensures Sorted(after[l], key) && t !in after[l] {
      SortedDel(rows[l], key, t);
      DelMember(rows[l], t, t);
    }
    forall l, m | 0 <= l < m < |rows| && m == l + 1 ensures Sub(after[l], after[m]) {
      SubDel(rows[l], rows[m], t);
    }
  }

  lemma RowsRekey(rows: seq<seq<int>>, key: Keys, t: int, k: int)
    requires Rows(rows, key) && t !in Dense(rows)
    ensures Rows(rows, key[t := k])
    ensures forall l | 0 <= l < |rows| :: t !in rows[l]
  {
    hide Sorted, Sub;
    forall l | 0 <= l < |rows| ensures Sorted(rows[l], key[t := k]) && t !in rows[l] {
      if t in rows[l] { InDense(rows, key, l, t); }
      SortedRekey(rows[l], key, t, k);
    }
  }

  /** Linking a timer into its `h` densest rows, at its place in each. */
  lemma RowsIns(rows: seq<seq<int>>, key: Keys, t: int, places: seq<nat>, h: nat, after: seq<seq<int>>)
    requires Rows(rows, key) && t !in Dense(rows) && t in key
    requires |places| == |after| == |rows| && 1 <= h <= |rows|
    requires Placed(rows, key, key[t], places)
    requires forall l | 0 <= l < |rows| :: after[l] == if l >= |rows| - h then Ins(rows[l], places[l], t) else rows[l]
    ensures Rows(after, key)
  {
    RowsRekey(rows, key, t, key[t]);
    hide Sorted, Sub, IsPlace, Ins;
    forall l | 0 <= l < |rows| ensures Sorted(after[l], key) {
      PlaceInside(rows[l], key, key[t], places[l]);
      SortedIns(rows[l], key, places[l], t);
    }
    forall l, m | 0 <= l < m < |rows| && m == l + 1 ensures Sub(after[l], after[m]) {
      PlaceInside(rows[m], key, key[t], places[m]);
      if l >= |rows| - h {
        SubIns(rows[l], rows[m], key, places[l], places[m], t);
      } else if m >= |rows| - h {
        SubInsDense(rows[l], rows[m], places[m], t);
      }
    }
  }

  /** `places` are the places of key `k` in all rows. */
  ghost predicate Placed(rows: seq<seq<int>>, key: Keys, k: int, places: seq<nat>) {
    |places| == |rows| && forall l | 0 <= l < |rows| :: places[l] <= |rows[l]| && IsPlace(rows[l], key, k, places[l])
  }

  lemma PlaceInside(row: seq<int>, key: Keys, k: int, p: nat)
    requires IsPlace(row, key, k, p)
    ensures p <= |row|
  {}

  function IndexOf(row: seq<int>, x: int): (i: nat)
    requires x in row
    ensures i < |row| && row[i] == x
  {
    if row[0] == x then 0 else 1 + IndexOf(row[1..], x)
  }

  /** Where the search goes on one row down: behind the entry of the same timer
      (or behind the head). */
  function Below(row: seq<int>, pos: nat, next: seq<int>): nat
    requires pos <= |row| && (pos > 0 ==> row[pos - 1] in next)
  {
    if pos == 0 then 0 else IndexOf(next, row[pos - 1]) + 1
  }

  /** Going down never skips a later timer. */
  lemma BelowIsBefore(row: seq<int>, pos: nat, next: seq<int>, key: Keys, k: int)
    requires Sorted(row, key) && Sorted(next, key) && Sub(row, next) && pos <= |row|
    requires pos > 0 ==> key[row[pos - 1]] <= k
    ensures pos > 0 ==> row[pos - 1] in next
    ensures var q := Below(row, pos, next); q <= |next| && forall i | 0 <= i < q :: key[next[i]] <= k
  {
    if pos > 0 {
      SubMember(row, next, row[pos - 1]);
    }
  }
}