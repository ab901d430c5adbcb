/** Circular doubly linked lists, as the kernel links them: every node stores its
    successor and its predecessor, and the head is a node of the ring.  A ring is
    described by the sequence of its nodes, head first. */
module Ring {
  import opened Lists

  type Links = map<int, int>

  function Succ(r: seq<int>, i: nat): int
    requires i < |r|
  {
    if i + 1 == |r| then r[0] else r[i + 1]
  }

  function Pred(r: seq<int>, i: nat): int
    requires i < |r|
  {
    if i == 0 then r[|r| - 1] else r[i - 1]
  }

  ghost predicate Linked(next: Links, prev: Links, r: seq<int>, i: nat)
    requires i < |r|
  {
    r[i] in next && r[i] in prev && next[r[i]] == Succ(r, i) && prev[r[i]] == Pred(r, i)
  }

  ghost predicate IsRing(next: Links, prev: Links, r: seq<int>) {
    |r| >= 1 && Distinct(r) && forall i: nat | i < |r| :: Linked(next, prev, r, i)
  }

  function With(r: seq<int>, j: nat, x: int): seq<int>
    requires j < |r|
  {
    r[..j + 1] + [x] + r[j + 1..]
  }

  lemma Different(r: seq<int>, i: nat, j: nat)
    requires Distinct(r) && i < |r| && j < |r|
    ensures r[i] == r[j] <==> i == j
  {
    if i < j { assert r[i] != r[j]; }
    if j < i { assert r[j] != r[i]; }
  }

  // ----- unlinking

  lemma WithoutLinks(r: seq<int>, j: nat, k: nat)
    requires |r| >= 2 && j < |r| && k < |r| - 1
    ensures var m := if k < j then k else k + 1; var w := Without(r, j);
      && w[k] == r[m]
      && Succ(w, k) == (if Succ(r, m) == r[j] && (m + 1 == j || (j == 0 && m + 1 == |r|))
                        then Succ(r, j) else Succ(r, m))
      && Pred(w, k) == (if m == j + 1 || (j + 1 == |r| && m == 0) then Pred(r, j) else Pred(r, m))
  {
    var m := if k < j then k else k + 1;
    var w := Without(r, j);
    assert w[0] == (if j == 0 then r[1] else r[0]);
    assert w[|w| - 1] == (if j == |r| - 1 then r[|r| - 2] else r[|r| - 1]);
    assert k + 1 < |w| ==> w[k + 1] == (if k + 1 < j then r[k + 1] else r[k + 2]);
    assert k > 0 ==> w[k - 1] == (if k - 1 < j then r[k - 1] else r[k]);
  }

  lemma UnlinkNode(next: Links, prev: Links, r: seq<int>, j: nat, k: nat)
    requires IsRing(next, prev, r) && |r| >= 2 && j < |r| && k < |r| - 1
    ensures r[j] in next && r[j] in prev
    ensures Linked(next[prev[r[j]] := next[r[j]]], prev[next[r[j]] := prev[r[j]]], Without(r, j), k)
  {
    hide Without, Succ, Pred, Distinct;
    var m := if k < j then k else k + 1;
    assert Linked(next, prev, r, j) && Linked(next, prev, r, m);
    WithoutLinks(r, j, k);
    Neighbours(r, j, m);
  }

  lemma Neighbours(r: seq<int>, j: nat, m: nat)
    requires Distinct(r) && j < |r| && m < |r| && j != m
    ensures r[m] == Pred(r, j) <==> m + 1 == j || (j == 0 && m + 1 == |r|)
    ensures r[m] == Succ(r, j) <==> m == j + 1 || (j + 1 == |r| && m == 0)
    ensures r[m] == Pred(r, j) <==> Succ(r, m) == r[j]
    ensures r[m] == Succ(r, j) <==> Pred(r, m) == r[j]
  {
    Different(r, m, if j == 0 then |r| - 1 else j - 1);
    Different(r, m, if j + 1 == |r| then 0 else j + 1);
    Different(r, j, if m == 0 then |r| - 1 else m - 1);
    Different(r, j, if m + 1 == |r| then 0 else m + 1);
  }

  /** Joining a node's neighbours to each other takes it out of the ring. */
  lemma Unlink(next: Links, prev: Links, r: seq<int>, j: nat)
    requires IsRing(next, prev, r) && |r| >= 2 && j < |r|
    ensures r[j] in next && r[j] in prev
    ensures IsRing(next[prev[r[j]] := next[r[j]]], prev[next[r[j]] := prev[r[j]]], Without(r, j))
  {
    hide Linked;
    UnlinkNode(next, prev, r, j, 0);
    WithoutKeeps(r, j);
    var n, p := next[prev[r[j]] := next[r[j]]], prev[next[r[j]] := prev[r[j]]];
    forall k: nat | k < |r| - 1 ensures Linked(n, p, Without(r, j), k) {
      UnlinkNode(next, prev, r, j, k);
    }
  }

  // ----- linking

  lemma WithDistinct(r: seq<int>, j: nat, x: int)
    requires Distinct(r) && j < |r| && x !in r
    ensures Distinct(With(r, j, x))
    ensures forall y :: y in With(r, j, x) <==> y in r || y == x
  {
    var w := With(r, j, x);
    forall a, b | 0 <= a < b < |w| ensures w[a] != w[b] {
      assert a != j + 1 ==> w[a] == r[if a <= j then a else a - 1];
      assert b != j + 1 ==> w[b] == r[if b <= j then b else b - 1];
    }
    assert w[j + 1] == x;
    forall a | 0 <= a < |r| ensures r[a] in w { assert r[a] == w[if a <= j then a else a + 1]; }
  }

  lemma WithLinks(r: seq<int>, j: nat, x: int, k: nat)
    requires j < |r| && k <= |r|
    ensures With(r, j, x)[j + 1] == x && Succ(With(r, j, x), j + 1) == Succ(r, j) && Pred(With(r, j, x), j + 1) == r[j]
    ensures k != j + 1 ==> var m := if k <= j then k else k - 1; var w := With(r, j, x);
      && w[k] == r[m]
      && Succ(w, k) == (if m == j then x else Succ(r, m))
      && Pred(w, k) == (if m == j + 1 || (j + 1 == |r| && m == 0) then x else Pred(r, m))
  {
    var w := With(r, j, x);
    assert w[0] == r[0] && w[|w| - 1] == (if j == |r| - 1 then x else r[|r| - 1]);
    assert k + 1 < |w| ==> w[k + 1] == (if k + 1 <= j then r[k + 1] else if k == j then x else r[k]);
    assert k > 0 ==> w[k - 1] == (if k - 1 <= j then r[k - 1] else if k == j + 2 then x else r[k - 2]);
    assert j + 2 < |w| ==> w[j + 2] == r[j + 1];
  }

  lemma LinkNode(next: Links, prev: Links, r: seq<int>, j: nat, x: int, k: nat)
    requires IsRing(next, prev, r) && j < |r| && x !in r && k <= |r|
    ensures r[j] in next
    ensures var s := next[r[j]];
      Linked(next[x := s][r[j] := x], prev[x := r[j]][s := x], With(r, j, x), k)
  {
    hide With, Succ, Pred, Distinct;
    assert Linked(next, prev, r, j);
    WithLinks(r, j, x, k);
    SuccIn(r, j);
    if k != j + 1 {
      var m := if k <= j then k else k - 1;
      assert Linked(next, prev, r, m);
      Different(r, m, j);
      if m != j { Neighbours(r, j, m); } else { SelfSucc(r, j); }
    }
  }

  lemma SuccIn(r: seq<int>, j: nat)
    requires j < |r|
    ensures Succ(r, j) in r && Pred(r, j) in r
  {}

  lemma SelfSucc(r: seq<int>, j: nat)
    requires j < |r| && Distinct(r)
    ensures r[j] == Succ(r, j) <==> |r| == 1
  {
    Different(r, j, if j + 1 == |r| then 0 else j + 1);
  }

  /** The four assignments that put `x` behind node `r[j]`. */
  lemma LinkAfter(next: Links, prev: Links, r: seq<int>, j: nat, x: int)
    requires IsRing(next, prev, r) && j < |r| && x !in r
    ensures r[j] in next
    ensures IsRing(next[x := next[r[j]]][r[j] := x], prev[x := r[j]][next[r[j]] := x], With(r, j, x))
  {
    hide Linked;
    LinkNode(next, prev, r, j, x, 0);
    WithDistinct(r, j, x);
    var n, p := next[x := next[r[j]]][r[j] := x], prev[x := r[j]][next[r[j]] := x];
    forall k: nat | k <= |r| ensures Linked(n, p, With(r, j, x), k) {
      LinkNode(next, prev, r, j, x, k);
    }
  }
}
