/** Lists without repetition, and what taking one member out does to them. */
module Lists {

  /** All different. */
  ghost predicate Distinct(list: seq<int>) {
    forall i, j | 0 <= i < j < |list| :: list[i] != list[j]
  }

  function Without<T>(list: seq<T>, k: nat): seq<T>
    requires k < |list|
  {
    list[..k] + list[k + 1..]
  }

  ghost predicate At(list: seq<int>, i: int, x: int) {
    0 <= i < |list| && list[i] == x
  }

  /** `x` comes before `y` in the list. */
  ghost predicate Ahead(list: seq<int>, x: int, y: int) {
    exists i, j :: At(list, i, x) && At(list, j, y) && i < j
  }

  lemma ConsAhead(t: int, s: seq<int>, x: int, y: int)
    ensures Ahead([t] + s, x, y) <==> (x == t && y in s) || Ahead(s, x, y)
  {
    var r := [t] + s;
    if i, j :| At(r, i, x) && At(r, j, y) && i < j {
      assert At(s, j - 1, y) && (i > 0 ==> At(s, i - 1, x));
    }
    if i, j :| At(s, i, x) && At(s, j, y) && i < j {
      assert At(r, i + 1, x) && At(r, j + 1, y);
    }
    if x == t && y in s {
      var j :| 0 <= j < |s| && s[j] == y;
      assert At(r, 0, x) && At(r, j + 1, y);
    }
  }

  /** What is left keeps its order: only the member taken out is missing. */
  lemma WithoutOrder(list: seq<int>, k: nat, x: int, y: int)
    requires k < |list| && Distinct(list)
    ensures Ahead(Without(list, k), x, y) <==> Ahead(list, x, y) && x != list[k] && y != list[k]
  {
    var r := Without(list, k);
    if i, j :| At(r, i, x) && At(r, j, y) && i < j {
      WithoutAt(list, k, i);
      WithoutAt(list, k, j);
      assert At(list, if i < k then i else i + 1, x) && At(list, if j < k then j else j + 1, y);
    }
    if i, j :| At(list, i, x) && At(list, j, y) && i < j && x != list[k] && y != list[k] {
      var a, b := if i < k then i else i - 1, if j < k then j else j - 1;
      WithoutAt(list, k, a);
      WithoutAt(list, k, b);
      assert At(r, a, x) && At(r, b, y);
    }
  }

  lemma WithoutAt(list: seq<int>, k: nat, i: nat)
    requires k < |list| && i < |list| - 1
    ensures Without(list, k)[i] == list[if i < k then i else i + 1]
  {}

  lemma WithoutKeeps(list: seq<int>, k: nat)
    requires k < |list| && Distinct(list)
    ensures Distinct(Without(list, k))
    ensures forall x :: x in Without(list, k) <==> x in list && x != list[k]
  {
    var r := Without(list, k);
    forall i, j | 0 <= i < j < |r| ensures r[i] != r[j] {
      WithoutAt(list, k, i);
      WithoutAt(list, k, j);
    }
    forall i | 0 <= i < |r| ensures r[i] in list && r[i] != list[k] { WithoutAt(list, k, i); }
    forall i | 0 <= i < |list| && i != k ensures list[i] in r {
      assert r[if i < k then i else i - 1] == list[i];
    }
  }

  /** `list` without `t`: what unlinking a node leaves. */
  function Del(list: seq<int>, t: int): seq<int> {
    if list == [] then [] else (if list[0] == t then [] else [list[0]]) + Del(list[1..], t)
  }

  lemma {:induction false} DelAbsent(list: seq<int>, t: int)
    requires t !in list
    ensures Del(list, t) == list
  {
    if list == [] {
    } else {
      assert list[0] in list;
      DelAbsent(list[1..], t);
    }
  }

  /** Whatever else is in the list keeps its order. */
  lemma DelOrder(list: seq<int>, t: int, x: int, y: int)
    requires Distinct(list)
    ensures Ahead(Del(list, t), x, y) <==> Ahead(list, x, y) && x != t && y != t
  {
    hide Del;
    if t in list {
      var k :| 0 <= k < |list| && list[k] == t;
      DelIsWithout(list, k);
      WithoutOrder(list, k, x, y);
    } else {
      DelAbsent(list, t);
      if i, j :| At(list, i, x) && At(list, j, y) && i < j {
        assert list[i] in list && list[j] in list;
      }
    }
  }

  /** The node is cut out where it stands, and all others are where they were. */
  lemma {:induction false} DelIsWithout(list: seq<int>, k: nat)
    requires Distinct(list) && k < |list|
    ensures Del(list, list[k]) == Without(list, k) == list[..k] + list[k + 1..]
  {
    if k == 0 {
      DelAbsent(list[1..], list[0]);
    } else {
      DelIsWithout(list[1..], k - 1);
      assert Without(list, k) == [list[0]] + Without(list[1..], k - 1);
    }
  }
}
