/** The ready lists, one per priority, and the bitmap that says which of them are not empty.
    A word is the set of the numbers of its one bits. */
module ReadyMap {
  import opened Lists
  import opened WaitList

  const BYTES: nat := 32

  datatype Stat = Init | Ready | Suspend | Close

  /** A thread with its initial and its current priority and the bit masks kept for it. */
  datatype Thread = Thread(stat: Stat, init: nat, prio: nat, number: nat, numberMask: set<nat>, highMask: set<nat>)

  type Threads = map<Tid, Thread>
  type Table = seq<seq<Tid>>

  /** A thread's masks at a priority: its bit of the one word, or of the group and a byte. */
  function Masked(t: Thread, wide: bool, prio: nat): Thread {
    if wide then t.(prio := prio, number := prio / 8, numberMask := {prio / 8}, highMask := {prio % 8})
    else t.(prio := prio, numberMask := {prio})
  }

  ghost predicate MasksOk(t: Thread, wide: bool) {
    if wide then t.number == t.prio / 8 && t.numberMask == {t.prio / 8} && t.highMask == {t.prio % 8}
    else t.numberMask == {t.prio}
  }

  function Drop(list: seq<Tid>, t: Tid): seq<Tid> {
    if t in list then Without(list, Position(list, t)) else list
  }

  lemma DropKeeps(list: seq<Tid>, t: Tid)
    requires Distinct(list)
    ensures Distinct(Drop(list, t))
    ensures forall x :: x in Drop(list, t) <==> x in list && x != t
  {
    if t in list { WithoutKeeps(list, Position(list, t)); }
  }

  /** `r` is the list without `t`: what was in front of it and what was behind it, in that order. */
  ghost predicate LeftBehind(list: seq<Tid>, t: Tid, r: seq<Tid>) {
    if t in list then exists k: nat :: CutOut(list, t, r, k) else r == list
  }

  ghost predicate CutOut(list: seq<Tid>, t: Tid, r: seq<Tid>, k: nat) {
    k < |list| && list[k] == t && r == list[..k] + list[k + 1..]
  }

  lemma DropLeaves(list: seq<Tid>, t: Tid)
    ensures LeftBehind(list, t, Drop(list, t))
  {
    if t in list { assert CutOut(list, t, Drop(list, t), Position(list, t)); }
  }

  lemma DropHead(list: seq<Tid>)
    requires list != []
    ensures Drop(list, list[0]) == list[1..]
  {}

  lemma NotThere(list: seq<Tid>, t: Tid)
    requires t !in list
    ensures LeftBehind(list, t, list)
  {}

  /** Any two other threads keep their order. */
  lemma DropOrder(list: seq<Tid>, t: Tid, x: Tid, y: Tid)
    requires Distinct(list)
    ensures Ahead(Drop(list, t), x, y) <==> Ahead(list, x, y) && x != t && y != t
  {
    if t in list {
      WithoutOrder(list, Position(list, t), x, y);
    } else if i, j :| At(list, i, x) && At(list, j, y) && i < j {
      assert list[i] in list && list[j] in list;
    }
  }

  // ---- Lists

  /** Each thread of `listed` is on the list of its priority, once, and on no other. */
  ghost predicate Listed(levels: nat, table: Table, threads: Threads, listed: set<Tid>) {
    && |table| == levels
    && (forall p | 0 <= p < levels :: Distinct(table[p]))
    && listed <= threads.Keys
    && (forall t | t in listed && t in threads :: threads[t].prio < levels)
    && (forall p, t | 0 <= p < levels :: t in table[p] <==> t in listed && t in threads && threads[t].prio == p)
  }

  lemma ListedDrop(levels: nat, table: Table, threads: Threads, listed: set<Tid>, t: Tid)
    requires Listed(levels, table, threads, listed) && t in threads && threads[t].prio < levels
    ensures Listed(levels, table[threads[t].prio := Drop(table[threads[t].prio], t)], threads, listed - {t})
  {
    var p := threads[t].prio;
    DropKeeps(table[p], t);
  }

  lemma ListedAdd(levels: nat, table: Table, threads: Threads, listed: set<Tid>, t: Tid)
    requires Listed(levels, table, threads, listed) && t in threads && threads[t].prio < levels && t !in listed
    ensures Listed(levels, table[threads[t].prio := table[threads[t].prio] + [t]], threads, listed + {t})
  {
    var list := table[threads[t].prio];
    InsertKeeps(list, |list|, t);
    assert InsertAt(list, |list|, t) == list + [t];
  }

  lemma ListedOther(levels: nat, table: Table, threads: Threads, listed: set<Tid>, t: Tid, thread: Thread)
    requires Listed(levels, table, threads, listed) && t in threads
    requires t in listed ==> thread.prio == threads[t].prio
    ensures Listed(levels, table, threads[t := thread], listed)
  {}

  // ---- The bitmap

  ghost predicate Occupied(table: Table, p: nat) {
    p < |table| && table[p] != []
  }

  /** Up to 32 priorities: one word. */
  ghost predicate Flat(table: Table, group: set<nat>) {
    |table| <= BYTES && forall p: nat :: p in group <==> Occupied(table, p)
  }

  /** Up to 256 priorities: bytes, and a word that says which of them are not zero. */
  ghost predicate TwoLevel(table: Table, group: set<nat>, bytes: seq<set<nat>>) {
    && |table| <= 8 * BYTES && |bytes| == BYTES
    && (forall n: nat, b: nat | n < BYTES :: b in bytes[n] <==> b < 8 && Occupied(table, 8 * n + b))
    && (forall n: nat :: n in group <==> n < BYTES && bytes[n] != {})
  }

  ghost predicate Mapped(wide: bool, table: Table, group: set<nat>, bytes: seq<set<nat>>) {
    if wide then TwoLevel(table, group, bytes) else Flat(table, group)
  }

  lemma FlatAdd(table: Table, group: set<nat>, p: nat, list: seq<Tid>)
    requires Flat(table, group) && p < |table| && list != []
    ensures Flat(table[p := list], group + {p})
  {
    var table' := table[p := list];
    forall q: nat ensures q in group + {p} <==> Occupied(table', q) {
      assert q != p ==> (Occupied(table', q) <==> Occupied(table, q));
    }
  }

  lemma FlatDrop(table: Table, group: set<nat>, p: nat, list: seq<Tid>)
    requires Flat(table, group) && p < |table| && (table[p] == [] ==> list == [])
    ensures Flat(table[p := list], if list == [] then group - {p} else group)
  {
    var table' := table[p := list];
    var group' := if list == [] then group - {p} else group;
    forall q: nat ensures q in group' <==> Occupied(table', q) {
      assert q in group <==> Occupied(table, q);
    }
  }

  lemma TwoLevelAdd(table: Table, group: set<nat>, bytes: seq<set<nat>>, p: nat, list: seq<Tid>)
    requires TwoLevel(table, group, bytes) && p < |table| && list != []
    ensures p / 8 < BYTES
    ensures TwoLevel(table[p := list], group + {p / 8}, bytes[p / 8 := bytes[p / 8] + {p % 8}])
  {
    var table', bytes' := table[p := list], bytes[p / 8 := bytes[p / 8] + {p % 8}];
    assert p == 8 * (p / 8) + p % 8;
    forall n: nat, b: nat | n < BYTES ensures b in bytes'[n] <==> b < 8 && Occupied(table', 8 * n + b) {
      assert b in bytes[n] <==> b < 8 && Occupied(table, 8 * n + b);
      assert b < 8 && 8 * n + b == p ==> n == p / 8 && b == p % 8;
    }
    assert p % 8 in bytes'[p / 8];
  }

  lemma TwoLevelDrop(table: Table, group: set<nat>, bytes: seq<set<nat>>, p: nat, list: seq<Tid>)
    requires TwoLevel(table, group, bytes) && p < |table| && (table[p] == [] ==> list == [])
    ensures p / 8 < BYTES
    ensures var byte := bytes[p / 8] - {p % 8};
            if list == []
            then TwoLevel(table[p := list], if byte == {} then group - {p / 8} else group, bytes[p / 8 := byte])
            else TwoLevel(table[p := list], group, bytes)
  {
    var table' := table[p := list];
    var bytes' := if list == [] then bytes[p / 8 := bytes[p / 8] - {p % 8}] else bytes;
    assert p == 8 * (p / 8) + p % 8;
    forall n: nat, b: nat | n < BYTES ensures b in bytes'[n] <==> b < 8 && Occupied(table', 8 * n + b) {
      assert b in bytes[n] <==> b < 8 && Occupied(table, 8 * n + b);
      assert b < 8 && 8 * n + b == p ==> n == p / 8 && b == p % 8;
    }
  }

  /** Priority `p` is the most urgent one with a thread. */
  ghost predicate Top(table: Table, p: nat) {
    Occupied(table, p) && forall q: nat | q < p :: !Occupied(table, q)
  }

  /** The least set bit, which is what __rt_ffs finds (counting from one). */
  method LeastBit(word: set<nat>) returns (b: nat)
    requires word != {} && forall x | x in word :: x < BYTES
    ensures b in word && forall x | x in word :: b <= x
  {
    b := 0;
    while b !in word
      invariant b <= BYTES && forall x | x in word :: b <= x
      decreases BYTES - b
    {
      assert exists x :: x in word && b < x;
      b := b + 1;
    }
  }

  /** The priority to run, from either form of the bitmap. */
  method Highest(wide: bool, group: set<nat>, bytes: seq<set<nat>>, ghost table: Table) returns (p: nat)
    requires Mapped(wide, table, group, bytes) && exists q :: Occupied(table, q)
    ensures Top(table, p)
  {
    ghost var q: nat :| Occupied(table, q);
    if wide {
      SomeGroup(table, group, bytes, q);
      var number := LeastBit(group);
      var bit := LeastBit(bytes[number]);
      p := 8 * number + bit;
      forall r: nat | r < p ensures !Occupied(table, r) {
        if Occupied(table, r) { SomeGroup(table, group, bytes, r); }
      }
    } else {
      assert q in group;
      p := LeastBit(group);
    }
  }

  lemma SomeGroup(table: Table, group: set<nat>, bytes: seq<set<nat>>, q: nat)
    requires TwoLevel(table, group, bytes) && Occupied(table, q)
    ensures q / 8 in group && q / 8 < BYTES && q % 8 in bytes[q / 8]
  {
    var n: nat, b: nat := q / 8, q % 8;
    assert q == 8 * n + b && n < BYTES && b < 8;
    assert Occupied(table, 8 * n + b);
    assert b in bytes[n];
  }
}
