/** The scheduler: ready lists, the bitmap over them, and threads moving between ready lists
    and the wait lists of kernel objects. */
module Kernel {
  import opened Lists
  import opened WaitList
  import opened ReadyMap
  import opened Machine

  type Waits = map<nat, seq<Tid>>     // the wait list of every kernel object

  lemma SameOccupied(wide: bool, table: Table, group: set<nat>, bytes: seq<set<nat>>, p: nat, list: seq<Tid>)
    requires Mapped(wide, table, group, bytes) && p < |table| && table[p] != [] && list != []
    ensures Mapped(wide, table[p := list], group, bytes)
  {
    var table' := table[p := list];
    forall q: nat ensures Occupied(table', q) <==> Occupied(table, q) {}
  }

  // ---- Wait lists

  /** Only suspended threads wait, each on at most one list. */
  ghost predicate WaitsOk(waits: Waits, threads: Threads) {
    && (forall o | o in waits :: Distinct(waits[o]))
    && (forall o, t | o in waits && t in waits[o] :: t in threads && threads[t].stat == Suspend)
    && (forall o, u, t | o in waits && u in waits && o != u && t in waits[o] :: t !in waits[u])
  }

  function DropAll(waits: Waits, t: Tid): Waits {
    map o | o in waits :: Drop(waits[o], t)
  }

  ghost predicate WaitsNowhere(waits: Waits, t: Tid) {
    forall o | o in waits :: t !in waits[o]
  }

  lemma DropAllKeeps(waits: Waits, threads: Threads, t: Tid)
    requires WaitsOk(waits, threads)
    ensures WaitsOk(DropAll(waits, t), threads) && WaitsNowhere(DropAll(waits, t), t)
    ensures WaitsNowhere(waits, t) ==> DropAll(waits, t) == waits
  {
    forall o | o in waits
      ensures Distinct(Drop(waits[o], t)) && forall x :: x in Drop(waits[o], t) <==> x in waits[o] && x != t
    {
      DropKeeps(waits[o], t);
    }
  }

  /** `after` is the wait lists without `t`, all others in their old order. */
  ghost predicate AllLeftBehind(waits: Waits, t: Tid, after: Waits) {
    after.Keys == waits.Keys && forall o | o in waits :: LeftBehind(waits[o], t, after[o])
  }

  lemma DropAllLeaves(waits: Waits, t: Tid)
    ensures AllLeftBehind(waits, t, DropAll(waits, t))
  {
    hide LeftBehind, Drop;
    forall o | o in waits ensures LeftBehind(waits[o], t, DropAll(waits, t)[o]) { DropLeaves(waits[o], t); }
  }

  lemma WaitsJoin(waits: Waits, threads: Threads, o: nat, t: Tid, k: nat)
    requires WaitsOk(waits, threads) && o in waits && WaitsNowhere(waits, t) && k <= |waits[o]|
    requires t in threads && threads[t].stat == Suspend
    ensures WaitsOk(waits[o := InsertAt(waits[o], k, t)], threads)
  {
    InsertKeeps(waits[o], k, t);
  }

  lemma WaitsOther(waits: Waits, threads: Threads, t: Tid, thread: Thread)
    requires WaitsOk(waits, threads) && t in threads
    requires thread.stat == threads[t].stat || thread.stat == Suspend || WaitsNowhere(waits, t)
    ensures WaitsOk(waits, threads[t := thread])
  {}

  // ---- Threads

  ghost predicate ThreadOk(t: Thread, listed: bool, wide: bool, levels: nat) {
    && listed == (t.stat == Ready)
    && t.prio < levels && t.init < levels
    && (t.stat == Ready || t.stat == Suspend ==> MasksOk(t, wide))
  }

  ghost predicate ThreadsOk(threads: Threads, listed: set<Tid>, wide: bool, levels: nat) {
    forall t | t in threads :: ThreadOk(threads[t], t in listed, wide, levels)
  }

  lemma ThreadsSet(threads: Threads, listed: set<Tid>, listed': set<Tid>, wide: bool, levels: nat, t: Tid,
                   thread: Thread)
    requires ThreadsOk(threads, listed, wide, levels) && t in threads && listed' - {t} == listed - {t}
    requires ThreadOk(thread, t in listed', wide, levels)
    ensures ThreadsOk(threads[t := thread], listed', wide, levels)
  {
    forall x | x in threads[t := thread] ensures ThreadOk(threads[t := thread][x], x in listed', wide, levels) {
      if x != t {
        assert ThreadOk(threads[x], x in listed, wide, levels);
        assert x in listed' <==> x in listed' - {t};
        assert x in listed <==> x in listed - {t};
      }
    }
  }

  function Priorities(threads: Threads): Prios {
    map t | t in threads :: threads[t].prio
  }

  lemma PrioritiesAre(threads: Threads)
    ensures Priorities(threads).Keys == threads.Keys
    ensures forall t | t in threads :: Priorities(threads)[t] == threads[t].prio
  {}

  /** The list is sorted by the threads' current priorities, most urgent first. */
  ghost predicate ByCurrent(list: seq<Tid>, threads: Threads) {
    && (forall t | t in list :: t in threads)
    && forall i, j | 0 <= i < j < |list| && list[i] in threads && list[j] in threads ::
         threads[list[i]].prio <= threads[list[j]].prio
  }

  lemma JoinsByCurrent(list: seq<Tid>, before: Threads, threads: Threads, t: Tid, k: nat)
    requires JoinsAt(list, Priorities(threads), t, Prio, k)
    requires before.Keys == threads.Keys && forall x | x in threads :: threads[x].prio == before[x].prio
    ensures ByCurrent(list, before) ==> ByCurrent(InsertAt(list, k, t), threads)
  {
    PrioritiesAre(threads);
    if ByCurrent(list, before) {
      InsertSorted(list, Priorities(threads), t, k);
    }
  }

  // ---- Round robin

  /** A list after its first `n` threads have gone to its end, one by one. */
  ghost function Rotated(list: seq<Tid>, n: nat): seq<Tid>
    requires list != []
  {
    if n == 0 then list else var r := Rotated(list, n - 1); r[1..] + [r[0]]
  }

  lemma RotatedNext(list: seq<Tid>, n: nat)
    requires list != []
    ensures var r := Rotated(list, n); r != [] && Rotated(list, n + 1) == r[1..] + [r[0]]
  {
    RotatedKeeps(list, n);
  }

  lemma {:induction false} RotatedLess(list: seq<Tid>, j: nat)
    requires j < |list|
    ensures Rotated(list, j) == list[j..] + list[..j]
  {
    if j == 0 {
    } else {
      RotatedLess(list, j - 1);
    }
  }

  lemma {:induction false} RotatedOn(list: seq<Tid>, n: nat, j: nat)
    requires list != []
    ensures Rotated(list, n) != [] && Rotated(list, n + j) == Rotated(Rotated(list, n), j)
  {
    RotatedKeeps(list, n);
    if j == 0 {
    } else {
      RotatedOn(list, n, j - 1);
    }
  }

  lemma {:induction false} RotatedKeeps(list: seq<Tid>, n: nat)
    requires list != []
    ensures |Rotated(list, n)| == |list| && multiset(Rotated(list, n)) == multiset(list)
  {
    if n == 0 {
    } else {
      RotatedKeeps(list, n - 1);
      var r := Rotated(list, n - 1);
      assert r == [r[0]] + r[1..];
    }
  }

  /** Turn number `start + j` of threads that take turns is that of `t`. */
  ghost predicate IsTurn(list: seq<Tid>, start: nat, t: Tid, j: nat)
    requires list != []
  {
    Rotated(list, start + j) != [] && Rotated(list, start + j)[0] == t
  }

  /** The threads that ran, turn by turn. */
  ghost predicate ByTurns(list: seq<Tid>, ran: seq<Tid>) {
    list != [] && forall i: nat | i < |ran| :: IsTurn(list, 0, ran[i], i)
  }

  lemma FirstTurn(list: seq<Tid>)
    requires list != []
    ensures Rotated(list, 0) == list && ByTurns(list, [])
  {}

  lemma NextTurn(list: seq<Tid>, ran: seq<Tid>, t: Tid)
    requires ByTurns(list, ran) && Rotated(list, |ran|) != [] && Rotated(list, |ran|)[0] == t
    ensures ByTurns(list, ran + [t])
    ensures var r := Rotated(list, |ran|); Rotated(list, |ran + [t]|) == r[1..] + [r[0]]
  {
    RotatedNext(list, |ran|);
  }

  /** In any `k` turns in a row each of `k` threads has exactly one. */
  lemma FairTurns(list: seq<Tid>, start: nat, t: Tid)
    requires Distinct(list) && t in list
    ensures exists j: nat :: j < |list| && IsTurn(list, start, t, j)
                             && forall i: nat | i < |list| && IsTurn(list, start, t, i) :: i == j
  {
    var r := Rotated(list, start);
    RotatedKeeps(list, start);
    SameMembers(list, r);
    forall j: nat | j < |list| ensures IsTurn(list, start, t, j) <==> r[j] == t {
      RotatedOn(list, start, j);
      RotatedLess(r, j);
    }
    var j := Position(r, t);
    assert IsTurn(list, start, t, j);
  }

  ghost predicate RanAt(ran: seq<Tid>, start: nat, t: Tid, j: nat) {
    start + j < |ran| && ran[start + j] == t
  }

  /** Threads that only yield: in any `k` turns in a row each of the `k` runs exactly once. */
  lemma FairRun(list: seq<Tid>, ran: seq<Tid>, start: nat, t: Tid)
    requires Distinct(list) && t in list && ByTurns(list, ran) && start + |list| <= |ran|
    ensures exists j: nat :: j < |list| && RanAt(ran, start, t, j)
                             && forall i: nat | i < |list| && RanAt(ran, start, t, i) :: i == j
  {
    FairTurns(list, start, t);
    forall i: nat | i < |list| ensures RanAt(ran, start, t, i) <==> IsTurn(list, start, t, i) {
      assert IsTurn(list, 0, ran[start + i], start + i);
    }
  }

  lemma SameMembers(list: seq<Tid>, r: seq<Tid>)
    requires Distinct(list) && multiset(r) == multiset(list)
    ensures Distinct(r) && forall t :: t in list <==> t in r
  {
    forall t ensures t in list <==> t in r {
      assert t in list <==> t in multiset(list);
      assert t in r <==> t in multiset(r);
    }
    forall i, j | 0 <= i < j < |r| ensures r[i] != r[j] {
      if r[i] == r[j] {
        CountTwice(r, i, j);
        CountOnce(list, r[i]);
      }
    }
  }

  lemma CountTwice(r: seq<Tid>, i: nat, j: nat)
    requires i < j < |r| && r[i] == r[j]
    ensures multiset(r)[r[i]] >= 2
  {
    assert r == r[..i] + [r[i]] + r[i + 1..j] + [r[j]] + r[j + 1..];
  }

  lemma {:induction false} CountOnce(list: seq<Tid>, t: Tid)
    requires Distinct(list)
    ensures multiset(list)[t] <= 1
  {
    if list == [] {
    } else {
      var rest := list[1..];
      assert list == [list[0]] + rest;
      CountOnce(rest, t);
      if t == list[0] { assert t !in rest; assert t !in multiset(rest); }
    }
  }

  class System {
    const wide: bool                  // more than 32 priorities
    const levels: nat
    const table: array<seq<Tid>>
    const bytes: array<set<nat>>
    var group: set<nat>
    var threads: Threads
    var waits: Waits
    var current: Option<Tid>
    var currentPriority: nat
    var lockNest: int
    ghost var listed: set<Tid>

    ghost predicate Sizes() {
      0 < levels <= 8 * BYTES && wide == (levels > BYTES) && table.Length == levels && bytes.Length == BYTES
    }

    ghost predicate Valid() reads this, table, bytes {
      && Sizes()
      && Listed(levels, table[..], threads, listed)
      && Mapped(wide, table[..], group, bytes[..])
      && WaitsOk(waits, threads)
      && ThreadsOk(threads, listed, wide, levels)
    }

    /** Some thread is ready, as the idle thread always is. */
    ghost predicate Busy() reads this, table {
      exists p :: Occupied(table[..], p)
    }

    /** A thread is on a ready list exactly if it is ready, namely once on that of its current
        priority; a suspended thread is on no ready list and at most one wait list; and the
        bitmap, whatever its form, has a bit exactly for the lists that are not empty. */
    lemma Agreement(t: Tid, p: nat)
      requires Valid() && t in threads && p < levels
      ensures t in table[p] <==> threads[t].stat == Ready && threads[t].prio == p
      ensures Distinct(table[p])
      ensures threads[t].stat == Ready ==> forall o | o in waits :: t !in waits[o]
      ensures forall o, u | o in waits && u in waits && o != u && t in waits[o] :: t !in waits[u]
      ensures !wide ==> (p in group <==> table[p] != [])
      ensures wide ==> (p % 8 in bytes[p / 8] <==> table[p] != []) && (p / 8 in group <==> bytes[p / 8] != {})
    {
      assert t in table[..][p] <==> t in listed && t in threads && threads[t].prio == p;
      assert ThreadOk(threads[t], t in listed, wide, levels);
      assert Occupied(table[..], p) <==> table[p] != [];
      if wide {
        var n: nat, b: nat := p / 8, p % 8;
        assert p == 8 * n + b && n < BYTES && b < 8;
        assert b in bytes[..][n] <==> b < 8 && Occupied(table[..], 8 * n + b);
      }
    }

    constructor (lists: array<seq<Tid>>, words: array<set<nat>>)
      requires 0 < lists.Length <= 8 * BYTES && words.Length == BYTES
      modifies lists, words
      ensures Valid() && table == lists && bytes == words && threads == map[] && waits == map[] && lockNest == 0
      ensures current == None && forall p :: !Occupied(table[..], p)
    {
      wide, levels, table, bytes := lists.Length > BYTES, lists.Length, lists, words;
      group, threads, waits, listed := {}, map[], map[], {};
      current, currentPriority, lockNest := None, lists.Length - 1, 0;
      new;
      forall i | 0 <= i < lists.Length { lists[i] := []; }
      forall i | 0 <= i < BYTES { words[i] := {}; }
    }

    method SetList(p: nat, list: seq<Tid>)
      requires p < table.Length
      modifies table
      ensures table[..] == old(table[..])[p := list]
    {
      table[p] := list;
    }

    method SetByte(n: nat, byte: set<nat>)
      requires n < bytes.Length
      modifies bytes
      ensures bytes[..] == old(bytes[..])[n := byte]
    {
      bytes[n] := byte;
    }

    /** Takes a thread off its list, whichever it is on, and clears its bit if its ready list
        has become empty. */
    method RemoveThread(t: Tid)
      requires Sizes() && t in threads && threads[t].prio < levels && MasksOk(threads[t], wide)
      requires Mapped(wide, table[..], group, bytes[..])
      modifies table, bytes, this`group, this`waits
      ensures Mapped(wide, table[..], group, bytes[..]) && waits == DropAll(old(waits), t)
      ensures var p := threads[t].prio; table[..] == old(table[..])[p := Drop(old(table[..])[p], t)]
      // everybody else is where they were
      ensures LeftBehind(old(table[threads[t].prio]), t, table[threads[t].prio])
      ensures AllLeftBehind(old(waits), t, waits)
    {
      var p := threads[t].prio;
      var list := Drop(table[p], t);
      DropLeaves(table[p], t);
      DropAllLeaves(waits, t);
      if wide {
        TwoLevelDrop(table[..], group, bytes[..], p, list);
      } else {
        FlatDrop(table[..], group, p, list);
      }
      hide TwoLevel, Flat, Drop, DropAll, LeftBehind, AllLeftBehind;
      SetList(p, list);
      waits := DropAll(waits, t);
      if list == [] {
        if wide {
          SetByte(threads[t].number, bytes[threads[t].number] - threads[t].highMask);
          if bytes[threads[t].number] == {} {
            group := group - threads[t].numberMask;
          }
        } else {
          group := group - threads[t].numberMask;
        }
      }
    }

    /** Puts a thread at the end of the ready list of its priority and sets its bit. */
    method InsertThread(t: Tid)
      requires Sizes() && t in threads && threads[t].prio < levels && MasksOk(threads[t], wide)
      requires Mapped(wide, table[..], group, bytes[..])
      modifies table, bytes, this`group, this`threads
      ensures Mapped(wide, table[..], group, bytes[..]) && threads == old(threads)[t := old(threads)[t].(stat := Ready)]
      ensures var p := old(threads)[t].prio; table[..] == old(table[..])[p := old(table[..])[p] + [t]]
    {
      threads := threads[t := threads[t].(stat := Ready)];
      var p := threads[t].prio;
      var list := table[p] + [t];
      if wide {
        TwoLevelAdd(table[..], group, bytes[..], p, list);
      } else {
        FlatAdd(table[..], group, p, list);
      }
      hide TwoLevel, Flat;
      SetList(p, list);
      if wide {
        SetByte(threads[t].number, bytes[threads[t].number] + threads[t].highMask);
      }
      group := group + threads[t].numberMask;
    }

    lemma Unpack(t: Tid)
      requires Valid() && t in threads
      ensures Sizes() && Listed(levels, table[..], threads, listed) && Mapped(wide, table[..], group, bytes[..])
      ensures WaitsOk(waits, threads) && ThreadsOk(threads, listed, wide, levels)
      ensures ThreadOk(threads[t], t in listed, wide, levels) && threads[t].prio < levels && threads[t].init < levels
      ensures (t in listed) == (threads[t].stat == Ready)
      ensures threads[t].stat == Ready || threads[t].stat == Suspend ==> MasksOk(threads[t], wide)
      ensures threads[t].stat == Ready || threads[t].stat == Suspend ==>
        forall s :: MasksOk(threads[t].(stat := s), wide)
      ensures threads[t].stat != Suspend ==> WaitsNowhere(waits, t)
      ensures threads[t].stat != Ready ==> t !in table[threads[t].prio]
    {
      assert t in table[..][threads[t].prio] <==> t in listed && t in threads && threads[t].prio == threads[t].prio;
    }

    lemma Pack()
      requires Sizes() && Listed(levels, table[..], threads, listed) && Mapped(wide, table[..], group, bytes[..])
      requires WaitsOk(waits, threads) && ThreadsOk(threads, listed, wide, levels)
      ensures Valid()
    {}

    /** The scheduler has run: unless it is locked, the head of the most urgent list that is
        not empty is current. */
    twostate predicate Scheduled() reads this, table {
      && (lockNest != 0 ==> current == old(current))
      && (lockNest == 0 ==>
            exists p: nat :: Top(table[..], p) && current == Some(table[p][0])
                             && (current != old(current) ==> currentPriority == p))
      && (current == old(current) ==> currentPriority == old(currentPriority))
    }

    /** Runs the first thread of the most urgent list that is not empty. */
    method Schedule()
      requires Valid() && (lockNest == 0 ==> Busy())
      modifies this`current, this`currentPriority
      ensures Valid()
      ensures Scheduled()
    {
      if lockNest == 0 {
        var highest := Highest(wide, group, bytes[..], table[..]);
        var to := table[highest][0];
        if Some(to) != current {
          currentPriority := highest;
          current := Some(to);
        }
      }
    }

    /** A new thread. */
    method Create(t: Tid, priority: nat)
      requires Valid() && t !in threads && priority < levels
      modifies this`threads
      ensures Valid() && threads == old(threads)[t := Thread(Init, priority, priority, 0, {}, {})]
    {
      threads := threads[t := Thread(Init, priority, priority, 0, {}, {})];
      assert forall p | 0 <= p < levels :: t !in table[..][p];
    }

    /** A ready thread stops being ready. */
    method SuspendThread(t: Tid) returns (ok: bool)
      requires Valid() && t in threads
      modifies this`group, this`threads, this`waits, this`listed, table, bytes
      ensures Valid() && ok == (old(threads)[t].stat == Ready) && waits == old(waits) && (ok ==> WaitsNowhere(waits, t))
      ensures !ok ==> table[..] == old(table[..]) && threads == old(threads)
      ensures ok ==>
                var p := old(threads)[t].prio;
                && p < levels && threads == old(threads)[t := old(threads)[t].(stat := Suspend)]
                && table[..] == old(table[..])[p := Drop(old(table[..])[p], t)]
                && LeftBehind(old(table[..])[p], t, table[..][p])
    {
      hide *;
      Unpack(t);
      if threads[t].stat != Ready {
        return false;
      }
      Leaving(t, threads[t].(stat := Suspend));
      threads := threads[t := threads[t].(stat := Suspend)];
      DropAllKeeps(waits, threads, t);
      RemoveThread(t);
      listed := listed - {t};
      Pack();
      ok := true;
    }

    /** What holds once a thread has left the ready lists. */
    lemma Leaving(t: Tid, thread: Thread)
      requires Valid() && t in threads && thread.prio == threads[t].prio && thread.stat != Ready && thread.init < levels
      requires
        || threads[t].stat == Ready || thread.stat == threads[t].stat
        || (thread.stat == Close && WaitsNowhere(waits, t))
      requires MasksOk(thread, wide)
      ensures var threads' := threads[t := thread];
              && Listed(levels, table[..][thread.prio := Drop(table[thread.prio], t)], threads', listed - {t})
              && ThreadsOk(threads', listed - {t}, wide, levels) && WaitsOk(waits, threads')
    {
      hide Mapped, MasksOk;
      Unpack(t);
      ListedDrop(levels, table[..], threads, listed, t);
      var table' := table[..][thread.prio := Drop(table[thread.prio], t)];
      ListedOther(levels, table', threads, listed - {t}, t, thread);
      ThreadsSet(threads, listed, listed - {t}, wide, levels, t, thread);
      WaitsOther(waits, threads, t, thread);
    }

    /** What holds once a thread has joined the list of its priority. */
    lemma Joining(t: Tid, thread: Thread)
      requires Valid() && t in threads && threads[t].stat != Ready && thread.stat == Ready
      requires thread.prio < levels && thread.init < levels && MasksOk(thread, wide)
      ensures var threads' := threads[t := thread];
              && Listed(levels, table[..][thread.prio := table[thread.prio] + [t]], threads', listed + {t})
              && ThreadsOk(threads', listed + {t}, wide, levels) && WaitsOk(DropAll(waits, t), threads')
    {
      hide Mapped, MasksOk, DropAll;
      Unpack(t);
      var threads' := threads[t := thread];
      ListedOther(levels, table[..], threads, listed, t, thread);
      ListedAdd(levels, table[..], threads', listed, t);
      ThreadsSet(threads, listed, listed + {t}, wide, levels, t, thread);
      DropAllKeeps(waits, threads, t);
      WaitsOther(DropAll(waits, t), threads, t, thread);
    }

    /** A suspended thread leaves its wait list and is ready. */
    method ResumeThread(t: Tid) returns (ok: bool)
      requires Valid() && t in threads
      modifies this`group, this`threads, this`waits, this`listed, table, bytes
      ensures Valid() && ok == (old(threads)[t].stat == Suspend)
      ensures !ok ==> table[..] == old(table[..]) && threads == old(threads) && waits == old(waits)
      ensures ok ==>
                var p := old(threads)[t].prio;
                && p < levels && threads == old(threads)[t := old(threads)[t].(stat := Ready)]
                && table[..] == old(table[..])[p := old(table[..])[p] + [t]] && waits == DropAll(old(waits), t)
                && AllLeftBehind(old(waits), t, waits)
    {
      hide *;
      Unpack(t);
      if threads[t].stat != Suspend {
        return false;
      }
      Joining(t, threads[t].(stat := Ready));
      DropAllLeaves(waits, t);
      waits := DropAll(waits, t);
      InsertThread(t);
      listed := listed + {t};
      Pack();
      ok := true;
    }

    lemma NowBusy(p: nat, t: Tid)
      requires p < table.Length && t in table[p]
      ensures Busy()
    {
      assert Occupied(table[..], p);
    }

    /** The timer of a suspended thread runs out. */
    method Timeout(t: Tid)
      requires Valid() && t in threads && threads[t].stat == Suspend
      modifies this, table, bytes
      ensures Valid() && threads == old(threads)[t := old(threads)[t].(stat := Ready)]
        && waits == DropAll(old(waits), t) && AllLeftBehind(old(waits), t, waits)
      ensures var p := old(threads)[t].prio;
              p < levels && table[..] == old(table[..])[p := old(table[..])[p] + [t]]
      ensures lockNest == old(lockNest) && Scheduled()
    {
      var ok := ResumeThread(t);
      NowBusy(threads[t].prio, t);
      Schedule();
    }

    /** A new thread starts at its initial priority. */
    method Startup(t: Tid)
      requires Valid() && t in threads && threads[t].stat == Init
      modifies this, table, bytes
      ensures Valid() && waits == old(waits) && lockNest == old(lockNest) && t in threads
      ensures threads == old(threads)[t := Masked(old(threads)[t], wide, old(threads)[t].init).(stat := Ready)]
      ensures var p := threads[t].prio; p < levels && table[..] == old(table[..])[p := old(table[..])[p] + [t]]
      ensures if old(current) != None then Scheduled() else current == None && currentPriority == old(currentPriority)
    {
      hide Listed, Mapped, WaitsOk, ThreadsOk, MasksOk, Masked, DropAll, Drop, Top, Occupied, Valid, Sizes;
      Unpack(t);
      var thread := Masked(threads[t], wide, threads[t].init).(stat := Suspend);
      MaskedIs(threads[t], threads[t].init);
      DropAllKeeps(waits, threads, t);
      Renamed(t, thread);
      threads := threads[t := thread];
      Pack();
      var ok := ResumeThread(t);
      NowBusy(threads[t].prio, t);
      if current != None {
        Schedule();
      }
    }

    /** rt_ipc_list_suspend: a ready thread joins the wait list of an object. */
    method SuspendOn(t: Tid, o: nat, flag: Flag)
      requires Valid() && t in threads && threads[t].stat == Ready && o in waits
      modifies this`group, this`threads, this`waits, this`listed, table, bytes
      ensures Valid() && threads == old(threads)[t := old(threads)[t].(stat := Suspend)]
      ensures exists k: nat :: JoinsAt(old(waits)[o], Priorities(threads), t, flag, k)
                               && waits == old(waits)[o := InsertAt(old(waits)[o], k, t)]
      // by current priorities, first come first served among equals
      ensures flag.Prio? && ByCurrent(old(waits)[o], old(threads)) ==> ByCurrent(waits[o], threads)
      ensures var p := old(threads)[t].prio;
              && p < levels && table[..] == old(table[..])[p := Drop(old(table[..])[p], t)]
              && LeftBehind(old(table[..])[p], t, table[..][p])
    {
      hide *;
      var ok := SuspendThread(t);
      Unpack(t);
      ghost var list := waits[o];
      WaitersKnown(o);
      PrioritiesAre(threads);
      ghost var k: nat;
      var joined: seq<Tid>;
      joined, k := WaitList.Suspend(waits[o], Priorities(threads), t, flag);
      WaitsJoin(waits, threads, o, t, k);
      if flag.Prio? { JoinsByCurrent(list, old(threads), threads, t, k); }
      waits := waits[o := joined];
      Pack();
    }

    lemma WaitersKnown(o: nat)
      requires Valid() && o in waits
      ensures Known(waits[o], Priorities(threads))
    {}

    /** The running thread lets its equals run. */
    method Yield()
      requires Valid() && current.Some? && current.value in threads && (lockNest == 0 ==> Busy())
      modifies this`current, this`currentPriority, table
      ensures Valid() && lockNest == old(lockNest)
      ensures var t := old(current).value;
              var p := threads[t].prio;
              && p < levels
              && if threads[t].stat == Ready && |old(table[..])[p]| > 1
                 then table[..] == old(table[..])[p := Drop(old(table[..])[p], t) + [t]] && Scheduled()
                      && LeftBehind(old(table[..])[p], t, table[..][p][..|old(table[..])[p]| - 1])
                 else table[..] == old(table[..]) && current == old(current) && currentPriority == old(currentPriority)
    {
      var t := current.value;
      var p := threads[t].prio;
      Unpack(t);
      if threads[t].stat == Ready && |table[p]| > 1 {
        Yielding(t);
        ghost var list := table[p];
        DropLeaves(list, t);
        assert (Drop(list, t) + [t])[..|list| - 1] == Drop(list, t);
        SetList(p, Drop(table[p], t) + [t]);
        if lockNest == 0 {
          NowBusy(p, t);
        }
        Schedule();
      }
    }

    lemma Yielding(t: Tid)
      requires Valid() && t in threads && threads[t].stat == Ready
      ensures var p := threads[t].prio;
              && p < levels && t in table[p]
              && var table' := table[..][p := Drop(table[p], t) + [t]];
                 Listed(levels, table', threads, listed) && Mapped(wide, table', group, bytes[..])
    {
      Unpack(t);
      hide MasksOk, ThreadsOk, WaitsOk;
      var p := threads[t].prio;
      assert t in table[..][p] <==> t in listed && t in threads && threads[t].prio == p;
      var table' := table[..][p := Drop(table[p], t) + [t]];
      DropKeeps(table[p], t);
      var list := Drop(table[p], t);
      InsertKeeps(list, |list|, t);
      assert InsertAt(list, |list|, t) == list + [t];
      SameOccupied(wide, table[..], group, bytes[..], p, list + [t]);
    }

    /** Changes the current priority of a thread; a ready one goes to the end of its new list. */
    method ChangePriority(t: Tid, priority: nat)
      requires Valid() && t in threads && priority < levels
      modifies this`group, this`threads, this`waits, this`listed, table, bytes
      ensures Valid() && threads == old(threads)[t := Masked(old(threads)[t], wide, priority)] && waits == old(waits)
      ensures var p := old(threads)[t].prio;
              && p < levels
              && if old(threads)[t].stat != Ready then table[..] == old(table[..])
                 else var removed := old(table[..])[p := Drop(old(table[..])[p], t)];
                      && table[..] == removed[priority := removed[priority] + [t]]
                      && LeftBehind(old(table[..])[p], t, removed[p])
    {
      hide *;
      Unpack(t);
      var thread := Masked(threads[t], wide, priority);
      MaskedIs(threads[t], priority);
      if threads[t].stat == Ready {
        ghost var p, table0 := threads[t].prio, table[..];
        Moving(t, priority);
        RemoveThread(t);
        ghost var removed := table[..];
        assert removed == table0[p := Drop(table0[p], t)];
        DropLeaves(table0[p], t);
        threads := threads[t := thread];
        InsertThread(t);
        assert thread.(stat := Ready) == thread && threads == old(threads)[t := thread];
        assert table[..] == removed[priority := removed[priority] + [t]];
      } else {
        Renamed(t, thread);
        threads := threads[t := thread];
      }
      Pack();
    }

    lemma MaskedIs(thread: Thread, priority: nat)
      ensures var m := Masked(thread, wide, priority);
              && m.prio == priority && m.stat == thread.stat && m.init == thread.init && MasksOk(m, wide)
              && m.(stat := thread.stat) == m && forall s :: MasksOk(m.(stat := s), wide)
    {}

    lemma Renamed(t: Tid, thread: Thread)
      requires Valid() && t in threads && threads[t].stat != Ready && thread.stat != Ready
      requires thread.stat == threads[t].stat || threads[t].stat == Init
      requires thread.prio < levels && thread.init < levels && (thread.stat == Suspend ==> MasksOk(thread, wide))
      ensures var threads' := threads[t := thread];
              Listed(levels, table[..], threads', listed) && ThreadsOk(threads', listed, wide, levels)
                && WaitsOk(waits, threads')
    {
      Unpack(t);
      ListedOther(levels, table[..], threads, listed, t, thread);
      ThreadsSet(threads, listed, listed, wide, levels, t, thread);
      WaitsOther(waits, threads, t, thread);
    }

    /** What holds once a ready thread is on its new list. */
    lemma Moving(t: Tid, priority: nat)
      requires Valid() && t in threads && threads[t].stat == Ready && priority < levels
      ensures threads[t].prio < levels && DropAll(waits, t) == waits
      ensures var p, thread := threads[t].prio, Masked(threads[t], wide, priority);
              var threads', removed := threads[t := thread], table[..][p := Drop(table[p], t)];
              && Listed(levels, removed[priority := removed[priority] + [t]], threads', listed)
              && ThreadsOk(threads', listed, wide, levels) && WaitsOk(waits, threads')
    {
      hide Mapped, Drop, DropAll;
      Unpack(t);
      var p, thread := threads[t].prio, Masked(threads[t], wide, priority);
      var threads', removed := threads[t := thread], table[..][p := Drop(table[p], t)];
      ListedDrop(levels, table[..], threads, listed, t);
      ListedOther(levels, removed, threads, listed - {t}, t, thread);
      ListedAdd(levels, removed, threads', listed - {t}, t);
      assert listed - {t} + {t} == listed;
      ThreadsSet(threads, listed, listed, wide, levels, t, thread);
      WaitsOther(waits, threads, t, thread);
      DropAllKeeps(waits, threads, t);
    }

    /** rt_thread_delete: whatever the thread was doing, it is on no list any more. */
    method Delete(t: Tid)
      requires Valid() && t in threads && threads[t].stat != Close
      modifies this`group, this`threads, this`waits, this`listed, table, bytes
      ensures Valid() && threads == old(threads)[t := old(threads)[t].(stat := Close)]
        && waits == DropAll(old(waits), t)
      ensures WaitsNowhere(waits, t) && forall p | 0 <= p < levels :: t !in table[p]
      // nobody else is moved
      ensures AllLeftBehind(old(waits), t, waits)
      ensures var p := old(threads)[t].prio;
              && p < levels && table[..] == old(table[..])[p := table[..][p]]
              && LeftBehind(old(table[..])[p], t, table[..][p])
    {
      hide *;
      Unpack(t);
      DropAllLeaves(waits, t);
      if threads[t].stat != Init {
        RemovedFrom(t);
        RemoveThread(t);
        listed := listed - {t};
      } else {
        Renamed(t, threads[t].(stat := Close));
        NotThere(table[threads[t].prio], t);
        DropAllKeeps(waits, threads, t);
      }
      threads := threads[t := threads[t].(stat := Close)];
      Pack();
      Gone(t);
    }

    lemma Gone(t: Tid)
      requires Valid() && t in threads && threads[t].stat == Close
      ensures WaitsNowhere(waits, t) && forall p | 0 <= p < levels :: t !in table[p]
    {
      Unpack(t);
      assert forall p | 0 <= p < levels :: t !in table[..][p];
    }

    lemma RemovedFrom(t: Tid)
      requires Valid() && t in threads && threads[t].stat != Init
      ensures var thread := threads[t].(stat := Close);
              var threads' := threads[t := thread];
              && Listed(levels, table[..][thread.prio := Drop(table[thread.prio], t)], threads', listed - {t})
              && ThreadsOk(threads', listed - {t}, wide, levels) && WaitsOk(DropAll(waits, t), threads')
    {
      hide Mapped, MasksOk, DropAll;
      Unpack(t);
      var thread := threads[t].(stat := Close);
      ListedDrop(levels, table[..], threads, listed, t);
      var table' := table[..][thread.prio := Drop(table[thread.prio], t)];
      ListedOther(levels, table', threads, listed - {t}, t, thread);
      ThreadsSet(threads, listed, listed - {t}, wide, levels, t, thread);
      DropAllKeeps(waits, threads, t);
      WaitsOther(DropAll(waits, t), threads, t, thread);
    }

    /** rt_enter_critical and rt_exit_critical: while locked, no thread is switched. */
    method EnterCritical()
      requires Valid() && 0 <= lockNest < 0x7fff
      modifies this`lockNest
      ensures Valid() && lockNest == old(lockNest) + 1
    {
      lockNest := lockNest + 1;
    }

    method ExitCritical()
      requires Valid() && lockNest >= 0 && Busy()
      modifies this`lockNest, this`current, this`currentPriority
      ensures Valid() && lockNest == if old(lockNest) <= 1 then 0 else old(lockNest) - 1
      ensures Scheduled()
    {
      lockNest := lockNest - 1;
      if lockNest <= 0 {
        lockNest := 0;
        Schedule();
      }
    }

    /** The first thread of the most urgent list, that of priority `p`, runs. */
    ghost predicate Running(p: nat) reads this`current, table {
      Top(table[..], p) && current == Some(table[p][0])
    }

    /** Threads that do nothing but yield take turns in list order. */
    method TakeTurns(n: nat, p: nat) returns (ran: seq<Tid>)
      requires Valid() && lockNest == 0 && Running(p) && p < table.Length
      modifies this`current, this`currentPriority, table
      ensures Valid() && Running(p) && table[p] == Rotated(old(table[p]), n)
      ensures |ran| == n && ByTurns(old(table[p]), ran)
    {
      hide *;
      ran := [];
      HeadListed(p);
      ghost var list := table[p];
      FirstTurn(list);
      while |ran| < n
        invariant Valid() && lockNest == 0 && Running(p) && |ran| <= n && table[p] == Rotated(list, |ran|) && list != []
        invariant ByTurns(list, ran)
      {
        HeadListed(p);
        NextTurn(list, ran, current.value);
        ran := ran + [current.value];
        OneTurn(p);
      }
    }

    method OneTurn(p: nat)
      requires Valid() && lockNest == 0 && Running(p) && p < table.Length
      modifies this`current, this`currentPriority, table
      ensures Valid() && Running(p)
      ensures var list := old(table[p]); list != [] && table[p] == list[1..] + [list[0]]
    {
      hide Valid, LeftBehind, Drop, Busy, Top;
      ghost var list, table0 := table[p], table[..];
      var t := current.value;
      HeadListed(p);
      DropHead(list);
      Yield();
      if |list| > 1 {
        assert table[..] == table0[p := list[1..] + [t]];
        SameTop(table0, table[..], p);
      } else {
        assert list == [t] && list[1..] + [t] == list;
      }
    }

    lemma HeadListed(p: nat)
      requires Valid() && Running(p)
      ensures p < table.Length && table[p] != [] && current == Some(table[p][0])
      ensures var t := table[p][0];
              t in threads && threads[t].stat == Ready && threads[t].prio == p && Busy()
    {
      var t := table[p][0];
      assert t in table[..][p];
      assert ThreadOk(threads[t], t in listed, wide, levels);
      assert Occupied(table[..], p);
    }

    lemma SameTop(a: Table, b: Table, p: nat)
      requires Top(a, p) && |a| == |b| && b[p] != [] && forall q | 0 <= q < |a| && q != p :: a[q] == b[q]
      ensures Top(b, p) && forall q: nat | Top(b, q) :: q == p
    {
      forall q: nat ensures Occupied(b, q) <==> Occupied(a, q) {}
    }
  }
}
