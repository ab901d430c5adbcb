/** The lists of threads waiting on a kernel object. */
module WaitList {
  import opened Lists

  type Tid = nat
  type Prios = map<Tid, nat>   // current priorities; smaller is more urgent

  datatype Flag = Fifo | Prio

  ghost predicate Known(list: seq<Tid>, prio: Prios) {
    forall t | t in list :: t in prio
  }

  /** Most urgent first. */
  ghost predicate ByPriority(list: seq<Tid>, prio: Prios) {
    Known(list, prio) && forall i, j | 0 <= i < j < |list| && list[i] in prio
      && list[j] in prio :: prio[list[i]] <= prio[list[j]]
  }

  function InsertAt(list: seq<Tid>, k: nat, t: Tid): seq<Tid>
    requires k <= |list|
  {
    list[..k] + [t] + list[k..]
  }

  /** Where a thread joins the list: at the end, or before the first one that is
      less urgent. */
  ghost predicate JoinsAt(list: seq<Tid>, prio: Prios, t: Tid, flag: Flag, k: nat) {
    && k <= |list| && t in prio && Known(list, prio)
    && (flag.Fifo? ==> k == |list|)
    && (flag.Prio? ==>
          && (forall i | 0 <= i < k :: list[i] in prio && prio[list[i]] <= prio[t])
          && (k < |list| ==> list[k] in prio && prio[t] < prio[list[k]]))
  }

  /** Puts thread `t` on the list. */
  method Suspend(list: seq<Tid>, prio: Prios, t: Tid, flag: Flag) returns (r: seq<Tid>, ghost k: nat)
    requires t in prio && Known(list, prio)
    ensures JoinsAt(list, prio, t, flag, k) && r == InsertAt(list, k, t)
    ensures exists j: nat :: JoinsAt(list, prio, t, flag, j) && r == InsertAt(list, j, t)
    ensures |r| == |list| + 1 && t in r
  {
    match flag
    case Fifo =>
      r, k := list + [t], |list|;
      assert list[..|list|] == list && list[|list|..] == [];
    case Prio =>
      var n := 0;
      forall i | 0 <= i < |list| ensures list[i] in prio { var x := list[i]; assert x in list; }
      while n < |list|
        invariant n <= |list| && forall i | 0 <= i < n :: prio[list[i]] <= prio[t]
      {
        if prio[t] < prio[list[n]] {
          // before this one
          return list[..n] + [t] + list[n..], n;
        }
        n := n + 1;
      }
      r, k := list + [t], |list|;
      assert list[..|list|] == list && list[|list|..] == [];
  }

  lemma InsertedAt(list: seq<Tid>, k: nat, t: Tid, i: nat)
    requires k <= |list| && i <= |list|
    ensures InsertAt(list, k, t)[i] == if i < k then list[i] else if i == k then t else list[i - 1]
  {}

  lemma InsertKeeps(list: seq<Tid>, k: nat, t: Tid)
    requires k <= |list| && Distinct(list) && t !in list
    ensures Distinct(InsertAt(list, k, t))
    ensures forall x :: x in InsertAt(list, k, t) <==> x in list || x == t
  {
    var r := InsertAt(list, k, t);
    forall i, j | 0 <= i < j < |r| ensures r[i] != r[j] {
      InsertedAt(list, k, t, i);
      InsertedAt(list, k, t, j);
    }
    assert list == list[..k] + list[k..];
  }

  /** Under the priority flag the list stays sorted; with the place a thread joins at,
      this makes it first come, first served among equals. */
  lemma InsertSorted(list: seq<Tid>, prio: Prios, t: Tid, k: nat)
    requires ByPriority(list, prio) && JoinsAt(list, prio, t, Prio, k)
    ensures ByPriority(InsertAt(list, k, t), prio)
  {
    var r := InsertAt(list, k, t);
    assert list == list[..k] + list[k..];
    forall i, j | 0 <= i < j < |r| && r[i] in prio && r[j] in prio ensures prio[r[i]] <= prio[r[j]] {
      InsertedAt(list, k, t, i);
      InsertedAt(list, k, t, j);
      assert k < j ==> list[j - 1] in list;
      assert k < |list| && k < j ==> prio[list[k]] <= prio[list[j - 1]];
    }
  }

  lemma WithoutSorted(list: seq<Tid>, prio: Prios, k: nat)
    requires ByPriority(list, prio) && k < |list|
    ensures ByPriority(Without(list, k), prio)
  {
    var r := Without(list, k);
    forall x | x in r ensures x in list {
      var i :| 0 <= i < |r| && r[i] == x;
      WithoutAt(list, k, i);
    }
    forall i, j | 0 <= i < j < |r| && r[i] in prio && r[j] in prio ensures prio[r[i]] <= prio[r[j]] {
      WithoutAt(list, k, i);
      WithoutAt(list, k, j);
    }
  }

  function Position(list: seq<Tid>, t: Tid): (k: nat)
    requires t in list
    ensures k < |list| && list[k] == t
  {
    if list[0] == t then 0 else 1 + Position(list[1..], t)
  }

  /** One wait list, the threads resumed from it that have not run again, and the work
      (mails or free slots) they wait for. While anybody still waits, no more work is there
      than resumed threads will find, `slack` of them being on the way just now. */
  ghost predicate NoneLost(list: seq<Tid>, woken: set<Tid>, work: int, slack: nat) {
    list != [] ==> work <= |woken| + slack
  }

  ghost predicate Waiting(list: seq<Tid>, flag: Flag, prio: Prios) {
    Distinct(list) && Known(list, prio) && (flag.Prio? ==> ByPriority(list, prio))
  }

  /** The first of a list is resumed. */
  ghost predicate FirstWoken(list: seq<Tid>, woken: set<Tid>, list': seq<Tid>, woken': set<Tid>) {
    if list == [] then list' == [] && woken' == woken else list' == list[1..] && woken' == woken + {list[0]}
  }

  lemma JoinsList(list: seq<Tid>, k: nat, t: Tid, flag: Flag, prio: Prios)
    requires Waiting(list, flag, prio) && JoinsAt(list, prio, t, flag, k) && t !in list
    ensures Waiting(InsertAt(list, k, t), flag, prio)
    ensures forall x :: x in InsertAt(list, k, t) <==> x in list || x == t
  {
    InsertKeeps(list, k, t);
    if flag.Prio? { InsertSorted(list, prio, t, k); }
  }

  lemma LeavesList(list: seq<Tid>, k: nat, flag: Flag, prio: Prios)
    requires Waiting(list, flag, prio) && k < |list|
    ensures Waiting(Without(list, k), flag, prio)
    ensures forall x :: x in Without(list, k) <==> x in list && x != list[k]
  {
    WithoutKeeps(list, k);
    if flag.Prio? { WithoutSorted(list, prio, k); }
  }

  lemma Wakes(list: seq<Tid>, woken: set<Tid>, work: int, slack: nat, flag: Flag, prio: Prios)
    requires Waiting(list, flag, prio) && NoneLost(list, woken, work, slack) && list != [] && list[0] !in woken
    ensures Waiting(list[1..], flag, prio) && NoneLost(list[1..], woken + {list[0]}, work + 1, slack)
    ensures forall x :: x in list[1..] <==> x in list && x != list[0]
  {
    LeavesList(list, 0, flag, prio);
    assert Without(list, 0) == list[1..];
  }

  /** What is left of a waiting time; a negative one never ends. */
  function TimeLeft(timeout: int, elapsed: nat): int {
    if timeout > 0 then (if timeout - elapsed < 0 then 0 else timeout - elapsed) else timeout
  }

  /** Time that is up is zero, time that is left and time that is gone make up the whole, and waiting for ever or
      not at all is as it was. */
  lemma TimeLeftMeans(timeout: int, elapsed: nat, left: int)
    ensures left == TimeLeft(timeout, elapsed) <==>
      if timeout <= 0 then left == timeout
      else left >= 0 && (left > 0 ==> left + elapsed == timeout) && (left == 0 ==> elapsed >= timeout)
  {}

  /** However often a thread is resumed in vain, it waits no longer in all than it asked for. */
  lemma TimeLeftAdds(timeout: int, first: nat, second: nat)
    ensures TimeLeft(TimeLeft(timeout, first), second) == TimeLeft(timeout, first + second)
  {}

  /** Whether `x` comes before `y`: by priority under that flag, then by arrival. */
  ghost predicate Before(x: Tid, y: Tid, prio: Prios, arrival: map<Tid, nat>, flag: Flag) {
    && x in prio && y in prio && x in arrival && y in arrival
    && if flag.Prio? && prio[x] != prio[y] then prio[x] < prio[y] else arrival[x] < arrival[y]
  }

  ghost predicate InTurn(list: seq<Tid>, prio: Prios, arrival: map<Tid, nat>, flag: Flag) {
    forall i, j | 0 <= i < j < |list| :: Before(list[i], list[j], prio, arrival, flag)
  }

  /** Of those who wait one is resumed, and it is the one whose turn it is: by priority under that flag, then by
      arrival, it comes before everybody who is left. */
  lemma WokenInTurn(list: seq<Tid>, woken: set<Tid>, list': seq<Tid>, woken': set<Tid>, prio: Prios,
                    arrival: map<Tid, nat>, flag: Flag) returns (t: Tid)
    requires list != [] && FirstWoken(list, woken, list', woken') && InTurn(list, prio, arrival, flag)
    ensures t in list && woken' == woken + {t}
    ensures forall x :: x in list <==> x == t || x in list'
    ensures |list'| == |list| - 1 && InTurn(list', prio, arrival, flag)
    ensures forall y | y in list' :: Before(t, y, prio, arrival, flag)
  {
    t := list[0];
    assert list == [t] + list';
    forall i, j | 0 <= i < j < |list'| ensures Before(list'[i], list'[j], prio, arrival, flag) {
      assert Before(list[i + 1], list[j + 1], prio, arrival, flag);
    }
    forall y | y in list' ensures Before(t, y, prio, arrival, flag) {
      var j :| 0 <= j < |list'| && list'[j] == y;
      assert Before(list[0], list[j + 1], prio, arrival, flag);
    }
  }

  /** The thread that arrives last is put exactly where its turn is. */
  lemma InsertInTurn(list: seq<Tid>, prio: Prios, arrival: map<Tid, nat>, flag: Flag, t: Tid, k: nat, now: nat)
    requires InTurn(list, prio, arrival, flag) && JoinsAt(list, prio, t, flag, k) && t !in list
    requires forall x | x in list :: x in arrival && arrival[x] < now
    ensures InTurn(InsertAt(list, k, t), prio, arrival[t := now], flag)
  {
    var r, arrival' := InsertAt(list, k, t), arrival[t := now];
    forall i, j | 0 <= i < j < |r| ensures Before(r[i], r[j], prio, arrival', flag) {
      InsertedAt(list, k, t, i);
      InsertedAt(list, k, t, j);
      if i != k && j != k {
        assert Before(list[if i < k then i else i - 1], list[if j < k then j else j - 1], prio, arrival, flag);
        assert list[if i < k then i else i - 1] in list && list[if j < k then j else j - 1] in list;
      } else if j == k {
        assert list[i] in list;
      } else {
        var y := list[j - 1];
        assert y in list;
        assert k < j - 1 ==> Before(list[k], y, prio, arrival, flag);
      }
    }
  }

  lemma WithoutInTurn(list: seq<Tid>, prio: Prios, arrival: map<Tid, nat>, flag: Flag, k: nat)
    requires InTurn(list, prio, arrival, flag) && k < |list|
    ensures InTurn(Without(list, k), prio, arrival, flag)
  {
    var r := Without(list, k);
    forall i, j | 0 <= i < j < |r| ensures Before(r[i], r[j], prio, arrival, flag) {
      WithoutAt(list, k, i);
      WithoutAt(list, k, j);
    }
  }
}
