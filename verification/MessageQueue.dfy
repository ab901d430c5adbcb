/** Message queues: a pool of message nodes moving between a free list, a queue, and threads
    that fill or empty a node while interrupts are enabled. Each method is one section of a
    thread's code. */
module MessageQueue {
  import opened Lists
  import opened WaitList
  import opened Machine

  type Byte = b: int | 0 <= b < 256

  const NIL: int := -1

  /** How far a thread is with the node it holds. */
  datatype Stage = Claiming(urgent: bool) | Filled(urgent: bool) | Emptying

  datatype Claim = Claimed | NoRoom | TooBig       // -RT_EFULL, -RT_ERROR
  datatype Taken = Unlinked | Empty | Waits        // Empty: -RT_ETIMEOUT
  datatype Status = TimedOut | Failed              // the error of a thread resumed without a message

  // ---- Linked lists of nodes

  function At(s: seq<nat>, i: nat): int {
    if i < |s| then s[i] else NIL
  }

  ghost predicate Links(next: seq<int>, s: seq<nat>, i: nat)
    requires i < |s|
  {
    s[i] < |next| && next[s[i]] == At(s, i + 1)
  }

  /** Following `next` from `first` gives the nodes of `s` and then ends. */
  ghost predicate Chain(next: seq<int>, first: int, s: seq<nat>) {
    first == At(s, 0) && forall i: nat | i < |s| :: Links(next, s, i)
  }

  lemma ChainKeeps(next: seq<int>, first: int, s: seq<nat>, n: nat, v: int)
    requires Chain(next, first, s) && n < |next| && n !in s
    ensures Chain(next[n := v], first, s)
  {
    var next' := next[n := v];
    forall i: nat | i < |s| ensures Links(next', s, i) {
      assert Links(next, s, i);
      assert s[i] in s;
    }
  }

  lemma ChainPush(next: seq<int>, first: int, s: seq<nat>, n: nat)
    requires Chain(next, first, s) && n < |next| && n !in s
    ensures Chain(next[n := first], n, [n] + s)
  {
    var r, next' := [n] + s, next[n := first];
    forall i: nat | i < |r| ensures Links(next', r, i) {
      if i > 0 {
        assert Links(next, s, i - 1) && s[i - 1] in s;
        assert At(r, i + 1) == At(s, i);
      } else {
        assert At(r, 1) == At(s, 0);
      }
    }
  }

  lemma ChainPop(next: seq<int>, first: int, s: seq<nat>)
    requires Chain(next, first, s) && s != []
    ensures first == s[0] && s[0] < |next| && Chain(next, next[s[0]], s[1..])
  {
    assert Links(next, s, 0);
    forall i: nat | i < |s| - 1 ensures Links(next, s[1..], i) {
      assert Links(next, s, i + 1);
    }
  }

  lemma ChainAppend(next: seq<int>, first: int, s: seq<nat>, n: nat)
    requires Chain(next, first, s) && n < |next| && n !in s && next[n] == NIL && Distinct(s)
    ensures s == [] ==> Chain(next, n, [n])
    ensures s != [] ==> s[|s| - 1] < |next| && Chain(next[s[|s| - 1] := n], first, s + [n])
  {
    if s != [] {
      var last, r := s[|s| - 1], s + [n];
      assert last in s && Links(next, s, |s| - 1);
      var next' := next[last := n];
      forall i: nat | i < |r| ensures Links(next', r, i) {
        if i < |s| {
          assert Links(next, s, i);
          assert i < |s| - 1 ==> s[i] != last;
        }
      }
    } else {
      assert Links(next, [n], 0);
    }
  }

  // ---- The pool

  ghost predicate Held(holds: map<Tid, nat>, n: nat) {
    exists t :: t in holds && holds[t] == n
  }

  /** The nodes of the pool are those of list `a`, those of list `b` and those that holds
      threads hold, each node in one place. */
  ghost predicate Parts(max: nat, a: seq<nat>, b: seq<nat>, holds: map<Tid, nat>) {
    && Distinct(a) && Distinct(b)
    && (forall n | n in a :: n < max && n !in b)
    && (forall n | n in b :: n < max)
    && (forall t | t in holds :: holds[t] < max && holds[t] !in a && holds[t] !in b)
    && (forall t, u | t in holds && u in holds && t != u :: holds[t] != holds[u])
    && (forall n: nat | n < max :: n in a || n in b || Held(holds, n))
    && |a| + |b| + |holds| == max
  }

  lemma PartsSwap(max: nat, a: seq<nat>, b: seq<nat>, holds: map<Tid, nat>)
    requires Parts(max, a, b, holds)
    ensures Parts(max, b, a, holds)
  {}

  lemma HeldMore(holds: map<Tid, nat>, t: Tid, m: nat, n: nat)
    requires t !in holds
    ensures Held(holds[t := m], n) <==> Held(holds, n) || n == m
  {
    if u :| u in holds && holds[u] == n {
      assert holds[t := m][u] == n;
    }
    assert holds[t := m][t] == m;
  }

  lemma FirstOut(a: seq<nat>)
    requires Distinct(a) && a != []
    ensures Distinct(a[1..]) && a[0] in a && forall x :: x in a[1..] <==> x in a && x != a[0]
  {
    WithoutKeeps(a, 0);
    assert Without(a, 0) == a[1..];
  }

  /** A thread takes the first node of a list. */
  lemma PartsOut(max: nat, a: seq<nat>, b: seq<nat>, holds: map<Tid, nat>, t: Tid)
    requires Parts(max, a, b, holds) && a != [] && t !in holds
    ensures Parts(max, a[1..], b, holds[t := a[0]])
  {
    hide Held, Distinct;
    FirstOut(a);
    forall n: nat | n < max ensures n in a[1..] || n in b || Held(holds[t := a[0]], n) {
      HeldMore(holds, t, a[0], n);
    }
  }

  /** A thread puts its node on a list. */
  lemma PartsIn(max: nat, a: seq<nat>, k: nat, b: seq<nat>, holds: map<Tid, nat>, t: Tid)
    requires Parts(max, a, b, holds) && k <= |a| && t in holds
    ensures Parts(max, InsertAt(a, k, holds[t]), b, holds - {t})
  {
    var m := holds[t];
    var a' := InsertAt(a, k, m);
    var holds' := holds - {t};
    InsertKeeps(a, k, m);
    assert holds'.Keys == holds.Keys - {t};
    assert |holds'| == |holds'.Keys| && |holds| == |holds.Keys|;
    forall n: nat | n < max ensures n in a' || n in b || Held(holds', n) {
      if Held(holds, n) && n != m {
        var u :| u in holds && holds[u] == n;
        assert u in holds' && holds'[u] == n;
      }
    }
  }

  lemma HeldNode(max: nat, a: seq<nat>, b: seq<nat>, holds: map<Tid, nat>, t: Tid)
    requires Parts(max, a, b, holds) && t in holds
    ensures holds[t] < max && holds[t] !in a && holds[t] !in b && Distinct(a)
    ensures forall u | u in holds && u != t :: holds[u] != holds[t]
    ensures forall n | n in a :: n < max && n !in b && forall u | u in holds :: holds[u] != n
  {}

  /** A node goes from the front of one list to the front of the other. */
  lemma PartsMove(max: nat, a: seq<nat>, b: seq<nat>, holds: map<Tid, nat>)
    requires Parts(max, a, b, holds) && a != []
    ensures Parts(max, a[1..], [a[0]] + b, holds)
  {
    assert a[0] in a;
    WithoutKeeps(a, 0);
    assert Without(a, 0) == a[1..];
    InsertKeeps(b, 0, a[0]);
    assert InsertAt(b, 0, a[0]) == [a[0]] + b;
  }

  // ---- The messages

  /** The messages of the queue, first to leave first. */
  ghost function Bodies(body: seq<seq<Byte>>, queue: seq<nat>): seq<seq<Byte>>
    requires forall n | n in queue :: n < |body|
  {
    seq(|queue|, i requires 0 <= i < |queue| => var n := queue[i]; assert n in queue; body[n])
  }

  ghost predicate Sized(body: seq<seq<Byte>>, size: nat) {
    forall i | 0 <= i < |body| :: |body[i]| == size
  }

  /** What a busy thread's node holds: the data it will send, or the message it took. */
  ghost predicate Carries(body: seq<seq<Byte>>, n: nat, stage: Stage, data: seq<Byte>) {
    && n < |body|
    && (stage.Filled? ==> data <= body[n])
    && (stage.Emptying? ==> data == body[n])
  }

  ghost predicate Carried(body: seq<seq<Byte>>, holds: map<Tid, nat>, stage: map<Tid, Stage>,
                          data: map<Tid, seq<Byte>>)
  {
    && holds.Keys == stage.Keys && holds.Keys <= data.Keys
    && forall t | t in holds && t in stage && t in data :: Carries(body, holds[t], stage[t], data[t])
  }

  /** The last link of a message that waits to be linked at the end. */
  ghost predicate EndsReady(next: seq<int>, holds: map<Tid, nat>, stage: map<Tid, Stage>) {
    forall t | t in holds && t in stage && stage[t] == Filled(false) :: holds[t] < |next| && next[holds[t]] == NIL
  }

  /** The pool is the free list, the queue and the nodes in transit. */
  ghost predicate Pool(max: nat, next: seq<int>, head: int, tail: int, free: int, queue: seq<nat>, freeList: seq<nat>,
                       holds: map<Tid, nat>, stage: map<Tid, Stage>)
  {
    && |next| == max
    && Chain(next, head, queue) && Chain(next, free, freeList)
    && Parts(max, queue, freeList, holds)
    && tail == (if queue == [] then NIL else queue[|queue| - 1])
    && EndsReady(next, holds, stage)
  }

  lemma PoolEnds(max: nat, next: seq<int>, head: int, tail: int, free: int, queue: seq<nat>, freeList: seq<nat>,
                 holds: map<Tid, nat>, stage: map<Tid, Stage>)
    requires Pool(max, next, head, tail, free, queue, freeList, holds, stage)
    ensures |queue| + |freeList| + |holds| == max
    ensures free == NIL <==> freeList == []
    ensures free != NIL ==> 0 <= free < |next| && free == freeList[0]
    ensures (head == NIL <==> queue == []) && (tail == NIL <==> queue == [])
    ensures head != NIL ==> 0 <= head < |next| && head == queue[0]
    ensures tail != NIL ==> 0 <= tail < |next|
    ensures head != NIL ==> (tail == head <==> |queue| == 1)
  {
    if freeList != [] { ChainPop(next, free, freeList); }
    if queue != [] {
      ChainPop(next, head, queue);
      var last := queue[|queue| - 1];
      assert last in queue;
    }
  }

  lemma PoolClaim(max: nat, next: seq<int>, head: int, tail: int, free: int, queue: seq<nat>, freeList: seq<nat>,
                  holds: map<Tid, nat>, stage: map<Tid, Stage>, t: Tid, urgent: bool)
    requires Pool(max, next, head, tail, free, queue, freeList, holds, stage) && t !in holds && 0 <= free < |next|
    ensures freeList != [] && free == freeList[0]
    ensures Pool(max, next, head, tail, next[free], queue, freeList[1..], holds[t := free],
      stage[t := Claiming(urgent)])
  {
    ChainPop(next, free, freeList);
    PartsSwap(max, queue, freeList, holds);
    PartsOut(max, freeList, queue, holds, t);
    PartsSwap(max, freeList[1..], queue, holds[t := freeList[0]]);
    hide Parts, Chain;
  }

  lemma PoolFill(max: nat, next: seq<int>, head: int, tail: int, free: int, queue: seq<nat>, freeList: seq<nat>,
                 holds: map<Tid, nat>, stage: map<Tid, Stage>, t: Tid, urgent: bool)
    requires Pool(max, next, head, tail, free, queue, freeList, holds, stage) && t in holds && t in stage
    ensures holds[t] < |next| && holds[t] !in queue && holds[t] !in freeList
    ensures urgent ==> Pool(max, next, head, tail, free, queue, freeList, holds, stage[t := Filled(true)])
    ensures !urgent ==>
              Pool(max, next[holds[t] := NIL], head, tail, free, queue, freeList, holds, stage[t := Filled(false)])
  {
    var msg := holds[t];
    if !urgent {
      ChainKeeps(next, head, queue, msg, NIL);
      ChainKeeps(next, free, freeList, msg, NIL);
      var next', stage' := next[msg := NIL], stage[t := Filled(false)];
      assert EndsReady(next', holds, stage');
    }
  }

  lemma EndReady(next: seq<int>, holds: map<Tid, nat>, stage: map<Tid, Stage>, t: Tid)
    requires EndsReady(next, holds, stage) && t in holds && t in stage && stage[t] == Filled(false)
    ensures holds[t] < |next| && next[holds[t]] == NIL
  {}

  lemma HoldsLess(next: seq<int>, holds: map<Tid, nat>, stage: map<Tid, Stage>, t: Tid, n: nat, v: int)
    requires EndsReady(next, holds, stage) && n < |next| && t in holds
    requires n == holds[t] || forall u | u in holds :: holds[u] != n
    requires forall u | u in holds && u != t :: holds[u] != holds[t]
    ensures EndsReady(next[n := v], holds - {t}, stage - {t})
  {}

  lemma PoolAppend(max: nat, next: seq<int>, head: int, tail: int, free: int, queue: seq<nat>, freeList: seq<nat>,
                   holds: map<Tid, nat>, stage: map<Tid, Stage>, t: Tid)
    requires Pool(max, next, head, tail, free, queue, freeList, holds, stage) && t in holds && t in stage
    requires stage[t] == Filled(false)
    ensures var msg := holds[t];
            var head' := if head == NIL then msg else head;
            && (tail == NIL ==> Pool(max, next, head', msg, free, queue + [msg], freeList, holds - {t}, stage - {t}))
            && (tail != NIL ==>
                  && 0 <= tail < |next|
                  && Pool(max, next[tail := msg], head', msg, free, queue + [msg], freeList, holds - {t}, stage - {t}))
  {
    hide Chain, Parts, EndsReady, Distinct;
    HeldNode(max, queue, freeList, holds, t);
    var msg := holds[t];
    PoolEnds(max, next, head, tail, free, queue, freeList, holds, stage);
    assert InsertAt(queue, |queue|, msg) == queue + [msg];
    PartsIn(max, queue, |queue|, freeList, holds, t);
    EndReady(next, holds, stage, t);
    ChainAppend(next, head, queue, msg);
    if tail != NIL {
      assert tail in queue;
      ChainKeeps(next, free, freeList, tail, msg);
      HoldsLess(next, holds, stage, t, tail, msg);
    } else {
      assert [] + [msg] == [msg] && next[msg := NIL] == next;
      HoldsLess(next, holds, stage, t, msg, NIL);
    }
  }

  lemma PoolPrepend(max: nat, next: seq<int>, head: int, tail: int, free: int, queue: seq<nat>, freeList: seq<nat>,
                    holds: map<Tid, nat>, stage: map<Tid, Stage>, t: Tid)
    requires Pool(max, next, head, tail, free, queue, freeList, holds, stage) && t in holds && t in stage
    ensures var msg := holds[t];
            && msg < |next|
            && Pool(max, next[msg := head], msg, if tail == NIL then msg else tail, free, [msg] + queue, freeList,
                    holds - {t}, stage - {t})
  {
    hide Chain, Parts, EndsReady, Distinct;
    HeldNode(max, queue, freeList, holds, t);
    var msg := holds[t];
    PoolEnds(max, next, head, tail, free, queue, freeList, holds, stage);
    assert InsertAt(queue, 0, msg) == [msg] + queue;
    PartsIn(max, queue, 0, freeList, holds, t);
    ChainPush(next, head, queue, msg);
    ChainKeeps(next, free, freeList, msg, head);
    HoldsLess(next, holds, stage, t, msg, head);
  }

  lemma PoolUnlink(max: nat, next: seq<int>, head: int, tail: int, free: int, queue: seq<nat>, freeList: seq<nat>,
                   holds: map<Tid, nat>, stage: map<Tid, Stage>, t: Tid)
    requires Pool(max, next, head, tail, free, queue, freeList, holds, stage) && t !in holds && queue != []
    ensures head == queue[0] && queue[0] < |next|
    ensures Pool(max, next, next[queue[0]], if tail == head then NIL else tail, free, queue[1..], freeList,
                 holds[t := queue[0]], stage[t := Emptying])
  {
    PoolEnds(max, next, head, tail, free, queue, freeList, holds, stage);
    ChainPop(next, head, queue);
    PartsOut(max, queue, freeList, holds, t);
    hide Chain, Parts;
  }

  lemma PoolRelease(max: nat, next: seq<int>, head: int, tail: int, free: int, queue: seq<nat>, freeList: seq<nat>,
                    holds: map<Tid, nat>, stage: map<Tid, Stage>, t: Tid)
    requires Pool(max, next, head, tail, free, queue, freeList, holds, stage) && t in holds && t in stage
    ensures var msg := holds[t];
            && msg < |next|
            && Pool(max, next[msg := free], head, tail, msg, queue, [msg] + freeList, holds - {t}, stage - {t})
  {
    hide Chain, Parts, EndsReady, Distinct;
    HeldNode(max, queue, freeList, holds, t);
    var msg := holds[t];
    PartsSwap(max, queue, freeList, holds);
    assert InsertAt(freeList, 0, msg) == [msg] + freeList;
    PartsIn(max, freeList, 0, queue, holds, t);
    PartsSwap(max, [msg] + freeList, queue, holds - {t});
    ChainPush(next, free, freeList, msg);
    ChainKeeps(next, head, queue, msg, free);
    HoldsLess(next, holds, stage, t, msg, free);
  }

  /** One round of a reset: the first message of the queue is freed. */
  lemma PoolDrop(max: nat, next: seq<int>, head: int, tail: int, free: int, queue: seq<nat>, freeList: seq<nat>,
                 holds: map<Tid, nat>, stage: map<Tid, Stage>)
    requires Pool(max, next, head, tail, free, queue, freeList, holds, stage) && queue != []
    ensures head == queue[0] && queue[0] < |next|
    ensures Pool(max, next[queue[0] := free], next[queue[0]], if tail == head then NIL else tail, queue[0], queue[1..],
                 [queue[0]] + freeList, holds, stage)
  {
    var msg := queue[0];
    assert msg in queue;
    PoolEnds(max, next, head, tail, free, queue, freeList, holds, stage);
    ChainPop(next, head, queue);
    PartsMove(max, queue, freeList, holds);
    ChainKeeps(next, next[msg], queue[1..], msg, free);
    ChainPush(next, free, freeList, msg);
    var next' := next[msg := free];
    assert EndsReady(next', holds, stage);
    hide Chain, Parts;
  }

  lemma BodiesKept(body: seq<seq<Byte>>, queue: seq<nat>, n: nat, v: seq<Byte>)
    requires n < |body| && n !in queue && forall m | m in queue :: m < |body|
    ensures Bodies(body[n := v], queue) == Bodies(body, queue)
  {
    var body' := body[n := v];
    forall i | 0 <= i < |queue| ensures Bodies(body', queue)[i] == Bodies(body, queue)[i] {
      var m := queue[i];
      assert m in queue;
    }
  }

  lemma BodiesAdd(body: seq<seq<Byte>>, queue: seq<nat>, n: nat)
    requires n < |body| && forall m | m in queue :: m < |body|
    ensures forall m | m in queue + [n] :: m < |body|
    ensures forall m | m in [n] + queue :: m < |body|
    ensures Bodies(body, queue + [n]) == Bodies(body, queue) + [body[n]]
    ensures Bodies(body, [n] + queue) == [body[n]] + Bodies(body, queue)
  {}

  lemma BodiesFirst(body: seq<seq<Byte>>, queue: seq<nat>)
    requires forall m | m in queue :: m < |body|
    ensures |Bodies(body, queue)| == |queue|
    ensures queue != [] ==>
              && queue[0] < |body| && Bodies(body, queue)[0] == body[queue[0]]
              && (forall m | m in queue[1..] :: m < |body|) && Bodies(body, queue[1..]) == Bodies(body, queue)[1..]
  {
    if queue != [] {
      var n := queue[0];
      var rest := queue[1..];
      assert n in queue;
      forall m | m in rest ensures m < |body| {
        assert m in queue;
      }
      forall i | 0 <= i < |rest| ensures Bodies(body, rest)[i] == Bodies(body, queue)[i + 1] {
        assert rest[i] in queue && queue[i + 1] == rest[i];
      }
    }
  }

  lemma CarriedFill(body: seq<seq<Byte>>, size: nat, holds: map<Tid, nat>, stage: map<Tid, Stage>,
                    data: map<Tid, seq<Byte>>, t: Tid, urgent: bool, buffer: seq<Byte>)
    requires Carried(body, holds, stage, data) && Sized(body, size) && t in holds && t in stage && |buffer| <= size
    requires forall u | u in holds && u != t :: holds[u] != holds[t]
    ensures holds[t] < |body| && |body[holds[t]]| == size
    ensures var body' := body[holds[t] := buffer + body[holds[t]][|buffer|..]];
            Sized(body', size) && Carried(body', holds, stage[t := Filled(urgent)], data[t := buffer])
  {
    assert Carries(body, holds[t], stage[t], data[t]);
    var body' := body[holds[t] := buffer + body[holds[t]][|buffer|..]];
    var stage', data' := stage[t := Filled(urgent)], data[t := buffer];
    forall u | u in holds && u in stage' && u in data' ensures Carries(body', holds[u], stage'[u], data'[u]) {
      assert u != t ==> Carries(body, holds[u], stage[u], data[u]);
    }
  }

  /** The wait list while `mails` are queued, as for a mailbox; nobody is in two places. */
  ghost predicate Queueing(receivers: seq<Tid>, woken: set<Tid>, late: set<Tid>, limited: set<Tid>, busy: set<Tid>,
                           flag: Flag, prio: Prios, mails: nat, slack: nat)
  {
    && Waiting(receivers, flag, prio) && NoneLost(receivers, woken, mails, slack)
    && (forall t | t in receivers :: t !in woken && t !in late && t !in busy)
    && woken !! late && woken !! busy && late !! busy
    && (forall t | t in receivers || t in woken :: t in limited && t in prio)
  }

  class Queue {
    const maxMsgs: nat
    const msgSize: nat
    const flag: Flag
    const prio: Prios
    const next: array<int>
    const body: array<seq<Byte>>
    var head: int
    var tail: int
    var free: int
    var entry: nat
    var receivers: seq<Tid>
    var woken: set<Tid>              // resumed, and not yet running again
    var late: map<Tid, Status>       // resumed with an error
    var limit: map<Tid, int>
    var holds: map<Tid, nat>
    var stage: map<Tid, Stage>
    ghost var queue: seq<nat>
    ghost var freeList: seq<nat>
    ghost var data: map<Tid, seq<Byte>>

    ghost predicate Nodes()
      reads this`head, this`tail, this`free, this`entry, this`queue, this`freeList, this`holds, this`stage, next
    {
      && Pool(maxMsgs, next[..], head, tail, free, queue, freeList, holds, stage)
      && entry == |queue|
    }

    ghost predicate Texts()
      reads this`holds, this`stage, this`data, body
    {
      && body.Length == maxMsgs && Sized(body[..], msgSize)
      && Carried(body[..], holds, stage, data)
    }

    ghost predicate Lists(mails: nat, slack: nat)
      reads this`receivers, this`woken, this`late, this`limit, this`holds
    {
      Queueing(receivers, woken, late.Keys, limit.Keys, holds.Keys, flag, prio, mails, slack)
    }

    ghost predicate Sound(slack: nat) reads this, next, body {
      Nodes() && Texts() && Lists(entry, slack)
    }

    ghost predicate Valid() reads this, next, body {
      Sound(0)
    }

    ghost predicate Outside(t: Tid) reads this {
      t !in receivers && t !in woken && t !in late && t !in holds
    }

    ghost function Contents(): seq<seq<Byte>>
      reads this`queue, body
      requires forall n | n in queue :: n < body.Length
    {
      Bodies(body[..], queue)
    }

    lemma Unpack()
      requires Valid()
      ensures Pool(maxMsgs, next[..], head, tail, free, queue, freeList, holds, stage) && entry == |queue|
      ensures next.Length == maxMsgs == body.Length
      ensures Sized(body[..], msgSize) && Carried(body[..], holds, stage, data) && Lists(entry, 0)
      ensures holds.Keys == stage.Keys && holds.Keys <= data.Keys
      ensures forall n | n in queue :: n < body.Length
    {}

    lemma Pack()
      requires Pool(maxMsgs, next[..], head, tail, free, queue, freeList, holds, stage) && entry == |queue|
      requires body.Length == maxMsgs
      requires Sized(body[..], msgSize) && Carried(body[..], holds, stage, data)
      requires Queueing(receivers, woken, late.Keys, limit.Keys, holds.Keys, flag, prio, entry, 0)
      ensures Valid()
      ensures forall n | n in queue :: n < body.Length
    {}

    /** The counters and ends of the queue agree, and no wake-up is lost. */
    lemma Agreement()
      requires Valid()
      ensures entry == |queue| && |queue| + |freeList| + |holds| == maxMsgs
      ensures (head == NIL <==> tail == NIL) && (head == NIL <==> entry == 0)
      ensures receivers != [] && woken == {} ==> entry == 0
    {
      PoolEnds(maxMsgs, next[..], head, tail, free, queue, freeList, holds, stage);
    }

    constructor (links: array<int>, bodies: array<seq<Byte>>, wanted: u32, poolSize: u32, f: Flag, priorities: Prios)
      requires links.Length == bodies.Length == poolSize / (Align(wanted) % 0x10000 + 4) % 0x10000
      requires forall i | 0 <= i < bodies.Length :: |bodies[i]| == Align(wanted) % 0x10000
      modifies links
      ensures Valid() && queue == [] && maxMsgs == links.Length && msgSize == Align(wanted) % 0x10000
      ensures next == links && body == bodies && flag == f && prio == priorities && forall t :: Outside(t)
    {
      msgSize, maxMsgs := Align(wanted) % 0x10000, poolSize / (Align(wanted) % 0x10000 + 4) % 0x10000;
      flag, prio, next, body := f, priorities, links, bodies;
      head, tail, free, entry := NIL, NIL, NIL, 0;
      receivers, woken, late, limit, holds, stage := [], {}, map[], map[], map[], map[];
      queue, freeList, data := [], [], map[];
      new;
      var temp := 0;
      while temp < maxMsgs
        invariant temp <= maxMsgs && Chain(next[..], free, freeList) && Distinct(freeList) && |freeList| == temp
        invariant forall n: nat :: n in freeList <==> n < temp
        invariant head == NIL == tail && entry == 0 && queue == [] && holds == map[] && stage == map[] && data == map[]
        invariant receivers == [] && woken == {} && late == map[] && limit == map[]
      {
        ChainPush(next[..], free, freeList, temp);
        InsertKeeps(freeList, 0, temp);
        assert InsertAt(freeList, 0, temp) == [temp] + freeList;
        SetNext(temp, free);
        free := temp;
        freeList := [temp] + freeList;
        temp := temp + 1;
      }
    }

    method SetNext(n: nat, v: int)
      requires n < next.Length
      modifies next
      ensures next[..] == old(next[..])[n := v]
    {
      next[n] := v;
    }

    method SetBody(n: nat, v: seq<Byte>)
      requires n < body.Length
      modifies body
      ensures body[..] == old(body[..])[n := v]
    {
      body[n] := v;
    }

    /** First section of a send, urgent or not: takes a node from the free list. */
    method Claim(t: Tid, size: u32, urgent: bool) returns (r: Claim)
      requires Valid() && size != 0 && Outside(t)
      modifies this`free, this`freeList, this`holds, this`stage, this`data
      ensures Valid() && Contents() == old(Contents())
      ensures r == if size > msgSize then TooBig else if |queue| + |old(holds)| == maxMsgs then NoRoom else Claimed
      ensures r != Claimed ==>
        holds == old(holds) && stage == old(stage) && data == old(data) && freeList == old(freeList)
      ensures r == Claimed ==>
                && old(freeList) != [] && freeList == old(freeList)[1..] && holds == old(holds)[t := old(freeList)[0]]
                && stage == old(stage)[t := Claiming(urgent)] && data == old(data)[t := []]
    {
      hide *;
      Unpack();
      NotBusy(t);
      PoolEnds(maxMsgs, next[..], head, tail, free, queue, freeList, holds, stage);
      if size > msgSize {
        return TooBig;
      }
      var msg := free;
      if msg == NIL {
        return NoRoom;
      }
      PoolClaim(maxMsgs, next[..], head, tail, free, queue, freeList, holds, stage, t, urgent);
      ClaimSound(t, msg, urgent);
      free := next[msg];
      holds, stage := holds[t := msg], stage[t := Claiming(urgent)];
      freeList, data := freeList[1..], data[t := []];
      Pack();
      r := Claimed;
    }

    lemma ContentsAre()
      requires forall n | n in queue :: n < body.Length
      ensures Contents() == Bodies(body[..], queue)
    {}

    lemma NotBusy(t: Tid)
      requires Outside(t)
      ensures t !in holds
    {}

    lemma ClaimSound(t: Tid, n: nat, urgent: bool)
      requires Carried(body[..], holds, stage, data) && Lists(entry, 0) && Outside(t) && n < body.Length
      ensures Carried(body[..], holds[t := n], stage[t := Claiming(urgent)], data[t := []])
      ensures var h := holds[t := n];
              Queueing(receivers, woken, late.Keys, limit.Keys, h.Keys, flag, prio, entry, 0)
    {}

    /** Between the sections: fills the node, which nobody else sees. */
    method Fill(t: Tid, buffer: seq<Byte>)
      requires Valid() && t in stage && stage[t].Claiming? && 0 < |buffer| <= msgSize
      modifies next, body, this`stage, this`data
      ensures Valid() && Contents() == old(Contents())
      ensures t in old(stage) && stage == old(stage)[t := Filled(old(stage)[t].urgent)]
        && data == old(data)[t := buffer]
    {
      hide *;
      Unpack();
      HeldApart(t);
      ContentsAre();
      var msg := holds[t];
      var urgent := stage[t].urgent;
      var was := body[msg];
      PoolFill(maxMsgs, next[..], head, tail, free, queue, freeList, holds, stage, t, urgent);
      CarriedFill(body[..], msgSize, holds, stage, data, t, urgent, buffer);
      BodiesKept(body[..], queue, msg, buffer + was[|buffer|..]);
      if !urgent {
        SetNext(msg, NIL);
      }
      SetBody(msg, buffer + was[|buffer|..]);
      stage, data := stage[t := Filled(urgent)], data[t := buffer];
      Pack();
      ContentsAre();
    }

    lemma HeldApart(t: Tid)
      requires Valid() && (t in holds || t in stage)
      ensures t in holds && t in stage
      ensures holds[t] < maxMsgs && holds[t] !in queue && t in data && |body[holds[t]]| == msgSize
      ensures forall u | u in holds && u != t :: holds[u] != holds[t]
      ensures stage[t].Filled? ==> data[t] <= body[holds[t]]
      ensures stage[t].Emptying? ==> data[t] == body[holds[t]]
    {
      assert Carries(body[..], holds[t], stage[t], data[t]);
    }

    /** What stays true when a thread has put its node on a list. */
    lemma PutSound(t: Tid, mails: nat, slack: nat)
      requires Carried(body[..], holds, stage, data) && Lists(mails, slack)
      ensures Carried(body[..], holds - {t}, stage - {t}, data)
      ensures var h := holds - {t};
              Queueing(receivers, woken, late.Keys, limit.Keys, h.Keys, flag, prio, mails, slack)
              && (mails == entry ==> Queueing(receivers, woken, late.Keys, limit.Keys, h.Keys, flag, prio, mails + 1,
                slack + 1))
    {
      assert (holds - {t}).Keys == holds.Keys - {t};
    }

    /** All that a thread needs which is about to put its node on the queue. */
    lemma PutReady(t: Tid)
      requires Valid() && t in stage && stage[t].Filled?
      ensures Pool(maxMsgs, next[..], head, tail, free, queue, freeList, holds, stage) && entry == |queue|
      ensures next.Length == maxMsgs == body.Length && Sized(body[..], msgSize)
      ensures t in holds && holds[t] < body.Length && t in data && data[t] <= body[holds[t]]
      ensures Carried(body[..], holds - {t}, stage - {t}, data)
      ensures var h := holds - {t};
              Queueing(receivers, woken, late.Keys, limit.Keys, h.Keys, flag, prio, entry + 1, 1)
      ensures (forall n | n in queue + [holds[t]] :: n < body.Length)
        && (forall n | n in [holds[t]] + queue :: n < body.Length)
      ensures (forall n | n in queue :: n < body.Length)
      ensures Bodies(body[..], queue + [holds[t]]) == Contents() + [body[holds[t]]]
      ensures Bodies(body[..], [holds[t]] + queue) == [body[holds[t]]] + Contents()
    {
      hide *;
      Unpack();
      HeldApart(t);
      ContentsAre();
      PutSound(t, entry, 0);
      BodiesAdd(body[..], queue, holds[t]);
    }

    /** The parts make up `Valid`, and the queue holds the bodies of its nodes. */
    lemma Settle()
      requires Pool(maxMsgs, next[..], head, tail, free, queue, freeList, holds, stage) && entry == |queue|
      requires body.Length == maxMsgs
      requires Sized(body[..], msgSize) && Carried(body[..], holds, stage, data)
      requires Queueing(receivers, woken, late.Keys, limit.Keys, holds.Keys, flag, prio, entry, 0)
      ensures Valid() && (forall n | n in queue :: n < body.Length) && Contents() == Bodies(body[..], queue)
    {
      hide *;
      Pack();
      ContentsAre();
    }

    method LinkLast(t: Tid)
      requires Pool(maxMsgs, next[..], head, tail, free, queue, freeList, holds, stage) && next.Length == maxMsgs
      requires t in holds && t in stage && stage[t] == Filled(false)
      modifies next, this`head, this`tail, this`entry, this`queue, this`holds, this`stage
      ensures Pool(maxMsgs, next[..], head, tail, free, queue, freeList, holds, stage)
      ensures queue == old(queue) + [old(holds)[t]] && holds == old(holds) - {t} && stage == old(stage) - {t}
      ensures entry == old(entry) + 1
    {
      hide *;
      var msg := holds[t];
      PoolAppend(maxMsgs, next[..], head, tail, free, queue, freeList, holds, stage, t);
      if tail != NIL {
        SetNext(tail, msg);
      }
      tail := msg;
      if head == NIL {
        head := msg;
      }
      entry := entry + 1;
      queue := queue + [msg];
      holds, stage := holds - {t}, stage - {t};
    }

    method LinkFirst(t: Tid)
      requires Pool(maxMsgs, next[..], head, tail, free, queue, freeList, holds, stage) && next.Length == maxMsgs
      requires t in holds && t in stage
      modifies next, this`head, this`tail, this`entry, this`queue, this`holds, this`stage
      ensures Pool(maxMsgs, next[..], head, tail, free, queue, freeList, holds, stage)
      ensures queue == [old(holds)[t]] + old(queue) && holds == old(holds) - {t} && stage == old(stage) - {t}
      ensures entry == old(entry) + 1
    {
      hide *;
      var msg := holds[t];
      PoolPrepend(maxMsgs, next[..], head, tail, free, queue, freeList, holds, stage, t);
      SetNext(msg, head);
      head := msg;
      if tail == NIL {
        tail := msg;
      }
      entry := entry + 1;
      queue := [msg] + queue;
      holds, stage := holds - {t}, stage - {t};
    }

    /** Second section of rt_mq_send: the message goes behind the others. */
    method Append(t: Tid)
      requires Valid() && t in stage && stage[t] == Filled(false)
      modifies this, next
      ensures Valid() && holds == old(holds) - {t} && stage == old(stage) - {t}
      ensures t in old(data) && exists m :: Contents() == old(Contents()) + [m] && old(data)[t] <= m
      ensures data == old(data) && freeList == old(freeList) && limit == old(limit) && late == old(late)
      ensures FirstWoken(old(receivers), old(woken), receivers, woken)
    {
      hide *;
      PutReady(t);
      LinkLast(t);
      WakeReceiver();
      Settle();
    }

    /** Second section of rt_mq_urgent: the message goes in front of the others. */
    method Prepend(t: Tid)
      requires Valid() && t in stage && stage[t] == Filled(true)
      modifies this, next
      ensures Valid() && holds == old(holds) - {t} && stage == old(stage) - {t}
      ensures t in old(data) && exists m :: Contents() == [m] + old(Contents()) && old(data)[t] <= m
      ensures data == old(data) && freeList == old(freeList) && limit == old(limit) && late == old(late)
      ensures FirstWoken(old(receivers), old(woken), receivers, woken)
    {
      hide *;
      PutReady(t);
      LinkFirst(t);
      WakeReceiver();
      Settle();
    }

    /** What a receive does to threads and nodes. */
    twostate predicate ReceiveEffect(t: Tid, timeout: int, r: Taken) reads this {
      && late == old(late) && freeList == old(freeList)
      && match r
         case Unlinked =>
           && old(queue) != [] && holds == old(holds)[t := old(queue)[0]] && stage == old(stage)[t := Emptying]
           && receivers == old(receivers) && limit == old(limit)
         case Empty =>
           && holds == old(holds) && stage == old(stage) && data == old(data)
           && receivers == old(receivers) && limit == old(limit)
         case Waits =>
           && holds == old(holds) && stage == old(stage) && data == old(data) && limit == old(limit)[t := timeout]
           && exists k :: JoinsAt(old(receivers), prio, t, flag, k) && receivers == InsertAt(old(receivers), k, t)
    }

    /** The loop of a receive and its first section: takes the first message off the queue. */
    method Receive(t: Tid, timeout: int, ghost slack: nat) returns (r: Taken)
      requires Sound(slack) && slack <= 1 && Outside(t) && t in prio
      modifies this
      ensures Valid() && woken == old(woken)
      ensures old(Contents()) == [] ==> r == (if timeout == 0 then Empty else Waits) && Contents() == []
      ensures old(Contents()) != [] ==> r == Unlinked && Contents() == old(Contents())[1..]
      ensures r == Unlinked ==> data == old(data)[t := old(Contents())[0]]
      ensures ReceiveEffect(t, timeout, r)
    {
      hide Pool, Carried, Sized, Queueing, Bodies, JoinsAt, Nodes, Texts, Lists, Sound, Valid, Contents, Outside;
      UnpackSlack(slack);
      NotBusy(t);
      ContentsAre();
      PoolEnds(maxMsgs, next[..], head, tail, free, queue, freeList, holds, stage);
      BodiesFirst(body[..], queue);
      if entry == 0 {
        if timeout == 0 {
          Pack();
          return Empty;
        }
        ghost var k := Await(t, timeout);
        Pack();
        ContentsAre();
        return Waits;
      }
      TakeFirst(t, slack);
      r := Unlinked;
    }

    /** Takes the first message off the queue. */
    method TakeFirst(t: Tid, ghost slack: nat)
      requires Sound(slack) && slack <= 1 && entry > 0 && Outside(t)
      modifies this`head, this`tail, this`entry, this`queue, this`holds, this`stage, this`data
      ensures Valid() && old(Contents()) != [] && Contents() == old(Contents())[1..]
      ensures old(queue) != [] && holds == old(holds)[t := old(queue)[0]] && stage == old(stage)[t := Emptying]
      ensures data == old(data)[t := old(Contents())[0]]
    {
      hide *;
      UnpackSlack(slack);
      NotBusy(t);
      ContentsAre();
      BodiesFirst(body[..], queue);
      UnlinkSound(t, queue[0], slack);
      ghost var message := body[queue[0]];
      Unlink(t);
      data := data[t := message];
      Pack();
      ContentsAre();
    }

    method Unlink(t: Tid)
      requires Pool(maxMsgs, next[..], head, tail, free, queue, freeList, holds, stage) && next.Length == maxMsgs
      requires t !in holds && queue != [] && entry == |queue|
      modifies this`head, this`tail, this`entry, this`queue, this`holds, this`stage
      ensures Pool(maxMsgs, next[..], head, tail, free, queue, freeList, holds, stage) && entry == |queue|
      ensures queue == old(queue)[1..] && holds == old(holds)[t := old(queue)[0]] && stage == old(stage)[t := Emptying]
    {
      hide *;
      var msg := head;
      PoolUnlink(maxMsgs, next[..], head, tail, free, queue, freeList, holds, stage, t);
      head := next[msg];
      if tail == msg {
        tail := NIL;
      }
      entry := entry - 1;
      holds, stage := holds[t := msg], stage[t := Emptying];
      queue := queue[1..];
    }

    lemma UnpackSlack(slack: nat)
      requires Sound(slack) && slack <= 1
      ensures Pool(maxMsgs, next[..], head, tail, free, queue, freeList, holds, stage) && entry == |queue|
      ensures next.Length == maxMsgs == body.Length
      ensures Sized(body[..], msgSize) && Carried(body[..], holds, stage, data) && Lists(entry, slack)
      ensures entry == 0 ==>
        Lists(entry, 0) && Queueing(receivers, woken, late.Keys, limit.Keys, holds.Keys, flag, prio, entry, 0)
      ensures forall n | n in queue :: n < body.Length
    {}

    lemma UnlinkSound(t: Tid, n: nat, slack: nat)
      requires Carried(body[..], holds, stage, data) && Lists(entry, slack) && Outside(t) && n < body.Length
      requires entry > 0 && slack <= 1
      ensures Carried(body[..], holds[t := n], stage[t := Emptying], data[t := body[n]])
      ensures var h := holds[t := n];
              Queueing(receivers, woken, late.Keys, limit.Keys, h.Keys, flag, prio, entry - 1, 0)
    {}

    /** Waiting for a message. */
    method Await(t: Tid, timeout: int) returns (ghost k: nat)
      requires Lists(entry, 0) && entry == 0 && Outside(t) && t in prio
      modifies this`receivers, this`limit
      ensures Queueing(receivers, woken, late.Keys, limit.Keys, holds.Keys, flag, prio, entry, 0)
      ensures limit == old(limit)[t := timeout]
      ensures JoinsAt(old(receivers), prio, t, flag, k) && receivers == InsertAt(old(receivers), k, t)
    {
      limit := limit[t := timeout];
      ghost var list := receivers;
      receivers, k := Suspend(receivers, prio, t, flag);
      JoinsList(list, k, t, flag, prio);
    }

    /** A thread starts to receive. */
    method RecvEnter(t: Tid, timeout: int) returns (r: Taken)
      requires Valid() && Outside(t) && t in prio
      modifies this
      ensures Valid() && woken == old(woken) && ReceiveEffect(t, timeout, r)
      ensures old(Contents()) == [] ==> r == (if timeout == 0 then Empty else Waits) && Contents() == []
      ensures old(Contents()) != [] ==> r == Unlinked && Contents() == old(Contents())[1..]
      ensures r == Unlinked ==> data == old(data)[t := old(Contents())[0]]
    {
      r := Receive(t, timeout, 0);
    }

    /** A resumed receiver runs again, `elapsed` ticks after it went to sleep. */
    method RecvResume(t: Tid, elapsed: nat) returns (r: Taken)
      requires Valid() && t in woken
      modifies this
      ensures Valid() && woken == old(woken) - {t} && t in old(limit)
        && ReceiveEffect(t, TimeLeft(old(limit)[t], elapsed), r)
      ensures old(Contents()) == [] ==>
        r == (if TimeLeft(old(limit)[t], elapsed) == 0 then Empty else Waits) && Contents() == []
      // its time is up if it had a limit and that has passed; otherwise it waits for the rest
      ensures old(Contents()) == [] ==> (r == Empty <==> 0 <= old(limit)[t] <= elapsed)
      ensures r == Waits ==>
        t in limit && limit[t] == if old(limit)[t] < 0 then old(limit)[t] else old(limit)[t] - elapsed
      ensures old(Contents()) != [] ==> r == Unlinked && Contents() == old(Contents())[1..]
      ensures r == Unlinked ==> data == old(data)[t := old(Contents())[0]]
    {
      hide Nodes, Texts, Pool, Sized, Carried, Bodies, Distinct, JoinsAt, InsertAt;
      woken := woken - {t};
      r := Receive(t, TimeLeft(limit[t], elapsed), 1);
    }

    method PutBack(t: Tid)
      requires Pool(maxMsgs, next[..], head, tail, free, queue, freeList, holds, stage) && next.Length == maxMsgs
      requires t in holds && t in stage
      modifies next, this`free, this`freeList, this`holds, this`stage
      ensures Pool(maxMsgs, next[..], head, tail, free, queue, freeList, holds, stage)
      ensures freeList == [old(holds)[t]] + old(freeList) && holds == old(holds) - {t} && stage == old(stage) - {t}
    {
      hide *;
      var msg := holds[t];
      PoolRelease(maxMsgs, next[..], head, tail, free, queue, freeList, holds, stage, t);
      SetNext(msg, free);
      free := msg;
      freeList := [msg] + freeList;
      holds, stage := holds - {t}, stage - {t};
    }

    /** The rest of a receive: copies the message out, up to the size of the buffer, and
        gives the node back. */
    method Release(t: Tid, size: u32) returns (buffer: seq<Byte>)
      requires Valid() && size != 0 && t in stage && stage[t] == Emptying
      modifies next, this`free, this`freeList, this`holds, this`stage
      ensures Valid() && Contents() == old(Contents()) && t in data
      ensures |data[t]| == msgSize && buffer == data[t][..if size > msgSize then msgSize else size]
      ensures t in old(holds) && freeList == [old(holds)[t]] + old(freeList)
      ensures holds == old(holds) - {t} && stage == old(stage) - {t}
    {
      hide *;
      Unpack();
      HeldApart(t);
      ContentsAre();
      var msg := holds[t];
      buffer := body[msg][..if size > msgSize then msgSize else size];
      PutSound(t, entry, 0);
      PutBack(t);
      Pack();
      ContentsAre();
    }

    /** The timer of a waiting receiver runs out. */
    method Timeout(t: Tid)
      requires Valid() && t in receivers
      modifies this`receivers, this`late
      ensures Valid() && Contents() == old(Contents()) && late == old(late)[t := TimedOut]
      ensures receivers == Without(old(receivers), Position(old(receivers), t))
    {
      var k := Position(receivers, t);
      LeavesList(receivers, k, flag, prio);
      receivers := Without(receivers, k);
      late := late[t := TimedOut];
    }

    /** A thread resumed with an error runs again: its call returns it. */
    method GiveUp(t: Tid) returns (status: Status)
      requires Valid() && t in late
      modifies this`late
      ensures Valid() && Contents() == old(Contents()) && status == old(late)[t] && late == old(late) - {t}
    {
      status := late[t];
      late := late - {t};
    }

    /** A reset: everybody who waits goes with an error and every queued message is freed.
        Nodes in transit are not touched. */
    method Reset()
      requires Valid()
      modifies this, next
      ensures Valid() && Contents() == [] && receivers == [] && |freeList| == |old(queue)| + |old(freeList)|
      ensures holds == old(holds) && stage == old(stage) && data == old(data) && woken == old(woken)
        && limit == old(limit)
      ensures forall t | t in old(late) :: t in late && late[t] == old(late)[t]
      ensures forall t | t in old(receivers) :: t in late && late[t] == Failed
    {
      hide *;
      Unpack();
      SendAway();
      EmptyQueue();
      entry := 0;
      Pack();
      ContentsAre();
      BodiesFirst(body[..], queue);
    }

    /** rt_ipc_list_resume_all. */
    method SendAway()
      requires Lists(entry, 0)
      modifies this`receivers, this`late
      ensures Queueing([], woken, late.Keys, limit.Keys, holds.Keys, flag, prio, 0, 0) && receivers == []
      ensures forall t | t in old(receivers) :: t in late && late[t] == Failed
      ensures forall t | t in old(late) :: t in late && late[t] == old(late)[t]
    {
      while receivers != []
        invariant Lists(entry, 0)
        invariant forall t | t in old(receivers) :: t in receivers || (t in late && late[t] == Failed)
        invariant forall t | t in old(late) :: t in late && late[t] == old(late)[t]
        decreases |receivers|
      {
        var t := receivers[0];
        assert receivers == [t] + receivers[1..];
        LeavesList(receivers, 0, flag, prio);
        assert Without(receivers, 0) == receivers[1..];
        late := late[t := Failed];
        receivers := receivers[1..];
      }
    }

    method EmptyQueue()
      requires Pool(maxMsgs, next[..], head, tail, free, queue, freeList, holds, stage) && next.Length == maxMsgs
      modifies next, this`head, this`tail, this`free, this`queue, this`freeList
      ensures Pool(maxMsgs, next[..], head, tail, free, queue, freeList, holds, stage) && queue == []
      ensures |freeList| == |old(queue)| + |old(freeList)|
    {
      hide *;
      PoolEnds(maxMsgs, next[..], head, tail, free, queue, freeList, holds, stage);
      while head != NIL
        invariant Pool(maxMsgs, next[..], head, tail, free, queue, freeList, holds, stage)
        invariant head == NIL <==> queue == []
        invariant |queue| + |freeList| == |old(queue)| + |old(freeList)|
        decreases |queue|
      {
        var msg := head;
        PoolDrop(maxMsgs, next[..], head, tail, free, queue, freeList, holds, stage);
        head := next[msg];
        if tail == msg {
          tail := NIL;
        }
        SetNext(msg, free);
        free := msg;
        queue, freeList := queue[1..], [queue[0]] + freeList;
        PoolEnds(maxMsgs, next[..], head, tail, free, queue, freeList, holds, stage);
      }
    }

    /** Resumes the first receiver, if one waits, for the message that has come. */
    method WakeReceiver()
      requires Queueing(receivers, woken, late.Keys, limit.Keys, holds.Keys, flag, prio, entry, 1)
      modifies this`receivers, this`woken
      ensures Queueing(receivers, woken, late.Keys, limit.Keys, holds.Keys, flag, prio, entry, 0)
      ensures FirstWoken(old(receivers), old(woken), receivers, woken)
    {
      if receivers != [] {
        var s := receivers[0];
        assert s in receivers;
        Wakes(receivers, woken, entry - 1, 0, flag, prio);
        receivers := receivers[1..];
        woken := woken + {s};
      }
    }
  }
}
