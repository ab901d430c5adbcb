/** One mutex with priority inheritance. Threads take no other mutex meanwhile, and nothing
    else changes their priorities. */
module Mutex {
  import opened Lists
  import opened WaitList
  import opened Machine

  const NO_PRIORITY: nat := 0xff
  const MOST_HOLDS: nat := 0xff

  datatype Taken = Ours | TimedOut | Waits

  /** The owner is at least as urgent as everybody who waits for it. */
  ghost predicate Boosted(prio: Prios, owner: Option<Tid>, waiters: seq<Tid>) {
    owner.Some? ==> forall t | t in waiters && t in prio && owner.value in prio :: prio[owner.value] <= prio[t]
  }

  /** The thread at the head is nobody's obstacle. */
  ghost predicate HeadMostUrgent(base: Prios, waiters: seq<Tid>) {
    waiters != [] ==> forall t | t in waiters && t in base && waiters[0] in base :: base[waiters[0]] <= base[t]
  }

  /** Under the priority flag the head of the list is the most urgent thread. */
  lemma TurnsByPriority(waiters: seq<Tid>, base: Prios, arrival: map<Tid, nat>)
    requires InTurn(waiters, base, arrival, Prio)
    ensures HeadMostUrgent(base, waiters)
  {
    forall t | t in waiters && t in base && waiters[0] in base ensures base[waiters[0]] <= base[t] {
      var i :| 0 <= i < |waiters| && waiters[i] == t;
      assert i > 0 ==> Before(waiters[0], waiters[i], base, arrival, Prio);
    }
  }

  /** Handing the mutex to the head of the list keeps the new owner urgent enough if and only
      if the head is the most urgent waiter. */
  lemma HandOffBoosts(prio: Prios, waiters: seq<Tid>)
    requires waiters != [] && Known(waiters, prio)
    ensures Boosted(prio, Some(waiters[0]), waiters[1..]) <==> HeadMostUrgent(prio, waiters)
  {
    assert waiters == [waiters[0]] + waiters[1..];
    assert waiters[0] in waiters;
  }

  /** The state between calls, all but the inheritance. */
  ghost predicate Sound(flag: Flag, base: Prios, prio: Prios, value: nat, owner: Option<Tid>, hold: nat, original: nat,
                        waiters: seq<Tid>, resumed: set<Tid>, late: set<Tid>, arrival: map<Tid, nat>, clock: nat)
  {
    && base.Keys == prio.Keys
    && (forall t | t in prio && owner != Some(t) :: prio[t] == base[t])
    && (owner.None? ==> value == 1 && hold == 0 && waiters == [] && original == NO_PRIORITY)
    && (owner.Some? ==>
          && value == 0 && 0 < hold <= MOST_HOLDS
          && var o := owner.value;
             o in prio && original == base[o] && prio[o] <= base[o] && o !in waiters && o !in late)
    && Distinct(waiters) && Known(waiters, prio)
    && (forall t | t in waiters :: t in arrival && arrival[t] < clock && t !in late)
    && InTurn(waiters, base, arrival, flag)
    && (forall t | t in resumed :: owner == Some(t) && hold == 1)
    && late <= prio.Keys
  }

  /** The priorities once `o` has inherited that of `t`, if that is more urgent. */
  function Inherit(prio: Prios, o: Tid, t: Tid): Prios
    requires o in prio && t in prio
  {
    if prio[t] < prio[o] then prio[o := prio[t]] else prio
  }

  /** The owner's priority is exactly the most urgent among its own and those of the threads that came to wait
      since it got the mutex. */
  ghost predicate Inherited(base: Prios, prio: Prios, owner: Option<Tid>, urged: set<Tid>) {
    owner.Some? ==>
      var o := owner.value;
      && o in prio && o in base && urged <= base.Keys
      && prio[o] <= base[o] && (forall u | u in urged :: prio[o] <= base[u])
      && (prio[o] == base[o] || exists u :: u in urged && prio[o] == base[u])
  }

  lemma InheritedWait(base: Prios, prio: Prios, owner: Option<Tid>, urged: set<Tid>, t: Tid)
    requires Inherited(base, prio, owner, urged) && owner.Some? && owner.value in prio
    requires t in prio && t in base && prio[t] == base[t]
    ensures Inherited(base, Inherit(prio, owner.value, t), owner, urged + {t})
  {
    var o := owner.value;
    if u :| u in urged && prio[o] == base[u] { assert u in urged + {t}; }
    assert t in urged + {t};
  }

  lemma InheritedNone(base: Prios, prio: Prios, urged: set<Tid>)
    ensures Inherited(base, prio, None, urged)
  {}

  /** A new owner has its own priority. */
  lemma InheritedFresh(base: Prios, prio: Prios, o: Tid)
    requires o in prio && o in base && prio[o] == base[o]
    ensures Inherited(base, prio, Some(o), {})
  {}

  /** In numbers: the owner gets the lesser of the two priorities, and nobody else's changes. */
  lemma InheritIsLesser(prio: Prios, o: Tid, t: Tid)
    requires o in prio && t in prio
    ensures var r := Inherit(prio, o, t);
      && r.Keys == prio.Keys && r[o] <= prio[o] && r[o] <= prio[t] && (r[o] == prio[o] || r[o] == prio[t])
      && forall x | x in prio && x != o :: r[x] == prio[x]
  {}

  lemma PutSame(prio: Prios, t: Tid)
    requires t in prio
    ensures prio[t := prio[t]] == prio
  {}

  /** A thread waits; the owner gets its priority if that is more urgent. */
  lemma SoundWait(flag: Flag, base: Prios, prio: Prios, value: nat, owner: Option<Tid>, hold: nat, original: nat,
                  waiters: seq<Tid>, resumed: set<Tid>, late: set<Tid>, arrival: map<Tid, nat>, clock: nat, t: Tid,
                  prio': Prios, k: nat)
    requires Sound(flag, base, prio, value, owner, hold, original, waiters, resumed, late, arrival, clock)
    requires owner.Some? && owner != Some(t) && t in prio && t !in waiters && t !in late
    requires owner.value in prio && prio' == Inherit(prio, owner.value, t)
    requires JoinsAt(waiters, prio', t, flag, k)
    ensures Sound(flag, base, prio', value, owner, hold, original, InsertAt(waiters, k, t), resumed, late,
                  arrival[t := clock], clock + 1)
    ensures Boosted(prio, owner, waiters) ==> Boosted(prio', owner, InsertAt(waiters, k, t))
  {
    InsertKeeps(waiters, k, t);
    forall x | x in waiters ensures x in prio && prio'[x] == base[x] {}
    forall i | 0 <= i < |waiters| ensures waiters[i] in prio && prio'[waiters[i]] == base[waiters[i]] {
      assert waiters[i] in waiters;
    }
    assert JoinsAt(waiters, base, t, flag, k);
    InsertInTurn(waiters, base, arrival, flag, t, k, clock);
  }

  /** A waiter leaves the list on its own. */
  lemma SoundLeave(flag: Flag, base: Prios, prio: Prios, value: nat, owner: Option<Tid>, hold: nat, original: nat,
                   waiters: seq<Tid>, resumed: set<Tid>, late: set<Tid>, arrival: map<Tid, nat>, clock: nat, k: nat)
    requires Sound(flag, base, prio, value, owner, hold, original, waiters, resumed, late, arrival, clock)
    requires k < |waiters|
    ensures Sound(flag, base, prio, value, owner, hold, original, Without(waiters, k), resumed, late + {waiters[k]},
                  arrival, clock)
    ensures Boosted(prio, owner, waiters) ==> Boosted(prio, owner, Without(waiters, k))
  {
    var t := waiters[k];
    assert t in waiters;
    WithoutKeeps(waiters, k);
    WithoutInTurn(waiters, base, arrival, flag, k);
  }

  /** The owner lets go for good, is back at its own priority, and the first waiter owns the
      mutex. */
  lemma SoundHandOff(flag: Flag, base: Prios, prio: Prios, owner: Option<Tid>, original: nat, waiters: seq<Tid>,
                     late: set<Tid>, arrival: map<Tid, nat>, clock: nat)
    requires Sound(flag, base, prio, 0, owner, 1, original, waiters, {}, late, arrival, clock) && owner.Some?
    requires waiters != []
    ensures var h, prio' := waiters[0], prio[owner.value := original];
            && h in prio' && prio'[h] == base[h]
            && Sound(flag, base, prio', 0, Some(h), 1, prio'[h], waiters[1..], {h}, late, arrival, clock)
            && (Boosted(prio', Some(h), waiters[1..]) <==> HeadMostUrgent(base, waiters))
            && (flag.Prio? ==> HeadMostUrgent(base, waiters))
  {
    hide InTurn, Distinct, Boosted, HeadMostUrgent;
    var h := waiters[0];
    var prio' := prio[owner.value := original];
    assert h in waiters;
    WithoutKeeps(waiters, 0);
    assert Without(waiters, 0) == waiters[1..];
    WithoutInTurn(waiters, base, arrival, flag, 0);
    if flag.Prio? { TurnsByPriority(waiters, base, arrival); }
    assert forall t | t in waiters :: t in prio' && prio'[t] == base[t];
    SameUrgency(prio', base, waiters);
    HandOffBoosts(prio', waiters);
  }

  lemma SameUrgency(prio: Prios, base: Prios, waiters: seq<Tid>)
    requires forall t | t in waiters :: t in prio && t in base && prio[t] == base[t]
    ensures HeadMostUrgent(prio, waiters) <==> HeadMostUrgent(base, waiters)
  {
    if waiters != [] { assert waiters[0] in waiters; }
  }

  /** The owner lets go for good and nobody waits. */
  lemma SoundFree(flag: Flag, base: Prios, prio: Prios, owner: Option<Tid>, original: nat, late: set<Tid>,
                  arrival: map<Tid, nat>, clock: nat)
    requires Sound(flag, base, prio, 0, owner, 1, original, [], {}, late, arrival, clock) && owner.Some?
    ensures var prio' := prio[owner.value := original];
      Sound(flag, base, prio', 1, None, 0, NO_PRIORITY, [], {}, late, arrival, clock) && Boosted(prio', None, [])
  {}

  class Lock {
    const flag: Flag
    const base: Prios              // the threads' own priorities
    var prio: Prios                // their current ones
    var value: nat
    var owner: Option<Tid>
    var hold: nat
    var original: nat
    var waiters: seq<Tid>
    var resumed: set<Tid>          // given the mutex, and not yet running again
    var late: set<Tid>             // resumed by their timer
    ghost var arrival: map<Tid, nat>
    ghost var clock: nat
    ghost var urged: set<Tid>      // those who came to wait since the owner got the mutex

    ghost predicate SoundNow() reads this {
      Sound(flag, base, prio, value, owner, hold, original, waiters, resumed, late, arrival, clock)
    }

    ghost predicate BoostedNow() reads this {
      Boosted(prio, owner, waiters)
    }

    /** The invariant. Without the priority flag the inheritance is not part of it. */
    ghost predicate Valid() reads this {
      SoundNow() && (flag.Prio? ==> BoostedNow()) && Inherited(base, prio, owner, urged)
    }

    ghost predicate Running(t: Tid) reads this {
      t in prio && t !in waiters && t !in resumed && t !in late
    }

    /** The books agree: free, or owned by one thread that has its own priority on record. */
    lemma Agreement()
      requires Valid()
      ensures (value == 1) == owner.None? == (hold == 0)
      ensures value == 1 || value == 0
      ensures waiters != [] ==> owner.Some?
      ensures flag.Prio? && owner.Some? ==> forall t | t in waiters :: t in prio && prio[owner.value] <= prio[t]
      ensures forall t | t in prio && owner != Some(t) :: t in base && prio[t] == base[t]
      // what the owner inherited is the priority of somebody who came to wait meanwhile, and of nobody less urgent
      ensures owner.Some? ==>
        var o := owner.value;
        && o in prio && o in base && urged <= base.Keys
        && prio[o] <= base[o] && (forall u | u in urged :: prio[o] <= base[u])
        && (prio[o] == base[o] || exists u :: u in urged && prio[o] == base[u])
    {}

    constructor (f: Flag, priorities: Prios)
      ensures Valid() && owner == None && prio == base == priorities && flag == f
      ensures waiters == [] && resumed == {} && late == {} && hold == 0 && forall t | t in prio :: Running(t)
    {
      flag, base, prio := f, priorities, priorities;
      value, owner, hold, original := 1, None, 0, NO_PRIORITY;
      waiters, resumed, late, arrival, clock, urged := [], {}, {}, map[], 0, {};
    }

    /** What a running thread can see. */
    lemma Unpack(t: Tid)
      requires Valid() && Running(t)
      ensures SoundNow() && Sound(flag, base, prio, value, owner, hold, original, waiters, resumed, late,
        arrival, clock)
      ensures if owner.None? then value == 1 && waiters == [] && hold == 0
              else value == 0 && hold > 0 && owner.value in prio
      ensures Known(waiters, prio) && t in prio && t in base && t !in waiters && t !in late && t !in resumed
      ensures flag.Prio? ==> BoostedNow()
      ensures BoostedNow() <==> Boosted(prio, owner, waiters)
      ensures Inherited(base, prio, owner, urged) && (owner != Some(t) ==> prio[t] == base[t])
      ensures owner == Some(t) ==> resumed == {} && original == base[t]
    {}

    lemma Pack()
      requires Sound(flag, base, prio, value, owner, hold, original, waiters, resumed, late, arrival, clock)
      requires (flag.Prio? ==> Boosted(prio, owner, waiters)) && Inherited(base, prio, owner, urged)
      ensures Valid()
      ensures BoostedNow() <==> Boosted(prio, owner, waiters)
    {}

    /** A take by the owner, or of a free mutex. */
    lemma SoundTake(t: Tid)
      requires SoundNow() && Running(t) && (owner == Some(t) ==> hold < MOST_HOLDS)
      ensures owner == Some(t) ==>
                Sound(flag, base, prio, value, owner, hold + 1, original, waiters, resumed, late, arrival, clock)
      ensures owner == None ==>
                && waiters == []
                && Sound(flag, base, prio, 0, Some(t), 1, prio[t], waiters, resumed, late, arrival, clock)
                && Boosted(prio, Some(t), waiters)
    {}

    /** A thread takes the mutex, again, for the first time, or not yet. */
    method Take(t: Tid, timeout: int) returns (r: Taken)
      requires Valid() && Running(t) && (owner == Some(t) ==> hold < MOST_HOLDS)
      modifies this
      ensures Valid() && resumed == old(resumed) && late == old(late)
      ensures r == Ours <==> old(owner) == None || old(owner) == Some(t)
      ensures r == Ours ==>
                && owner == Some(t) && hold == old(hold) + 1 && prio == old(prio) && waiters == old(waiters)
                && original == (if old(owner) == None then old(prio)[t] else old(original))
      ensures r == TimedOut ==> timeout == 0 && prio == old(prio) && waiters == old(waiters)
      // the owner gets the lesser of the two priorities, and nobody else's changes
      ensures r == Waits ==>
                && timeout != 0 && owner.Some? && owner.value in old(prio) && owner.value in prio
                && var o := owner.value;
                   && prio[o] <= old(prio)[o] && prio[o] <= old(prio)[t]
                   && (prio[o] == old(prio)[o] || prio[o] == old(prio)[t])
                   && prio == old(prio)[o := prio[o]] && urged == old(urged) + {t}
      ensures r == Ours ==> urged == if old(owner) == None then {} else old(urged)
      ensures r == Waits ==>
                && exists k :: JoinsAt(old(waiters), prio, t, flag, k) && waiters == InsertAt(old(waiters), k, t)
      ensures r != Ours ==> owner == old(owner) && hold == old(hold) && original == old(original)
      ensures old(BoostedNow()) ==> BoostedNow()
    {
      hide *;
      Unpack(t);
      SoundTake(t);
      if owner == Some(t) {
        hold := hold + 1;
        Pack();
        return Ours;
      }
      if value > 0 {
        value := value - 1;
        owner := Some(t);
        original := prio[t];
        hold := hold + 1;
        urged := {};
        InheritedFresh(base, prio, t);
        Pack();
        return Ours;
      }
      if timeout == 0 {
        return TimedOut;
      }
      InheritIsLesser(prio, owner.value, t);
      ghost var k := Await(t);
      r := Waits;
    }

    method Await(t: Tid) returns (ghost k: nat)
      requires Valid() && Running(t) && owner.Some? && owner != Some(t)
      modifies this`prio, this`waiters, this`arrival, this`clock, this`urged
      ensures Valid() && owner.value in old(prio) && prio == Inherit(old(prio), owner.value, t)
      ensures urged == old(urged) + {t}
      ensures JoinsAt(old(waiters), prio, t, flag, k) && waiters == InsertAt(old(waiters), k, t)
      ensures old(BoostedNow()) ==> BoostedNow()
    {
      hide Sound, Boosted, JoinsAt, Inherited, InsertAt, Known, Valid, SoundNow, BoostedNow, Running;
      Unpack(t);
      InheritedWait(base, prio, owner, urged, t);
      var o := owner.value;
      ghost var prio0, list := prio, waiters;
      if prio[t] < prio[o] {
        prio := prio[o := prio[t]];
      }
      waiters, k := Suspend(waiters, prio, t, flag);
      SoundWait(flag, base, prio0, value, owner, hold, original, list, resumed, late, arrival, clock, t, prio, k);
      arrival, clock, urged := arrival[t := clock], clock + 1, urged + {t};
      Pack();
    }

    /** The owner undoes one take. With the last one it gets its own priority back, and the
        first waiter gets the mutex. Under any flag the new owner is as urgent as those still
        waiting if and only if it was the most urgent waiter. */
    method Release(t: Tid) returns (ok: bool)
      requires Valid() && Running(t)
      modifies this
      ensures Valid() && ok == (old(owner) == Some(t)) && late == old(late)
      ensures !ok || old(hold) > 1 || old(waiters) == [] ==> resumed == old(resumed)
      ensures !ok ==>
                && prio == old(prio) && owner == old(owner) && hold == old(hold) && waiters == old(waiters)
                && original == old(original)
      ensures ok && old(hold) > 1 ==>
                && owner == old(owner) && hold == old(hold) - 1 && prio == old(prio) && waiters == old(waiters)
                && original == old(original)
      ensures ok && old(hold) == 1 ==> t in base && prio == old(prio)[t := base[t]]
      ensures ok && old(hold) == 1 && old(waiters) == [] ==> owner == None && waiters == []
      ensures ok && old(hold) == 1 && old(waiters) != [] ==>
                && owner == Some(old(waiters)[0]) && hold == 1 && waiters == old(waiters)[1..]
                && resumed == {old(waiters)[0]} && urged == {}
                && (BoostedNow() <==> HeadMostUrgent(base, old(waiters)))
    {
      hide *;
      Unpack(t);
      if Some(t) != owner {
        return false;
      }
      if hold > 1 {
        SoundLess();
        hold := hold - 1;
        Pack();
        return true;
      }
      LetGo(t);
      ok := true;
    }

    /** The last release. */
    method LetGo(t: Tid)
      requires SoundNow() && owner == Some(t) && hold == 1 && resumed == {} && t in prio && value == 0
      modifies this
      ensures Valid() && late == old(late) && t in base && prio == old(prio)[t := old(original)]
      ensures old(waiters) == [] ==> owner == None && waiters == [] && resumed == {}
      ensures old(waiters) != [] ==>
                && owner == Some(old(waiters)[0]) && hold == 1 && waiters == old(waiters)[1..]
                && resumed == {old(waiters)[0]} && urged == {}
                && (BoostedNow() <==> HeadMostUrgent(base, old(waiters)))
    {
      hide *;
      LastHold();
      ghost var p0, q0 := prio, original;
      hold := hold - 1;
      if original != prio[t] {
        prio := prio[t := original];
      }
      PutSame(p0, t);
      if waiters != [] {
        HandOver(p0);
      } else {
        SoundFree(flag, base, p0, owner, q0, late, arrival, clock);
        value := value + 1;
        owner := None;
        original := NO_PRIORITY;
        InheritedNone(base, prio, urged);
        Pack();
      }
    }

    /** The first waiter gets the mutex from the owner, whose priority is its own again; it was `p0` before. */
    method HandOver(ghost p0: Prios)
      requires Sound(flag, base, p0, 0, owner, 1, original, waiters, {}, late, arrival, clock) && owner.Some?
      requires prio == p0[owner.value := original] && waiters != [] && hold == 0 && value == 0 && resumed == {}
      modifies this`owner, this`original, this`hold, this`waiters, this`resumed, this`urged
      ensures Valid() && owner == Some(old(waiters)[0]) && hold == 1 && waiters == old(waiters)[1..]
      ensures resumed == {old(waiters)[0]} && urged == {} && (BoostedNow() <==> HeadMostUrgent(base, old(waiters)))
    {
      hide *;
      SoundHandOff(flag, base, p0, owner, original, waiters, late, arrival, clock);
      var h := waiters[0];
      owner := Some(h);
      original := prio[h];
      hold := hold + 1;
      waiters := waiters[1..];
      resumed := resumed + {h};
      assert resumed == {h};
      urged := {};
      OwnAgain(h);
      InheritedFresh(base, prio, h);
      Pack();
    }

    lemma OwnAgain(h: Tid)
      requires h in prio
      requires Sound(flag, base, prio, value, Some(h), hold, prio[h], waiters, resumed, late, arrival, clock)
      ensures h in base && prio[h] == base[h]
    {}

    lemma LastHold()
      requires SoundNow() && owner.Some? && hold == 1 && resumed == {} && value == 0
      ensures Sound(flag, base, prio, 0, owner, 1, original, waiters, {}, late, arrival, clock) && owner.value in base
    {}

    lemma SoundLess()
      requires SoundNow() && hold > 1
      ensures Sound(flag, base, prio, value, owner, hold - 1, original, waiters, resumed, late, arrival, clock)
    {}

    /** A thread that was given the mutex runs again: it is the owner. */
    method Resume(t: Tid)
      requires Valid() && t in resumed
      modifies this`resumed
      ensures Valid() && Running(t) && owner == Some(t) && hold == 1 && resumed == old(resumed) - {t}
    {
      resumed := resumed - {t};
    }

    /** The timer of a waiting thread runs out. The owner keeps the priority it has. */
    method Timeout(t: Tid)
      requires Valid() && t in waiters
      modifies this`waiters, this`late
      ensures Valid() && waiters == Without(old(waiters), Position(old(waiters), t)) && late == old(late) + {t}
      ensures old(BoostedNow()) ==> BoostedNow()
    {
      var k := Position(waiters, t);
      SoundLeave(flag, base, prio, value, owner, hold, original, waiters, resumed, late, arrival, clock, k);
      waiters := Without(waiters, k);
      late := late + {t};
    }

    /** A thread whose timer ran out runs again: its take fails. */
    method GiveUp(t: Tid)
      requires Valid() && t in late
      modifies this`late
      ensures Valid() && Running(t) && owner != Some(t) && late == old(late) - {t}
    {
      late := late - {t};
    }
  }

  /** Without the priority flag: threads of priority 20, 15 and 5 take the mutex in this
      order, the first releases it, and the urgent thread waits for one of priority 15. */
  method FifoLosesInheritance() returns (m: Lock)
    ensures fresh(m) && m.Valid() && m.flag == Fifo && !m.BoostedNow()
    ensures m.owner == Some(1) && m.waiters == [2] && m.prio == map[0 := 20, 1 := 15, 2 := 5]
  {
    hide Sound, InTurn, Boosted, HeadMostUrgent;
    m := new Lock(Fifo, map[0 := 20, 1 := 15, 2 := 5]);
    var first := m.Take(0, -1);
    var second := m.Take(1, -1);
    assert m.waiters == [1];
    var third := m.Take(2, -1);
    assert m.waiters == [1, 2];
    var released := m.Release(0);
    assert m.prio == map[0 := 20, 1 := 15, 2 := 5];
    NotFirst(m.prio, [1, 2]);
  }

  lemma NotFirst(base: Prios, waiters: seq<Tid>)
    requires |waiters| == 2 && waiters[0] in base && waiters[1] in base && base[waiters[1]] < base[waiters[0]]
    ensures !HeadMostUrgent(base, waiters)
  {
    assert waiters[1] in waiters;
  }
}
