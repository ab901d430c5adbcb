/** Mailboxes: a bounded ring of words with waiting receivers and waiting senders. Each
    method is one section of a thread's code that runs with interrupts disabled. */
module Mailbox {
  import opened Lists
  import opened WaitList
  import opened Machine

  type Mail = m: int | 0 <= m < WORD

  datatype Received = Got(mail: Mail) | Empty | RecvWaits     // Empty: -RT_ETIMEOUT
  datatype Posted = Sent | Full | SendWaits                  // Full: -RT_EFULL

  /** The slot `i` places after `out` in a ring of `size`. */
  function Slot(out: nat, i: nat, size: nat): nat
    requires i <= size && out < size
  {
    if out + i < size then out + i else out + i - size
  }

  ghost predicate RingOk(size: nat, entry: nat, input: nat, out: nat) {
    && entry <= size
    && (size == 0 ==> input == 0 && out == 0)
    && (size > 0 ==> out < size && input == Slot(out, entry, size))
  }

  /** The mails in a ring, oldest first. */
  ghost function Stored(pool: seq<Mail>, size: nat, out: nat, entry: nat): seq<Mail>
    requires entry <= size <= |pool| && (size > 0 ==> out < size)
  {
    seq(entry, i requires 0 <= i < entry => pool[Slot(out, i, size)])
  }

  lemma StoredPut(pool: seq<Mail>, size: nat, input: nat, out: nat, entry: nat, v: Mail)
    requires RingOk(size, entry, input, out) && entry < size <= |pool|
    ensures var next := if input + 1 >= size then 0 else input + 1;
            && RingOk(size, entry + 1, next, out)
            && Stored(pool[input := v], size, out, entry + 1) == Stored(pool, size, out, entry) + [v]
  {}

  lemma StoredTake(pool: seq<Mail>, size: nat, input: nat, out: nat, entry: nat)
    requires RingOk(size, entry, input, out) && 0 < entry && size <= |pool|
    ensures var next := if out + 1 >= size then 0 else out + 1;
            && RingOk(size, entry - 1, input, next)
            && Stored(pool, size, out, entry) == [pool[out]] + Stored(pool, size, next, entry - 1)
  {
    var next := if out + 1 >= size then 0 else out + 1;
    var s, r := Stored(pool, size, out, entry), Stored(pool, size, next, entry - 1);
    forall i | 0 <= i < entry - 1 ensures s[i + 1] == r[i] {
      assert Slot(out, i + 1, size) == Slot(next, i, size);
    }
  }

  /** Nobody is in two places. */
  ghost predicate Apart(receivers: seq<Tid>, senders: seq<Tid>, wokenR: set<Tid>, wokenS: set<Tid>, late: set<Tid>) {
    && (forall t | t in receivers :: t !in senders && t !in wokenR && t !in wokenS && t !in late)
    && (forall t | t in senders :: t !in wokenR && t !in wokenS && t !in late)
    && wokenR !! wokenS && wokenR !! late && wokenS !! late
  }

  class Box {
    const pool: array<Mail>
    const size: nat
    const flag: Flag
    const prio: Prios
    var entry: nat
    var inOffset: nat
    var outOffset: nat
    var receivers: seq<Tid>
    var senders: seq<Tid>
    var wokenReceivers: set<Tid>      // resumed, and not yet running again
    var wokenSenders: set<Tid>
    var late: set<Tid>                // resumed by their timer
    var letter: map<Tid, Mail>        // what a sender is trying to send, and how long
    var limit: map<Tid, int>          // a waiting thread may still wait
    ghost var sent: seq<Mail>
    ghost var received: seq<Mail>

    ghost function Contents(): seq<Mail>
      reads this`entry, this`inOffset, this`outOffset, pool
      requires RingOk(size, entry, inOffset, outOffset) && size <= pool.Length
    {
      Stored(pool[..], size, outOffset, entry)
    }

    ghost predicate Queue() reads this`entry, this`inOffset, this`outOffset, this`sent, this`received, pool {
      && RingOk(size, entry, inOffset, outOffset) && size <= pool.Length
      && sent == received + Contents()
    }

    /** The wait lists while `mails` are stored; in `slackR` and `slackS` a resumed thread
        that just runs is counted. */
    ghost predicate Lists(mails: nat, slackR: nat, slackS: nat)
      reads this`receivers, this`senders, this`wokenReceivers, this`wokenSenders, this`late, this`limit, this`letter
    {
      && Waiting(receivers, flag, prio) && Waiting(senders, flag, prio)
      && Apart(receivers, senders, wokenReceivers, wokenSenders, late)
      && NoneLost(receivers, wokenReceivers, mails, slackR)
      && NoneLost(senders, wokenSenders, size - mails, slackS)
      && (forall t | t in receivers || t in wokenReceivers :: t in limit && t in prio)
      && (forall t | t in senders || t in wokenSenders :: t in limit && t in letter && t in prio)
    }

    ghost predicate Sound(slackR: nat, slackS: nat) reads this, pool {
      Queue() && Lists(entry, slackR, slackS)
    }

    ghost predicate Valid() reads this, pool {
      Sound(0, 0)
    }

    /** A thread that is not in any mailbox call. */
    ghost predicate Outside(t: Tid) reads this {
      t !in receivers && t !in senders && t !in wokenReceivers && t !in wokenSenders && t !in late
    }

    /** The ring is a bounded first-in first-out queue, and no wake-up is lost: while receivers
        wait there are no more mails than receivers resumed but not yet run, and while senders
        wait there are no more free slots than such senders. */
    lemma Agreement()
      requires Valid()
      ensures sent == received + Contents() && |Contents()| == entry <= size
      ensures receivers != [] ==> |Contents()| <= |wokenReceivers|
      ensures senders != [] ==> size - |Contents()| <= |wokenSenders|
    {}

    /** Once every resumed thread has run: nobody waits for a mail that is there or for a
        slot that is free. */
    lemma Quiescent()
      requires Valid() && wokenReceivers == {} && wokenSenders == {}
      ensures receivers != [] ==> Contents() == []
      ensures senders != [] ==> |Contents()| == size
      ensures size > 0 ==> receivers == [] || senders == []
    {}

    constructor (messages: array<Mail>, capacity: nat, f: Flag, priorities: Prios)
      requires capacity % 0x10000 <= messages.Length
      ensures Valid() && Contents() == [] && pool == messages && size == capacity % 0x10000
      ensures flag == f && prio == priorities && forall t :: Outside(t)
      ensures sent == [] && received == []
    {
      pool, size, flag, prio := messages, capacity % 0x10000, f, priorities;
      entry, inOffset, outOffset := 0, 0, 0;
      receivers, senders, wokenReceivers, wokenSenders, late := [], [], {}, {}, {};
      letter, limit, sent, received := map[], map[], [], [];
    }

    /** What a receive does to the threads and to the senders' side. */
    twostate predicate ReceiveEffect(t: Tid, timeout: int, r: Received, woken: set<Tid>) reads this {
      && sent == old(sent) && letter == old(letter) && late == old(late) && wokenReceivers == woken
      && match r
         case Got(_) =>
           && receivers == old(receivers) && limit == old(limit)
           && FirstWoken(old(senders), old(wokenSenders), senders, wokenSenders)
         case Empty =>
           receivers == old(receivers) && limit == old(limit) && senders == old(senders)
             && wokenSenders == old(wokenSenders)
         case RecvWaits =>
           && limit == old(limit)[t := timeout] && senders == old(senders) && wokenSenders == old(wokenSenders)
           && exists k :: JoinsAt(old(receivers), prio, t, flag, k) && receivers == InsertAt(old(receivers), k, t)
    }

    /** What a send does to the threads and to the receivers' side. */
    twostate predicate PostEffect(t: Tid, value: Mail, timeout: int, r: Posted, woken: set<Tid>) reads this {
      && received == old(received) && late == old(late) && wokenSenders == woken
      && match r
         case Sent =>
           && senders == old(senders) && limit == old(limit) && letter == old(letter)
           && FirstWoken(old(receivers), old(wokenReceivers), receivers, wokenReceivers)
         case Full =>
           && senders == old(senders) && limit == old(limit) && letter == old(letter)
           && receivers == old(receivers) && wokenReceivers == old(wokenReceivers)
         case SendWaits =>
           && limit == old(limit)[t := timeout] && letter == old(letter)[t := value]
           && receivers == old(receivers) && wokenReceivers == old(wokenReceivers)
           && exists k :: JoinsAt(old(senders), prio, t, flag, k) && senders == InsertAt(old(senders), k, t)
    }

    /** The loop and the rest of a receive, for a thread that is in no list. */
    method Receive(t: Tid, timeout: int, ghost slack: nat) returns (r: Received)
      requires Sound(slack, 0) && slack <= 1
      requires timeout != 0 ==> Outside(t) && t in prio
      modifies this
      ensures Valid()
      ensures old(entry) > 0 ==> r == Got(old(Contents())[0]) && Contents() == old(Contents())[1..]
      ensures received == old(received) + if r.Got? then [r.mail] else []
      ensures old(entry) == 0 ==> r == (if timeout == 0 then Empty else RecvWaits) && Contents() == []
      ensures ReceiveEffect(t, timeout, r, old(wokenReceivers))
    {
      hide RingOk, Lists, Queue, Stored, JoinsAt, FirstWoken;
      AnyMails();
      if entry == 0 {
        NoMailsNoSlack(slack);
        if timeout == 0 {
          return Empty;
        }
        ghost var k := AwaitMail(t, timeout);
        return RecvWaits;
      }
      FewerMails(entry, slack);
      var v := Take();
      WakeSender();
      r := Got(v);
    }

    lemma AnyMails()
      requires Queue()
      ensures RingOk(size, entry, inOffset, outOffset) && size <= pool.Length && entry <= size
      ensures |Contents()| == entry && (entry == 0 ==> Contents() == [])
    {}

    lemma NoMailsNoSlack(slack: nat)
      requires Lists(0, slack, 0)
      ensures Lists(0, 0, 0)
    {}

    /** A receiver that runs takes the mail it may have been resumed for. */
    lemma FewerMails(mails: nat, slack: nat)
      requires 0 < mails <= size && Lists(mails, slack, 0) && slack <= 1
      ensures Lists(mails - 1, 0, 1)
    {}

    /** Waiting for mail. */
    method AwaitMail(t: Tid, timeout: int) returns (ghost k: nat)
      requires Lists(0, 0, 0) && Outside(t) && t in prio
      modifies this`receivers, this`limit
      ensures Lists(0, 0, 0) && limit == old(limit)[t := timeout]
      ensures JoinsAt(old(receivers), prio, t, flag, k) && receivers == InsertAt(old(receivers), k, t)
    {
      limit := limit[t := timeout];
      ghost var list := receivers;
      receivers, k := Suspend(receivers, prio, t, flag);
      JoinsList(list, k, t, flag, prio);
    }

    /** Takes the oldest mail out of the ring. */
    method Take() returns (v: Mail)
      requires Queue() && entry > 0
      modifies this`entry, this`outOffset, this`received
      ensures Queue() && old(Contents()) == [v] + Contents() && entry == old(entry) - 1
        && received == old(received) + [v]
    {
      StoredTake(pool[..], size, inOffset, outOffset, entry);
      v := pool[outOffset];
      outOffset := if outOffset + 1 >= size then 0 else outOffset + 1;
      entry := entry - 1;
      received := received + [v];
    }

    /** Resumes the first sender, if one waits, for the slot that has become free. */
    method WakeSender()
      requires entry <= size && Lists(entry, 0, 1)
      modifies this`senders, this`wokenSenders
      ensures Lists(entry, 0, 0)
      ensures FirstWoken(old(senders), old(wokenSenders), senders, wokenSenders)
    {
      if senders != [] {
        var s := senders[0];
        assert s in senders;
        Wakes(senders, wokenSenders, size - entry - 1, 0, flag, prio);
        senders := senders[1..];
        wokenSenders := wokenSenders + {s};
      }
    }

    /** The loop and the rest of a send. */
    method Post(t: Tid, value: Mail, timeout: int, ghost slack: nat) returns (r: Posted)
      requires Sound(0, slack) && slack <= 1
      requires timeout != 0 ==> Outside(t) && t in prio
      modifies this, pool
      ensures Valid()
      ensures old(entry) < size ==> r == Sent && Contents() == old(Contents()) + [value] && sent == old(sent) + [value]
      ensures old(entry) == size ==> r == (if timeout == 0 then Full else SendWaits) && Contents() == old(Contents())
      ensures r != Sent ==> sent == old(sent) && Contents() == old(Contents())
      ensures PostEffect(t, value, timeout, r, old(wokenSenders))
    {
      hide RingOk, Lists, Queue, Stored, JoinsAt, FirstWoken;
      AnyMails();
      if entry == size {
        NoSlotsNoSlack(slack);
        if timeout == 0 {
          return Full;
        }
        ghost var k := AwaitSlot(t, value, timeout);
        return SendWaits;
      }
      MoreMails(entry, slack);
      Deliver(value);
      r := Sent;
    }

    /** Stores a mail and resumes the first receiver. */
    method Deliver(value: Mail)
      requires Queue() && entry < size && Lists(entry + 1, 1, 0)
      modifies this`entry, this`inOffset, this`sent, this`receivers, this`wokenReceivers, pool
      ensures Queue() && Lists(entry, 0, 0) && Contents() == old(Contents()) + [value] && sent == old(sent) + [value]
      ensures FirstWoken(old(receivers), old(wokenReceivers), receivers, wokenReceivers)
    {
      hide *;
      Put(value);
      AnyMails();
      WakeReceiver();
    }

    lemma NoSlotsNoSlack(slack: nat)
      requires Lists(size, 0, slack)
      ensures Lists(size, 0, 0)
    {}

    /** A sender that runs fills the slot it may have been resumed for. */
    lemma MoreMails(mails: nat, slack: nat)
      requires mails < size && Lists(mails, 0, slack) && slack <= 1
      ensures Lists(mails + 1, 1, 0)
    {}

    /** Waiting for a slot. */
    method AwaitSlot(t: Tid, value: Mail, timeout: int) returns (ghost k: nat)
      requires Lists(size, 0, 0) && Outside(t) && t in prio
      modifies this`senders, this`limit, this`letter
      ensures Lists(size, 0, 0) && limit == old(limit)[t := timeout] && letter == old(letter)[t := value]
      ensures JoinsAt(old(senders), prio, t, flag, k) && senders == InsertAt(old(senders), k, t)
    {
      limit, letter := limit[t := timeout], letter[t := value];
      ghost var list := senders;
      senders, k := Suspend(senders, prio, t, flag);
      JoinsList(list, k, t, flag, prio);
    }

    /** Puts a mail behind the others. */
    method Put(value: Mail)
      requires Queue() && entry < size
      modifies this`entry, this`inOffset, this`sent, pool
      ensures Queue() && Contents() == old(Contents()) + [value] && entry == old(entry) + 1
        && sent == old(sent) + [value]
    {
      StoredPut(pool[..], size, inOffset, outOffset, entry, value);
      ghost var was := Contents();
      Store(inOffset, value);
      inOffset := if inOffset + 1 >= size then 0 else inOffset + 1;
      entry := entry + 1;
      sent := sent + [value];
      assert Contents() == was + [value];
      assert received + (was + [value]) == received + was + [value];
    }

    /** Resumes the first receiver, if one waits, for the mail that has come. */
    method WakeReceiver()
      requires entry <= size && Lists(entry, 1, 0)
      modifies this`receivers, this`wokenReceivers
      ensures Lists(entry, 0, 0)
      ensures FirstWoken(old(receivers), old(wokenReceivers), receivers, wokenReceivers)
    {
      if receivers != [] {
        var s := receivers[0];
        assert s in receivers;
        Wakes(receivers, wokenReceivers, entry - 1, 0, flag, prio);
        receivers := receivers[1..];
        wokenReceivers := wokenReceivers + {s};
      }
    }

    method Store(i: nat, value: Mail)
      requires i < pool.Length
      modifies pool
      ensures pool[..] == old(pool[..])[i := value]
    {
      pool[i] := value;
    }

    /** A thread, or with no timeout an interrupt, starts to receive. */
    method RecvEnter(t: Tid, timeout: int) returns (r: Received)
      requires Valid() && (timeout != 0 ==> Outside(t) && t in prio)
      modifies this
      ensures Valid() && ReceiveEffect(t, timeout, r, old(wokenReceivers))
      ensures old(Contents()) != [] ==> r == Got(old(Contents())[0]) && Contents() == old(Contents())[1..]
      ensures old(Contents()) == [] ==> r == (if timeout == 0 then Empty else RecvWaits) && Contents() == []
      ensures received == old(received) + if r.Got? then [r.mail] else []
    {
      r := Receive(t, timeout, 0);
    }

    /** A resumed receiver runs again, `elapsed` ticks after it went to sleep. Another thread
        may have taken the mail it was resumed for; then it waits for what time it has left. */
    method RecvResume(t: Tid, elapsed: nat) returns (r: Received)
      requires Valid() && t in wokenReceivers
      modifies this
      ensures Valid() && t in old(limit)
        && ReceiveEffect(t, TimeLeft(old(limit)[t], elapsed), r, old(wokenReceivers) - {t})
      ensures old(Contents()) != [] ==> r == Got(old(Contents())[0]) && Contents() == old(Contents())[1..]
      ensures old(Contents()) == [] ==>
        r == (if TimeLeft(old(limit)[t], elapsed) == 0 then Empty else RecvWaits) && Contents() == []
      // its time is up if it had a limit and that has passed; otherwise it waits for the rest
      ensures old(Contents()) == [] ==> (r == Empty <==> 0 <= old(limit)[t] <= elapsed)
      ensures r == RecvWaits ==>
        t in limit && limit[t] == if old(limit)[t] < 0 then old(limit)[t] else old(limit)[t] - elapsed
      ensures received == old(received) + if r.Got? then [r.mail] else []
    {
      wokenReceivers := wokenReceivers - {t};
      r := Receive(t, TimeLeft(limit[t], elapsed), 1);
    }

    /** A thread, or with no timeout an interrupt, starts to send. */
    method SendEnter(t: Tid, value: Mail, timeout: int) returns (r: Posted)
      requires Valid() && (timeout != 0 ==> Outside(t) && t in prio)
      modifies this, pool
      ensures Valid() && PostEffect(t, value, timeout, r, old(wokenSenders))
      ensures |old(Contents())| < size ==> r == Sent && Contents() == old(Contents()) + [value]
      ensures |old(Contents())| == size ==>
        r == (if timeout == 0 then Full else SendWaits) && Contents() == old(Contents())
      ensures sent == old(sent) + if r.Sent? then [value] else []
    {
      r := Post(t, value, timeout, 0);
    }

    /** A resumed sender runs again and tries to send its letter. */
    method SendResume(t: Tid, elapsed: nat) returns (r: Posted)
      requires Valid() && t in wokenSenders
      modifies this, pool
      ensures Valid() && t in old(limit) && t in old(letter)
      ensures PostEffect(t, old(letter)[t], TimeLeft(old(limit)[t], elapsed), r, old(wokenSenders) - {t})
      ensures |old(Contents())| < size ==> r == Sent && Contents() == old(Contents()) + [old(letter)[t]]
      ensures |old(Contents())| == size ==> r == if TimeLeft(old(limit)[t], elapsed) == 0 then Full else SendWaits
      ensures |old(Contents())| == size ==> (r == Full <==> 0 <= old(limit)[t] <= elapsed)
      ensures r == SendWaits ==>
        t in limit && limit[t] == if old(limit)[t] < 0 then old(limit)[t] else old(limit)[t] - elapsed
      ensures r != Sent ==> Contents() == old(Contents())
      ensures sent == old(sent) + if r.Sent? then [old(letter)[t]] else []
    {
      wokenSenders := wokenSenders - {t};
      r := Post(t, letter[t], TimeLeft(limit[t], elapsed), 1);
    }

    /** The timer of a waiting thread runs out; when it runs again its call fails. */
    method Timeout(t: Tid)
      requires Valid() && (t in receivers || t in senders)
      modifies this
      ensures Valid() && Contents() == old(Contents()) && sent == old(sent) && received == old(received)
      ensures late == old(late) + {t} && wokenReceivers == old(wokenReceivers) && wokenSenders == old(wokenSenders)
      ensures receivers == (if t in old(receivers) then Without(old(receivers), Position(old(receivers), t))
        else old(receivers))
      ensures senders == (if t in old(senders) then Without(old(senders), Position(old(senders), t)) else old(senders))
    {
      if t in receivers {
        var k := Position(receivers, t);
        LeavesList(receivers, k, flag, prio);
        receivers := Without(receivers, k);
      } else {
        var k := Position(senders, t);
        LeavesList(senders, k, flag, prio);
        senders := Without(senders, k);
      }
      late := late + {t};
    }

    /** A thread whose timer ran out runs again: its call fails. */
    method GiveUp(t: Tid)
      requires Valid() && t in late
      modifies this`late
      ensures Valid() && late == old(late) - {t}
    {
      late := late - {t};
    }
  }
}
