/** Event sets: threads wait for all (AND) or any (OR) of some bits. A word is the set of
    the numbers of its one bits, so `*`, `+` and `-` are its and, or and and-not. */
module Event {
  import opened Lists
  import opened WaitList
  import opened Machine

  type Bits = set<nat>

  datatype Flags = Flags(all: bool, any: bool, clear: bool)   // of one receive

  datatype Status = Ok | TimedOut | Failed   // a thread's error number

  datatype Result = Done(status: Status, bits: Bits) | Suspended

  predicate Satisfied(have: Bits, want: Bits, opt: Flags) {
    if opt.all then have * want == want else opt.any && have * want != {}
  }

  /** Bit by bit: AND waits for all of them, OR for any. */
  lemma SatisfiedMeans(have: Bits, want: Bits, opt: Flags)
    ensures opt.all ==> (Satisfied(have, want, opt) <==> forall b | b in want :: b in have)
    ensures !opt.all && opt.any ==> (Satisfied(have, want, opt) <==> exists b :: b in want && b in have)
    ensures !opt.all && !opt.any ==> !Satisfied(have, want, opt)
    ensures Satisfied(have, want, opt) <==> if opt.all then want <= have else opt.any && !(want !! have)
  {
    assert want <= have <==> have * want == want;
    forall b | b in want && b in have ensures b in have * want {}
  }

  function Residue(have: Bits, want: Bits, opt: Flags): Bits {
    if opt.clear then have - want else have
  }

  /** A receive that finds its bits at once: the bits it gets and the set it leaves. */
  function RecvNow(have: Bits, want: Bits, opt: Flags): Option<(Bits, Bits)> {
    if Satisfied(have, want, opt) then Some((have * want, Residue(have, want, opt))) else None
  }

  lemma StillUnsatisfied(big: Bits, small: Bits, want: Bits, opt: Flags)
    requires small <= big && !Satisfied(big, want, opt)
    ensures !Satisfied(small, want, opt)
  {
    assert small * want == want ==> big * want == want;
    assert big * want == {} ==> small * want == {};
  }

  /** A thread that could not go before the bits `s` were added owes its wake-up to them. */
  lemma OwesToNew(before: Bits, s: Bits, now: Bits, want: Bits, opt: Flags)
    requires now <= before + s && !Satisfied(before, want, opt) && Satisfied(now, want, opt)
    ensures now * want * s != {}
  {
    assert want <= before ==> before * want == want;
    assert now * want == want ==> want <= now;
    assert exists b :: b in want && b in now && b !in before by {
      if opt.all {
        assert want == now * want;
        var b :| b in want && b !in before;
      } else {
        var b :| b in now * want;
        assert b in before ==> b in before * want;
      }
    }
    var b :| b in want && b in now && b !in before;
    assert b in now * want * s;
  }

  /** What waiters ask for makes sense. */
  ghost predicate Asking(list: seq<Tid>, want: map<Tid, Bits>, info: map<Tid, Flags>) {
    forall t | t in list :: t in want && t in info && want[t] != {} && (info[t].all || info[t].any)
  }

  datatype Outcome = Outcome(bits: Bits, want: map<Tid, Bits>, left: seq<Tid>, woken: seq<Tid>)

  /** The reference: in list order every waiter retries its receive once. */
  ghost function Serve(bits: Bits, list: seq<Tid>, want: map<Tid, Bits>, info: map<Tid, Flags>): Outcome
    requires Distinct(list) && Asking(list, want, info)
  {
    if list == [] then Outcome(bits, want, [], [])
    else
      var t := list[0];
      match RecvNow(bits, want[t], info[t])
      case Some(p) =>
        var o := Serve(p.1, list[1..], want[t := p.0], info);
        o.(woken := [t] + o.woken)
      case None =>
        var o := Serve(bits, list[1..], want, info);
        o.(left := [t] + o.left)
  }

  lemma AskingOn(list: seq<Tid>, want: map<Tid, Bits>, info: map<Tid, Flags>, got: Bits)
    requires Distinct(list) && Asking(list, want, info) && list != []
    ensures Distinct(list[1..]) && Asking(list[1..], want, info) && Asking(list[1..], want[list[0] := got], info)
    ensures list[0] in want && list[0] in info && list[0] !in list[1..]
  {
    var rest := list[1..];
    assert list[0] in list;
    forall t | t in rest ensures t in list && t != list[0] {
      var i :| 0 <= i < |rest| && rest[i] == t;
      assert list[i + 1] == t;
    }
  }

  lemma ServeGo(bits: Bits, list: seq<Tid>, want: map<Tid, Bits>, info: map<Tid, Flags>)
    requires Distinct(list) && Asking(list, want, info) && list != []
    requires list[0] in want && list[0] in info && Satisfied(bits, want[list[0]], info[list[0]])
    ensures var t, rest := list[0], list[1..];
            var after, residue := want[t := bits * want[t]], Residue(bits, want[t], info[t]);
            && Distinct(rest) && Asking(rest, after, info)
            && var o := Serve(residue, rest, after, info);
               Serve(bits, list, want, info) == o.(woken := [t] + o.woken)
  {
    AskingOn(list, want, info, bits * want[list[0]]);
    hide Asking, Distinct, Satisfied, Residue;
  }

  lemma ServeStay(bits: Bits, list: seq<Tid>, want: map<Tid, Bits>, info: map<Tid, Flags>)
    requires Distinct(list) && Asking(list, want, info) && list != []
    requires list[0] in want && list[0] in info && !Satisfied(bits, want[list[0]], info[list[0]])
    ensures Distinct(list[1..]) && Asking(list[1..], want, info)
    ensures var o := Serve(bits, list[1..], want, info);
            Serve(bits, list, want, info) == o.(left := [list[0]] + o.left)
  {
    AskingOn(list, want, info, {});
    hide Asking, Distinct, Satisfied, Residue;
  }

  /** Every waiter is either left or woken, and the other threads' bits are untouched. */
  lemma {:induction false} ServeSplits(bits: Bits, list: seq<Tid>, want: map<Tid, Bits>, info: map<Tid, Flags>)
    requires Distinct(list) && Asking(list, want, info)
    ensures var o := Serve(bits, list, want, info);
            && (forall t :: t in list <==> t in o.left || t in o.woken)
            && (forall t | t in o.left :: t !in o.woken)
            && Distinct(o.left) && Distinct(o.woken)
            && o.want.Keys == want.Keys
            && (forall t | t in want && t !in o.woken :: o.want[t] == want[t])
    decreases |list|
  {
    if list == [] {
    } else {
      hide Satisfied, Residue, Asking, Distinct;
      AskingOn(list, want, info, {});
      var t, rest := list[0], list[1..];
      assert list == [t] + rest;
      if Satisfied(bits, want[t], info[t]) {
        ServeGo(bits, list, want, info);
        var after := want[t := bits * want[t]];
        var o := Serve(Residue(bits, want[t], info[t]), rest, after, info);
        ServeSplits(Residue(bits, want[t], info[t]), rest, after, info);
        assert t in want;
        ConsDistinct(t, o.woken);
      } else {
        ServeStay(bits, list, want, info);
        var o := Serve(bits, rest, want, info);
        ServeSplits(bits, rest, want, info);
        ConsDistinct(t, o.left);
      }
    }
  }

  lemma ConsDistinct(t: Tid, s: seq<Tid>)
    requires Distinct(s) && t !in s
    ensures Distinct([t] + s)
  {}

  /** Although bits are cleared on the way, nobody left behind could have gone: not at
      its turn and not at the end. */
  lemma {:induction false} NobodyLeftCanGo(bits: Bits, list: seq<Tid>, want: map<Tid, Bits>, info: map<Tid, Flags>)
    requires Distinct(list) && Asking(list, want, info)
    ensures var o := Serve(bits, list, want, info);
            o.bits <= bits && forall t | t in o.left && t in want && t in info :: !Satisfied(o.bits, want[t], info[t])
    // under AND at least one bit is missing, under OR every one
    ensures var o := Serve(bits, list, want, info);
            forall t | t in o.left && t in want && t in info ::
              if info[t].all then !(want[t] <= o.bits) else info[t].any ==> want[t] !! o.bits
    decreases |list|
  {
    if list == [] {
    } else {
      var t := list[0];
      var rest := list[1..];
      assert list == [t] + rest;
      if Satisfied(bits, want[t], info[t]) {
        var after := want[t := bits * want[t]];
        var residue := Residue(bits, want[t], info[t]);
        NobodyLeftCanGo(residue, rest, after, info);
        ServeSplits(residue, rest, after, info);
        assert residue <= bits;
      } else {
        NobodyLeftCanGo(bits, rest, want, info);
        StillUnsatisfied(bits, Serve(bits, rest, want, info).bits, want[t], info[t]);
        SatisfiedMeans(Serve(bits, rest, want, info).bits, want[t], info[t]);
      }
    }
  }

  /** The first in the list who can go with the bits there are goes first, and gets its bits of all of them. */
  lemma {:induction false} FirstToGo(bits: Bits, list: seq<Tid>, want: map<Tid, Bits>, info: map<Tid, Flags>, i: nat)
    requires Distinct(list) && Asking(list, want, info) && i < |list|
    requires list[i] in want && list[i] in info && Satisfied(bits, want[list[i]], info[list[i]])
    requires forall j | 0 <= j < i && list[j] in want && list[j] in info ::
      !Satisfied(bits, want[list[j]], info[list[j]])
    ensures var o := Serve(bits, list, want, info);
      o.woken != [] && o.woken[0] == list[i] && list[i] in o.want && o.want[list[i]] == bits * want[list[i]]
    decreases i
  {
    hide Satisfied, Residue, Asking, Distinct, Serve;
    AskingOn(list, want, info, {});
    var t, rest := list[0], list[1..];
    if i == 0 {
      ServeGo(bits, list, want, info);
      var after, residue := want[t := bits * want[t]], Residue(bits, want[t], info[t]);
      ServeSplits(residue, rest, after, info);
    } else {
      ServeStay(bits, list, want, info);
      forall j | 0 <= j < i - 1 && rest[j] in want && rest[j] in info
        ensures !Satisfied(bits, want[rest[j]], info[rest[j]])
      {
        assert rest[j] == list[j + 1];
      }
      FirstToGo(bits, rest, want, info, i - 1);
    }
  }

  /** Those left keep their order, and those woken are woken in that order. */
  lemma {:induction false} ServeInOrder(bits: Bits, list: seq<Tid>, want: map<Tid, Bits>, info: map<Tid, Flags>, x: Tid,
                                        y: Tid)
    requires Distinct(list) && Asking(list, want, info)
    ensures var o := Serve(bits, list, want, info);
      Ahead(o.left, x, y) || Ahead(o.woken, x, y) ==> Ahead(list, x, y)
    decreases |list|
  {
    if list == [] {
    } else {
      hide Satisfied, Residue, Asking, Distinct, Serve;
      AskingOn(list, want, info, {});
      var t, rest := list[0], list[1..];
      assert list == [t] + rest;
      ConsAhead(t, rest, x, y);
      if Satisfied(bits, want[t], info[t]) {
        ServeGo(bits, list, want, info);
        var after, residue := want[t := bits * want[t]], Residue(bits, want[t], info[t]);
        ServeInOrder(residue, rest, after, info, x, y);
        ServeSplits(residue, rest, after, info);
        ConsAhead(t, Serve(residue, rest, after, info).woken, x, y);
      } else {
        ServeStay(bits, list, want, info);
        ServeInOrder(bits, rest, want, info, x, y);
        ServeSplits(bits, rest, want, info);
        ConsAhead(t, Serve(bits, rest, want, info).left, x, y);
      }
    }
  }

  /** What a woken thread gets: all it asked for under AND, some of it under OR, nothing
      it did not ask for, and at least one of the bits `s` just sent. */
  lemma {:induction false} WokenGets(before: Bits, s: Bits, bits: Bits, list: seq<Tid>, want: map<Tid, Bits>,
                                     info: map<Tid, Flags>, t: Tid)
    requires Distinct(list) && Asking(list, want, info)
    requires bits <= before + s && forall x | x in list :: !Satisfied(before, want[x], info[x])
    requires t in Serve(bits, list, want, info).woken
    ensures var o := Serve(bits, list, want, info);
            && t in want && t in o.want && t in info
            && o.want[t] <= want[t] && o.want[t] <= bits && o.want[t] * s != {}
            && (info[t].all ==> o.want[t] == want[t])
    decreases |list|
  {
    AskingOn(list, want, info, {});
    var h := list[0];
    var rest := list[1..];
    assert h in list;
    if Satisfied(bits, want[h], info[h]) {
      ServeGo(bits, list, want, info);
      var after := want[h := bits * want[h]];
      var residue := Residue(bits, want[h], info[h]);
      ServeSplits(residue, rest, after, info);
      if t == h {
        OwesToNew(before, s, bits, want[h], info[h]);
      } else {
        assert residue <= bits;
        WokenGets(before, s, residue, rest, after, info, t);
      }
    } else {
      ServeStay(bits, list, want, info);
      WokenGets(before, s, bits, rest, want, info, t);
    }
  }

  /** The bits taken by the woken threads that clear. */
  ghost function Taken(woken: seq<Tid>, got: map<Tid, Bits>, info: map<Tid, Flags>): Bits {
    if woken == [] then {}
    else
      var t := woken[0];
      (if t in got && t in info && info[t].clear then got[t] else {}) + Taken(woken[1..], got, info)
  }

  /** The set that stays is exactly the set sent to, less what clearing threads were given. */
  lemma {:induction false} ClearedExactly(bits: Bits, list: seq<Tid>, want: map<Tid, Bits>, info: map<Tid, Flags>)
    requires Distinct(list) && Asking(list, want, info)
    ensures var o := Serve(bits, list, want, info);
            o.bits == bits - Taken(o.woken, o.want, info) && Taken(o.woken, o.want, info) <= bits
    decreases |list|
  {
    hide Satisfied, Asking, Distinct, Taken;
    if list == [] {
      assert Taken([], want, info) == {} by { TakenNone(want, info); }
    } else {
      AskingOn(list, want, info, {});
      var t := list[0];
      var rest := list[1..];
      if Satisfied(bits, want[t], info[t]) {
        ServeGo(bits, list, want, info);
        var after := want[t := bits * want[t]];
        var residue := Residue(bits, want[t], info[t]);
        var p := Serve(residue, rest, after, info);
        ClearedExactly(residue, rest, after, info);
        ServeSplits(residue, rest, after, info);
        var first := if info[t].clear then bits * want[t] else {};
        assert t !in p.woken && t in p.want && p.want[t] == after[t];
        TakenFirst(t, p.woken, p.want, info);
        LessBoth(bits, first, residue, Taken(p.woken, p.want, info));
      } else {
        ServeStay(bits, list, want, info);
        ClearedExactly(bits, rest, want, info);
      }
    }
  }

  lemma TakenNone(got: map<Tid, Bits>, info: map<Tid, Flags>)
    ensures Taken([], got, info) == {}
  {}

  lemma TakenFirst(t: Tid, woken: seq<Tid>, got: map<Tid, Bits>, info: map<Tid, Flags>)
    requires t in got && t in info
    ensures Taken([t] + woken, got, info) == (if info[t].clear then got[t] else {}) + Taken(woken, got, info)
  {
    var all := [t] + woken;
    assert all[0] == t && all[1..] == woken;
  }

  lemma LessBoth(all: Bits, first: Bits, residue: Bits, rest: Bits)
    requires first <= all && residue == all - first && rest <= residue
    ensures residue - rest == all - (first + rest) && first + rest <= all
  {}

  /** No bit is given to two threads that clear. */
  /** Bits that are no longer in the set that later waiters are served from are given to none of them. */
  lemma ApartFromLater(p: Outcome, info: map<Tid, Flags>, residue: Bits, t: Tid, x: Tid)
    requires x in p.woken && Taken(p.woken, p.want, info) <= residue
    requires t in p.want && t in info && info[t].clear ==> p.want[t] * residue == {}
    ensures GivenApart(p, info, t, x)
  {
    if x in p.want && x in info && info[x].clear {
      TakenCovers(p.woken, p.want, info, x);
    }
  }

  lemma GivenTo(bits: Bits, want: Bits, opt: Flags)
    ensures opt.clear ==> (bits * want) * Residue(bits, want, opt) == {}
  {}

  /** What the first waiter is given and cleared, no later one gets. */
  lemma FirstApart(bits: Bits, list: seq<Tid>, want: map<Tid, Bits>, info: map<Tid, Flags>, j: nat)
    requires Distinct(list) && Asking(list, want, info) && list != []
    requires list[0] in want && list[0] in info
    requires Satisfied(bits, want[list[0]], info[list[0]]) && 0 < j < |Serve(bits, list, want, info).woken|
    ensures var o := Serve(bits, list, want, info); GivenApart(o, info, o.woken[0], o.woken[j])
  {
    hide Serve, Asking, Distinct, Taken, Satisfied, Residue;
    var t, rest := list[0], list[1..];
    AskingOn(list, want, info, {});
    ServeGo(bits, list, want, info);
    var after, residue := want[t := bits * want[t]], Residue(bits, want[t], info[t]);
    var p := Serve(residue, rest, after, info);
    ServeSplits(residue, rest, after, info);
    ClearedExactly(residue, rest, after, info);
    GivenTo(bits, want[t], info[t]);
    var x := p.woken[j - 1];
    assert t !in p.woken && x in p.woken;
    ApartFromLater(p, info, residue, t, x);
  }

  lemma {:induction false} ClearedOnce(bits: Bits, list: seq<Tid>, want: map<Tid, Bits>, info: map<Tid, Flags>, i: nat,
                                       j: nat)
    requires Distinct(list) && Asking(list, want, info)
    requires i < j < |Serve(bits, list, want, info).woken|
    ensures var o := Serve(bits, list, want, info); GivenApart(o, info, o.woken[i], o.woken[j])
    decreases |list|
  {
    var t := list[0];
    var rest := list[1..];
    assert list == [t] + rest;
    assert t in list;
    if Satisfied(bits, want[t], info[t]) {
      ServeGo(bits, list, want, info);
      var after := want[t := bits * want[t]];
      var residue := Residue(bits, want[t], info[t]);
      var p := Serve(residue, rest, after, info);
      if i == 0 {
        FirstApart(bits, list, want, info, j);
      } else {
        ClearedOnce(residue, rest, after, info, i - 1, j - 1);
      }
    } else {
      ServeStay(bits, list, want, info);
      ClearedOnce(bits, rest, want, info, i, j);
    }
  }

  ghost predicate GivenApart(o: Outcome, info: map<Tid, Flags>, x: Tid, y: Tid) {
    x in o.want && y in o.want && x in info && y in info && info[x].clear && info[y].clear
    ==> o.want[x] * o.want[y] == {}
  }

  lemma {:induction false} TakenCovers(woken: seq<Tid>, got: map<Tid, Bits>, info: map<Tid, Flags>, t: Tid)
    requires t in woken && t in got && t in info && info[t].clear
    ensures got[t] <= Taken(woken, got, info)
  {
    if woken[0] != t {
      TakenCovers(woken[1..], got, info, t);
    }
  }

  /** Waiting threads keep their order. */
  lemma {:induction false} LeftSorted(bits: Bits, list: seq<Tid>, want: map<Tid, Bits>, info: map<Tid, Flags>,
                                      prio: Prios)
    requires Distinct(list) && Asking(list, want, info) && ByPriority(list, prio)
    ensures ByPriority(Serve(bits, list, want, info).left, prio)
    decreases |list|
  {
    if list == [] {
    } else {
      var t := list[0];
      var rest := list[1..];
      assert list == [t] + rest;
      assert forall x | x in rest :: x in list;
      AskingOn(list, want, info, {});
      if Satisfied(bits, want[t], info[t]) {
        ServeGo(bits, list, want, info);
        var after := want[t := bits * want[t]];
        LeftSorted(Residue(bits, want[t], info[t]), rest, after, info, prio);
      } else {
        ServeStay(bits, list, want, info);
        LeftSorted(bits, rest, want, info, prio);
        ServeSplits(bits, rest, want, info);
        FirstIsFirst(list, Serve(bits, rest, want, info).left, prio);
      }
    }
  }

  lemma FirstIsFirst(list: seq<Tid>, left: seq<Tid>, prio: Prios)
    requires ByPriority(list, prio) && list != [] && ByPriority(left, prio)
    requires forall x | x in left :: x in list[1..]
    ensures ByPriority([list[0]] + left, prio)
  {
    var t := list[0];
    assert t in list;
    forall x | x in left ensures prio[t] <= prio[x] {
      var i :| 0 <= i < |list| - 1 && list[1..][i] == x;
      assert list[i + 1] == x;
    }
    var r := [t] + left;
    forall i, j | 0 <= i < j < |r| ensures prio[r[i]] <= prio[r[j]] {
      assert r[j] == left[j - 1] && left[j - 1] in left;
    }
  }

  ghost function Members(list: seq<Tid>): set<Tid> { set t | t in list }

  lemma NoMembers()
    ensures Members([]) == {}
  {}

  /** Halfway through the waiters: the first `n` stay, `woken` are gone. */
  ghost predicate Halfway(o: Outcome, bits: Bits, list: seq<Tid>, n: nat, want: map<Tid, Bits>, info: map<Tid, Flags>,
                          woken: seq<Tid>)
  {
    && n <= |list| && Distinct(list) && Distinct(list[n..]) && Asking(list[n..], want, info)
    && var p := Serve(bits, list[n..], want, info);
       o == Outcome(p.bits, p.want, list[..n] + p.left, woken + p.woken)
  }

  lemma HalfwayStarts(bits: Bits, list: seq<Tid>, want: map<Tid, Bits>, info: map<Tid, Flags>)
    requires Distinct(list) && Asking(list, want, info)
    ensures Halfway(Serve(bits, list, want, info), bits, list, 0, want, info, [])
  {
    assert list[0..] == list && list[..0] == [];
    var p := Serve(bits, list, want, info);
    assert [] + p.left == p.left && [] + p.woken == p.woken;
  }

  lemma HalfwayAsks(o: Outcome, bits: Bits, list: seq<Tid>, n: nat, want: map<Tid, Bits>, info: map<Tid, Flags>,
                    woken: seq<Tid>)
    requires Halfway(o, bits, list, n, want, info, woken) && n < |list|
    ensures list[n] in want && list[n] in info && want[list[n]] != {}
  {
    var rest := list[n..];
    assert rest[0] == list[n] && rest[0] in rest;
  }

  lemma HalfwayWakes(o: Outcome, bits: Bits, list: seq<Tid>, n: nat, want: map<Tid, Bits>, info: map<Tid, Flags>,
                     woken: seq<Tid>)
    requires Halfway(o, bits, list, n, want, info, woken) && n < |list|
    requires list[n] in want && list[n] in info && Satisfied(bits, want[list[n]], info[list[n]])
    ensures var p := RecvNow(bits, want[list[n]], info[list[n]]).value;
            Halfway(o, p.1, Without(list, n), n, want[list[n] := p.0], info, woken + [list[n]])
  {
    var t := list[n];
    var rest := list[n + 1..];
    assert list[n..] == [t] + rest && list[n..][1..] == rest;
    var less := Without(list, n);
    assert less[n..] == rest && less[..n] == list[..n];
    assert Distinct(less) by { WithoutKeeps(list, n); }
    ServeGo(bits, list[n..], want, info);
    hide Serve, Satisfied, Asking, Distinct, Residue;
    var p := RecvNow(bits, want[t], info[t]).value;
    var q := Serve(p.1, rest, want[t := p.0], info);
    assert woken + ([t] + q.woken) == (woken + [t]) + q.woken;
  }

  lemma HalfwayStays(o: Outcome, bits: Bits, list: seq<Tid>, n: nat, want: map<Tid, Bits>, info: map<Tid, Flags>,
                     woken: seq<Tid>)
    requires Halfway(o, bits, list, n, want, info, woken) && n < |list|
    requires list[n] in want && list[n] in info && !Satisfied(bits, want[list[n]], info[list[n]])
    ensures Halfway(o, bits, list, n + 1, want, info, woken)
  {
    var t := list[n];
    var rest := list[n + 1..];
    assert list[n..] == [t] + rest && list[n..][1..] == rest;
    ServeStay(bits, list[n..], want, info);
    hide Serve, Satisfied, Asking, Distinct, Residue;
    var q := Serve(bits, rest, want, info);
    assert list[..n] + ([t] + q.left) == list[..n + 1] + q.left;
  }

  lemma HalfwayEnds(o: Outcome, bits: Bits, list: seq<Tid>, want: map<Tid, Bits>, info: map<Tid, Flags>,
                    woken: seq<Tid>)
    requires Halfway(o, bits, list, |list|, want, info, woken)
    ensures o == Outcome(bits, want, list, woken)
  {
    assert list[|list|..] == [] && list[..|list|] == list;
    assert list + [] == list && woken + [] == woken;
  }

  /** Waiting threads ask for something they cannot have yet; they are distinct, listed by
      priority under that flag, and not also on their way back. */
  ghost predicate Sound(bits: Bits, list: seq<Tid>, resumed: set<Tid>, want: map<Tid, Bits>, info: map<Tid, Flags>,
                        error: map<Tid, Status>, flag: Flag, prio: Prios)
  {
    && Distinct(list) && Known(list, prio) && Asking(list, want, info)
    && (forall t | t in list :: !Satisfied(bits, want[t], info[t]))
    && (forall t | t in list :: t !in resumed && t in error && error[t] == Ok)
    && (forall t | t in resumed :: t in error && t in want)
    && (flag.Prio? ==> ByPriority(list, prio))
  }

  /** What the threads in `woken` got out of `s` being sent. */
  ghost predicate Gets(o: Outcome, s: Bits, want: map<Tid, Bits>, info: map<Tid, Flags>, error: map<Tid, Status>) {
    forall t | t in o.woken ::
      && t in want && t in o.want && t in info && t in error && error[t] == Ok
      && o.want[t] * s != {} && o.want[t] <= want[t] && (info[t].all ==> o.want[t] == want[t])
  }

  /** Serving the waiters of a sound set once leaves it sound. */
  lemma ServeSound(before: Bits, s: Bits, list: seq<Tid>, resumed: set<Tid>, want: map<Tid, Bits>,
                   info: map<Tid, Flags>, error: map<Tid, Status>, flag: Flag, prio: Prios)
    requires Sound(before, list, resumed, want, info, error, flag, prio)
    ensures var o := Serve(before + s, list, want, info);
            && Sound(o.bits, o.left, resumed + Members(o.woken), o.want, info, error, flag, prio)
            && Gets(o, s, want, info, error)
            && o.bits == (before + s) - Taken(o.woken, o.want, info)
            && (forall t | t in resumed :: t in want && t in o.want && o.want[t] == want[t])
  {
    hide Serve, Taken, Satisfied;
    var o := Serve(before + s, list, want, info);
    ServeSplits(before + s, list, want, info);
    NobodyLeftCanGo(before + s, list, want, info);
    ClearedExactly(before + s, list, want, info);
    forall t | t in o.woken
      ensures t in want && t in o.want && t in info && o.want[t] * s != {}
              && o.want[t] <= want[t] && (info[t].all ==> o.want[t] == want[t])
    {
      WokenGets(before, s, before + s, list, want, info, t);
    }
    if flag.Prio? { LeftSorted(before + s, list, want, info, prio); }
  }

  /** A set that only lost bits keeps everybody waiting. */
  lemma FewerBits(bits: Bits, fewer: Bits, list: seq<Tid>, resumed: set<Tid>, want: map<Tid, Bits>,
                  info: map<Tid, Flags>, error: map<Tid, Status>, flag: Flag, prio: Prios)
    requires Sound(bits, list, resumed, want, info, error, flag, prio) && fewer <= bits
    ensures Sound(fewer, list, resumed, want, info, error, flag, prio)
  {
    forall x | x in list ensures !Satisfied(fewer, want[x], info[x]) {
      StillUnsatisfied(bits, fewer, want[x], info[x]);
    }
  }

  /** What becomes of a thread that neither waits nor has been resumed does not matter. */
  lemma ErrorElsewhere(bits: Bits, list: seq<Tid>, resumed: set<Tid>, want: map<Tid, Bits>, info: map<Tid, Flags>,
                       error: map<Tid, Status>, flag: Flag, prio: Prios, t: Tid, status: Status)
    requires Sound(bits, list, resumed, want, info, error, flag, prio) && t !in list && t !in resumed
    ensures Sound(bits, list, resumed, want, info, error[t := status], flag, prio)
  {
    hide Distinct, Known, ByPriority, Satisfied;
  }

  lemma AsksElsewhere(bits: Bits, list: seq<Tid>, resumed: set<Tid>, want: map<Tid, Bits>, info: map<Tid, Flags>,
                      error: map<Tid, Status>, flag: Flag, prio: Prios, t: Tid, asked: Bits, option: Flags)
    requires Sound(bits, list, resumed, want, info, error, flag, prio) && t !in list && t !in resumed
    ensures Sound(bits, list, resumed, want[t := asked], info[t := option], error, flag, prio)
  {
    hide Distinct, Known, ByPriority, Satisfied;
  }

  lemma AskingOne(t: Tid, want: map<Tid, Bits>, info: map<Tid, Flags>)
    requires t in want && t in info && want[t] != {} && (info[t].all || info[t].any)
    ensures Asking([t], want, info)
  {}

  lemma Joins(bits: Bits, list: seq<Tid>, k: nat, t: Tid, resumed: set<Tid>, want: map<Tid, Bits>,
              info: map<Tid, Flags>, error: map<Tid, Status>, flag: Flag, prio: Prios)
    requires Sound(bits, list, resumed, want, info, error, flag, prio) && JoinsAt(list, prio, t, flag, k)
    requires t !in list && t !in resumed && t in want && t in info && t in error && error[t] == Ok
    requires Asking([t], want, info) && !Satisfied(bits, want[t], info[t])
    ensures Sound(bits, InsertAt(list, k, t), resumed, want, info, error, flag, prio)
  {
    InsertKeeps(list, k, t);
    if flag.Prio? { InsertSorted(list, prio, t, k); }
    assert t in [t];
  }

  lemma FirstLeaves(list: seq<Tid>)
    requires list != []
    ensures Without(list, 0) == list[1..] && forall x :: x in list <==> x == list[0] || x in list[1..]
  {
    assert list == [list[0]] + list[1..];
  }

  lemma Leaves(bits: Bits, list: seq<Tid>, k: nat, resumed: set<Tid>, want: map<Tid, Bits>, info: map<Tid, Flags>,
               error: map<Tid, Status>, flag: Flag, prio: Prios, status: Status)
    requires Sound(bits, list, resumed, want, info, error, flag, prio) && k < |list|
    ensures Sound(bits, Without(list, k), resumed + {list[k]}, want, info, error[list[k] := status], flag, prio)
  {
    WithoutKeeps(list, k);
    if flag.Prio? { WithoutSorted(list, prio, k); }
  }

  class EventSet {
    var bits: Bits
    var waiters: seq<Tid>
    var resumed: set<Tid>          // taken off the list, not yet running again
    var want: map<Tid, Bits>
    var info: map<Tid, Flags>
    var error: map<Tid, Status>
    const flag: Flag
    const prio: Prios

    ghost predicate Valid() reads this {
      Sound(bits, waiters, resumed, want, info, error, flag, prio)
    }

    constructor (f: Flag, priorities: Prios)
      ensures Valid() && bits == {} && waiters == [] && resumed == {} && flag == f && prio == priorities
    {
      bits, waiters, resumed, want, info, error := {}, [], {}, map[], map[], map[];
      flag, prio := f, priorities;
    }

    /** The threads that were resumed are left alone. */
    twostate predicate ResumedKept(but: set<Tid>) reads this {
      forall t | t in old(resumed) && t !in but && t in old(want) && t in old(error) ::
        t in resumed && t in want && want[t] == old(want[t]) && t in error && error[t] == old(error[t])
    }

    /** Thread `t` asks for bits. */
    method Recv(t: Tid, asked: Bits, option: Flags, timeout: int) returns (r: Result)
      requires Valid() && t in prio && t !in waiters && t !in resumed
      requires asked != {} ==> option.all || option.any
      modifies this
      ensures Valid() && ResumedKept({}) && resumed == old(resumed)
      ensures r != Suspended ==> want == old(want) && info == old(info) && waiters == old(waiters)
      ensures asked == {} ==> r == Done(Failed, {}) && bits == old(bits) && error == old(error)
      ensures asked != {} ==> error == old(error)[t := if r.Done? then r.status else Ok]
      // bit by bit: AND needs all of them and gets all, OR needs one and gets those that are there
      ensures asked != {} ==>
        (r.Done? && r.status == Ok <==> if option.all then asked <= old(bits) else !(asked !! old(bits)))
      ensures asked != {} && r.Done? && r.status == Ok ==>
        && (forall b :: b in r.bits <==> b in asked && b in old(bits))
        && (forall b :: b in bits <==> b in old(bits) && !(option.clear && b in asked))
      ensures forall x | x in waiters && x in want && x in info ::
        if info[x].all then !(want[x] <= bits) else want[x] !! bits
      ensures asked != {} ==>
                match RecvNow(old(bits), asked, option)
                case Some(p) => r == Done(Ok, p.0) && bits == p.1
                case None =>
                  && bits == old(bits)
                  && (timeout == 0 ==> r == Done(TimedOut, {}))
                  && (timeout != 0 ==>
                        && r == Suspended && want == old(want)[t := asked] && info == old(info)[t := option]
                        && exists k ::
                             JoinsAt(old(waiters), prio, t, flag, k) && waiters == InsertAt(old(waiters), k, t))
    {
      hide Sound, Asking, Distinct, Known, JoinsAt, InsertAt;
      if asked == {} {
        NobodyCanGo();
        return Done(Failed, {});
      }
      SoundNow();
      SatisfiedMeans(bits, asked, option);
      ErrorElsewhere(bits, waiters, resumed, want, info, error, flag, prio, t, Ok);
      error := error[t := Ok];
      var ok := false;
      if option.all {
        ok := bits * asked == asked;
      } else if option.any {
        ok := bits * asked != {};
      }
      if ok {
        r := Done(Ok, bits * asked);
        FewerBits(bits, Residue(bits, asked, option), waiters, resumed, want, info, error, flag, prio);
        if option.clear {
          bits := bits - asked;
        }
      } else if timeout == 0 {
        ErrorElsewhere(bits, waiters, resumed, want, info, error, flag, prio, t, TimedOut);
        error := error[t := TimedOut];
        r := Done(TimedOut, {});
      } else {
        AsksElsewhere(bits, waiters, resumed, want, info, error, flag, prio, t, asked, option);
        want, info := want[t := asked], info[t := option];
        AskingOne(t, want, info);
        ghost var was := waiters;
        ghost var k: nat;
        waiters, k := Suspend(waiters, prio, t, flag);
        Joins(bits, was, k, t, resumed, want, info, error, flag, prio);
        r := Suspended;
      }
      BackValid();
      NobodyCanGo();
    }

    /** Everybody who waits lacks something: a bit under AND, every bit under OR. */
    lemma NobodyCanGo()
      requires Valid()
      ensures forall t | t in waiters ::
        && t in want && t in info && want[t] != {} && (info[t].all || info[t].any)
        && if info[t].all then !(want[t] <= bits) else want[t] !! bits
    {
      forall t | t in waiters
        ensures t in want && t in info && want[t] != {} && (info[t].all || info[t].any)
        ensures if info[t].all then !(want[t] <= bits) else want[t] !! bits
      {
        SatisfiedMeans(bits, want[t], info[t]);
      }
    }

    /** Adds bits and wakes the threads that can go. */
    method Send(s: Bits) returns (ok: bool)
      requires Valid()
      modifies this
      ensures Valid() && ResumedKept({}) && ok == (s != {})
      ensures !ok ==> bits == old(bits) && waiters == old(waiters) && resumed == old(resumed) && want == old(want)
      ensures ok ==>
                var o := Serve(old(bits) + s, old(waiters), old(want), old(info));
                && bits == o.bits && waiters == o.left && want == o.want
                && resumed == old(resumed) + Members(o.woken)
                && Gets(o, s, old(want), info, error)
                && bits == (old(bits) + s) - Taken(o.woken, want, info)
      ensures info == old(info) && error == old(error)
      // whoever still waits lacks a bit under AND, and every bit under OR
      ensures forall t | t in waiters && t in want && t in info ::
        if info[t].all then !(want[t] <= bits) else want[t] !! bits
    {
      hide Serve, Taken, Sound, Halfway, Gets, Asking, Distinct, Members, Satisfied, Residue, RecvNow;
      if s == {} {
        NobodyCanGo();
        return false;
      }
      NoMembers();
      SoundNow();
      ServeSound(bits, s, waiters, resumed, want, info, error, flag, prio);
      bits := bits + s;
      ghost var o := Serve(bits, waiters, want, info);
      ghost var woken: seq<Tid> := [];
      HalfwayStarts(bits, waiters, want, info);
      var n: nat := 0;
      while n < |waiters|
        invariant Halfway(o, bits, waiters, n, want, info, woken) && n <= |waiters|
        invariant resumed == old(resumed) + Members(woken)
        invariant info == old(info) && error == old(error)
        decreases |waiters| - n
      {
        n, woken := Visit(o, n, woken, old(resumed));
      }
      HalfwayEnds(o, bits, waiters, want, info, woken);
      BackValid();
      NobodyCanGo();
      ok := true;
    }

    lemma SoundNow()
      requires Valid()
      ensures Sound(bits, waiters, resumed, want, info, error, flag, prio)
      ensures Distinct(waiters) && Asking(waiters, want, info) && Known(waiters, prio)
    {}

    lemma BackValid()
      requires Sound(bits, waiters, resumed, want, info, error, flag, prio)
      ensures Valid()
    {}

    /** One round of the loop. */
    method Visit(ghost o: Outcome, n: nat, ghost woken: seq<Tid>, ghost base: set<Tid>)
      returns (m: nat, ghost after: seq<Tid>)
      requires Halfway(o, bits, waiters, n, want, info, woken) && n < |waiters|
      requires resumed == base + Members(woken)
      modifies this`want, this`bits, this`waiters, this`resumed
      ensures Halfway(o, bits, waiters, m, want, info, after) && m <= |waiters| && |waiters| - m < |old(waiters)| - n
      ensures resumed == base + Members(after)
    {
      hide Halfway, Serve, Satisfied, Residue;
      HalfwayAsks(o, bits, waiters, n, want, info, woken);
      var t := waiters[n];
      ghost var b, l, w := bits, waiters, want;
      var go := TryWake(t);
      if go {
        assert RecvNow(b, w[t], info[t]) == Some((b * w[t], Residue(b, w[t], info[t])));
        HalfwayWakes(o, b, l, n, w, info, woken);
        waiters := Without(waiters, n);
        resumed := resumed + {t};
        m, after := n, woken + [t];
      } else {
        HalfwayStays(o, b, l, n, w, info, woken);
        m, after := n + 1, woken;
      }
    }

    /** The test of one waiter, and what it takes. */
    method TryWake(t: Tid) returns (go: bool)
      requires t in want && t in info && want[t] != {}
      modifies this`want, this`bits
      ensures go == Satisfied(old(bits), old(want)[t], info[t])
      ensures go <==> if info[t].all then old(want)[t] <= old(bits) else info[t].any && !(old(want)[t] !! old(bits))
      ensures go ==>
        bits == Residue(old(bits), old(want)[t], info[t]) && want == old(want)[t := old(bits) * old(want)[t]]
      ensures !go ==> bits == old(bits) && want == old(want)
    {
      ghost var wanted, was := want[t], bits;
      SatisfiedMeans(bits, want[t], info[t]);
      go := false;
      if info[t].all {
        go := want[t] * bits == want[t];
      } else if info[t].any {
        if want[t] * bits != {} {
          want := want[t := want[t] * bits];
          go := true;
        }
      }
      if go {
        assert want[t] == was * wanted && want == old(want)[t := want[t]];
        assert was - wanted == was - want[t];
        if info[t].clear {
          bits := bits - want[t];
        }
      }
    }

    /** A resumed thread runs again: it is given what it was woken with, or its error. */
    method Resume(t: Tid) returns (status: Status, got: Bits)
      requires Valid() && t in resumed
      modifies this`resumed
      ensures Valid() && ResumedKept({t}) && resumed == old(resumed) - {t}
      ensures status == error[t] && (status == Ok ==> got == want[t])
    {
      resumed := resumed - {t};
      status, got := error[t], if error[t] == Ok then want[t] else {};
    }

    /** The timer of a waiting thread runs out. */
    method Timeout(t: Tid)
      requires Valid() && t in waiters
      modifies this
      ensures Valid() && ResumedKept({}) && resumed == old(resumed) + {t}
      ensures bits == old(bits) && want == old(want) && info == old(info) && error == old(error)[t := TimedOut]
      ensures waiters == Without(old(waiters), Position(old(waiters), t))
    {
      var k := Position(waiters, t);
      Leaves(bits, waiters, k, resumed, want, info, error, flag, prio, TimedOut);
      waiters := Without(waiters, k);
      error := error[t := TimedOut];
      resumed := resumed + {t};
    }

    /** Sends everybody away and clears the set. */
    method Reset()
      requires Valid()
      modifies this
      ensures Valid() && ResumedKept({}) && bits == {} && waiters == [] && want == old(want) && info == old(info)
      ensures resumed == old(resumed) + Members(old(waiters))
      ensures forall t | t in old(waiters) :: t in error && error[t] == Failed
    {
      hide Sound, Without, Distinct, Asking, Known;
      SoundNow();
      while waiters != []
        invariant Sound(bits, waiters, resumed, want, info, error, flag, prio)
        invariant forall t | t in old(waiters) :: t in waiters || (t in resumed && t in error && error[t] == Failed)
        invariant forall t | t in waiters :: t in old(waiters)
        invariant forall t | t in resumed :: t in old(resumed) || t in old(waiters)
        invariant want == old(want) && info == old(info) && ResumedKept({})
        decreases |waiters|
      {
        var t := waiters[0];
        Leaves(bits, waiters, 0, resumed, want, info, error, flag, prio, Failed);
        FirstLeaves(waiters);
        error := error[t := Failed];
        waiters := waiters[1..];
        resumed := resumed + {t};
      }
      FewerBits(bits, {}, waiters, resumed, want, info, error, flag, prio);
      bits := {};
      BackValid();
    }
  }
}
