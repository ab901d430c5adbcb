/** The hard timers: a skip list ordered by wrap-around comparison of 32-bit
    ticks, checked once per tick. */
module Timer {
  import opened Lists
  import opened Machine
  import opened SkipRows

  const TICK_MAX: int := WORD - 1
  const HALF: int := TICK_MAX / 2
  const MASK: int := 3          // RT_TIMER_SKIP_LIST_MASK
  const SHIFTED: int := 4       // two bits of the counter are tested per row

  datatype Timer = Timer(initTick: u32, timeoutTick: u32, periodic: bool, active: bool)

  predicate SameSettings(a: Timer, b: Timer) {
    a.initTick == b.initTick && a.periodic == b.periodic
  }

  /** A firing: which timer, and when. */
  datatype Fire = Fire(id: int, at: int)

  // ----- wrap-around comparison

  /** While two deadlines are less than half the tick range apart, the unsigned
      difference of their tick counts tells which one is later. */
  lemma WrapOrders(a: int, b: int)
    requires 0 <= a && 0 <= b && -HALF < a - b < HALF
    ensures Sub32(a % WORD, b % WORD) == 0 <==> a == b
    ensures 0 < Sub32(a % WORD, b % WORD) < HALF <==> a > b
  {
    var W: int := WORD;
    var x: int, y: int := a % W, b % W;
    var i, j := a / W, b / W;
    assert a == i * W + x && b == j * W + y;
    assert a - b == (i - j) * W + (x - y);
    if x >= y { Remainder(a - b, i - j, x - y); } else { Remainder(a - b, i - j - 1, x - y + W); }
    if a < b { Remainder(a - b, -1, a - b + W); }
  }

  lemma Remainder(n: int, q: int, r: int)
    requires n == q * WORD + r && 0 <= r < WORD
    ensures n % WORD == r
  {}

  /** The tick count and an interval add up modulo 2^32. */
  lemma Remainders(now: int, interval: int)
    requires now >= 0 && interval >= 0
    ensures (now % WORD + interval) % WORD == (now + interval) % WORD
  {
    var W: int := WORD;
    var n := now % W + interval;
    assert now == now / W * W + now % W;
    assert now + interval == (now / W + n / W) * W + n % W;
    Remainder(now + interval, now / W + n / W, n % W);
  }

  // ----- the system

  /** The timers in the rows, and what their tick counts stand for. */
  ghost predicate Ticks(dense: seq<int>, timers: map<int, Timer>, due: Keys) {
    forall t | t in dense :: t in timers && t in due && 0 <= due[t] && timers[t].timeoutTick == due[t] % WORD
  }

  /** Every timer's settings are within the limits: the interval that the code asserts, less the
      ticks by which a start may come late. */
  ghost predicate Settings(timers: map<int, Timer>, slack: nat) {
    forall t | t in timers :: timers[t].initTick + slack < HALF && (timers[t].periodic ==> timers[t].initTick > 0)
  }

  /** The deadlines lie from `lo` on and before `hi`. */
  ghost predicate Window(dense: seq<int>, due: Keys, lo: int, hi: int) {
    forall t | t in dense :: t in due && lo <= due[t] < hi
  }

  /** All deadlines are less than half the tick range away from `d`. */
  ghost predicate Near(dense: seq<int>, due: Keys, d: int) {
    forall t | t in dense :: t in due && -HALF < due[t] - d < HALF
  }

  /** How many of its densest rows a timer is linked into: one, and one more for
      each pair of low bits of the counter that is zero. */
  function Height(tst: u32, levels: nat): (h: nat)
    requires levels >= 1
    ensures 1 <= h <= levels
  {
    if levels == 1 || tst % (MASK + 1) != 0 then 1 else 1 + Height(tst / SHIFTED, levels - 1)
  }

  function PowerOfFour(k: nat): (m: nat)
    ensures m > 0
  {
    if k == 0 then 1 else 4 * PowerOfFour(k - 1)
  }

  lemma QuarterDivides(u: nat, m: nat)
    requires m > 0
    ensures 4 * u % (4 * m) == 0 <==> u % m == 0
  {
    if u % m == 0 {
      MultipleOf(u / m, 4 * m);
      assert 4 * u == u / m * (4 * m);
    }
    if 4 * u % (4 * m) == 0 {
      var q := 4 * u / (4 * m);
      MultipleOf(q, m);
      assert u == q * m;
    }
  }

  /** What is not divisible by four is not by a multiple of it. */
  lemma NoQuarter(n: nat, m: nat)
    requires m > 0 && n % 4 != 0
    ensures n % (4 * m) != 0
  {
    var q, r := n / (4 * m), n % (4 * m);
    assert n == q * (4 * m) + r;
    assert q * (4 * m) == 4 * (q * m);
  }

  /** A timer is in the row `k` above the densest one exactly if there is such a row and the counter is divisible
      by the `k`th power of four. */
  lemma {:induction false} HeightExactly(tst: u32, levels: nat, k: nat)
    requires levels >= 1
    ensures Height(tst, levels) > k <==> k < levels && tst % PowerOfFour(k) == 0
  {
    if k == 0 {
    } else if tst % 4 != 0 {
      NoQuarter(tst, PowerOfFour(k - 1));
    } else {
      QuarterDivides(tst / 4, PowerOfFour(k - 1));
      if levels > 1 { HeightExactly(tst / 4, levels - 1, k - 1); }
    }
  }

  /** A timer that is in no row can be given any deadline and any setting. */
  lemma UnlinkedTimer(dense: seq<int>, timers: map<int, Timer>, due: Keys, t: int, timer: Timer, d: int)
    requires Ticks(dense, timers, due) && t !in dense
    ensures Ticks(dense, timers[t := timer], due[t := d])
  {}

  lemma LinkedTimer(dense: seq<int>, timers: map<int, Timer>, due: Keys, p: nat, t: int)
    requires Ticks(dense, timers, due) && p <= |dense| && t in timers && t in due && 0 <= due[t]
    requires timers[t].timeoutTick == due[t] % WORD
    ensures Ticks(Ins(dense, p, t), timers, due)
  {
    hide Ins;
    InsMembers(dense, p, t);
  }

  lemma DelTicks(dense: seq<int>, timers: map<int, Timer>, due: Keys, t: int)
    requires Ticks(dense, timers, due)
    ensures Ticks(Del(dense, t), timers, due) && t !in Del(dense, t)
  {
    DelMembers(dense, t);
  }

  lemma TicksDue(dense: seq<int>, timers: map<int, Timer>, due: Keys)
    requires Ticks(dense, timers, due)
    ensures forall x | x in dense :: x in due
  {}

  lemma TicksKnown(dense: seq<int>, timers: map<int, Timer>, due: Keys)
    requires Ticks(dense, timers, due)
    ensures forall x | x in dense :: x in timers && x in due
  {}

  lemma TicksOf(dense: seq<int>, timers: map<int, Timer>, due: Keys, t: int, timer: Timer)
    requires Ticks(dense, timers, due) && t !in dense
    ensures Ticks(dense, timers[t := timer], due)
  {}

  lemma FlagOf(dense: seq<int>, timers: map<int, Timer>, t: int)
    requires Flagged(dense, timers) && t in timers
    ensures timers[t].active <==> t in dense
  {}

  lemma WaitingFlag(dense: seq<int>, timers: map<int, Timer>, due: Keys, now: int, slack: nat, t: int)
    requires Waiting(dense, timers, due, now, slack) && t in timers
    ensures timers[t].active <==> t in dense
  {}

  /** A deadline `d` that is linked in at `now` is overdue by no more than `slack`, and by less
      for a periodic timer. */
  predicate InTime(d: int, now: int, periodic: bool, slack: nat) {
    now - slack <= d && (periodic ==> now - slack < d)
  }

  lemma LinkKeeps(d: seq<int>, timers: map<int, Timer>, due: Keys, t: int, p: nat, now: int, slack: nat)
    requires Waiting(d, timers, due, now, slack) && t in timers && t !in d && p <= |d|
    requires t in due && InTime(due[t], now, timers[t].periodic, slack) && due[t] < now + HALF - slack
    ensures Waiting(Ins(d, p, t), timers[t := timers[t].(active := true)], due, now, slack)
  {
    hide Ins;
    InsMembers(d, p, t);
  }

  lemma EnterKeeps(d: seq<int>, timers: map<int, Timer>, due: Keys, t: int, timer: Timer, k: int, now: int, slack: nat)
    requires Waiting(d, timers, due, now, slack) && t in timers && SameSettings(timers[t], timer) && !timer.active
    ensures Waiting(Del(d, t), timers[t := timer], due[t := k], now, slack)
  {
    hide Del;
    DelMembers(d, t);
  }

  lemma StopKeeps(d: seq<int>, timers: map<int, Timer>, due: Keys, t: int, now: int, slack: nat)
    requires Waiting(d, timers, due, now, slack) && t in timers
    ensures Waiting(Del(d, t), timers[t := timers[t].(active := false)], due, now, slack)
  {
    hide Del;
    DelMembers(d, t);
  }

  /** Deadlines in a window of half the tick range are near each other. */
  lemma NearWindow(dense: seq<int>, due: Keys, lo: int, d: int)
    requires Window(dense, due, lo, lo + HALF) && lo <= d < lo + HALF
    ensures Near(dense, due, d)
  {}

  lemma WindowDel(dense: seq<int>, due: Keys, t: int, d: int, lo: int, hi: int)
    requires forall x | x in dense && x != t :: x in due && lo <= due[x] < hi
    ensures Window(Del(dense, t), due[t := d], lo, hi)
  {
    DelMembers(dense, t);
  }

  /** Periodic timers in the rows are not overdue by more than the start came late. */
  ghost predicate OnTime(dense: seq<int>, timers: map<int, Timer>, due: Keys, lo: int) {
    forall t | t in dense && t in timers && timers[t].periodic :: t in due && due[t] >= lo
  }

  /** A timer is marked active exactly when it is in the rows. */
  ghost predicate Flagged(dense: seq<int>, timers: map<int, Timer>) {
    forall t | t in timers :: timers[t].active <==> t in dense
  }

  /** Between two checks: no timer is overdue, and periodic ones lie in the future, except for
      those whose start came late. */
  ghost predicate Waiting(dense: seq<int>, timers: map<int, Timer>, due: Keys, now: int, slack: nat) {
    && Flagged(dense, timers)
    && Window(dense, due, now - slack, now + HALF - slack)
    && forall t | t in dense && t in timers && t in due && timers[t].periodic :: due[t] > now - slack
  }

  /** The timers between the two sections of a start are in no row and have their deadline. */
  ghost predicate Opened(opening: set<int>, dense: seq<int>, timers: map<int, Timer>, due: Keys, now: int) {
    forall t | t in opening ::
      && t in timers && t in due && t !in dense && timers[t].timeoutTick == due[t] % WORD
      && 0 <= due[t] <= now + timers[t].initTick
  }

  lemma OpenedEnter(opening: set<int>, d: seq<int>, timers: map<int, Timer>, due: Keys, t: int, timer: Timer, k: int,
                    now: int)
    requires Opened(opening, d, timers, due, now) && 0 <= k <= now + timer.initTick && timer.timeoutTick == k % WORD
    ensures Opened(opening + {t}, Del(d, t), timers[t := timer], due[t := k], now)
  {
    hide Del;
    DelMembers(d, t);
  }

  lemma OpenedFinish(opening: set<int>, d: seq<int>, timers: map<int, Timer>, due: Keys, t: int, p: nat, timer: Timer,
                     now: int)
    requires Opened(opening, d, timers, due, now) && p <= |d|
    ensures Opened(opening - {t}, Ins(d, p, t), timers[t := timer], due, now)
  {
    hide Ins;
    InsMembers(d, p, t);
  }

  lemma OpenedStop(opening: set<int>, d: seq<int>, timers: map<int, Timer>, due: Keys, t: int, now: int)
    requires Opened(opening, d, timers, due, now) && t in timers
    ensures Opened(opening, Del(d, t), timers[t := timers[t].(active := false)], due, now)
  {
    hide Del;
    DelMembers(d, t);
  }

  lemma OpenedTick(opening: set<int>, d: seq<int>, timers: map<int, Timer>, due: Keys, fired: seq<int>, d2: seq<int>,
                   timers2: map<int, Timer>, due2: Keys, now: int)
    requires Opened(opening, d, timers, due, now) && Flagged(d, timers) && Flagged(d2, timers2)
    requires Effect(fired, timers, due, timers2, due2, now + 1) && forall x | x in fired :: x in d
    ensures Opened(opening, d2, timers2, due2, now + 1)
  {
    forall t | t in opening ensures t in timers && Untouched(timers, due, timers2, due2, t) {}
  }

  /** Timer `t` after a time-out at `now`: a periodic one runs again, one that is not has stopped. */
  ghost predicate Renewed(timers: map<int, Timer>, due: Keys, timers2: map<int, Timer>, due2: Keys, t: int, now: int)
    requires t in timers
  {
    && t in timers2
    && (timers[t].periodic ==>
          && t in due2 && due2[t] == now + timers[t].initTick
          && timers2[t] == timers[t].(timeoutTick := due2[t] % WORD, active := true))
    && (!timers[t].periodic ==> timers2[t] == timers[t].(active := false))
  }

  /** Timer `t` is as before. */
  ghost predicate Untouched(timers: map<int, Timer>, due: Keys, timers2: map<int, Timer>, due2: Keys, t: int)
    requires t in timers
  {
    t in timers2 && timers2[t] == timers[t] && (t in due ==> t in due2 && due2[t] == due[t])
  }

  /** The first of the rows after its head has been fired. */
  lemma HeadFacts(rows: seq<seq<int>>, key: Keys)
    requires Rows(rows, key) && Dense(rows) != []
    ensures var d := Dense(rows);
      && Del(d, d[0]) == d[1..] && d[0] !in d[1..] && Sorted(d, key)
      && (forall x | x in d[1..] :: x in d && x in key && d[0] in key && key[d[0]] <= key[x])
  {
    var d := Dense(rows);
    DelHead(d, key);
    SortedTail(d, key);
    DelMembers(d, d[0]);
  }

  /** What the check relies on is kept when the first timer stops ... */
  lemma AfterStop(d: seq<int>, timers: map<int, Timer>, due: Keys, timers2: map<int, Timer>, now: int, lo: int,
                  slack: nat)
    requires d != [] && d[0] in timers && d[0] !in d[1..]
    requires Flagged(d, timers) && Window(d, due, lo - 1, now + HALF - slack) && OnTime(d, timers, due, lo)
    requires timers2 == timers[d[0] := timers[d[0]].(active := false)]
    ensures Flagged(d[1..], timers2) && Window(d[1..], due, lo - 1, now + HALF - slack)
    ensures OnTime(d[1..], timers2, due, lo)
    ensures forall x | x in timers2 && x != d[0] :: Untouched(timers, due, timers2, due, x)
  {
    forall x ensures x in d <==> x == d[0] || x in d[1..] {}
  }

  /** ... and when it is started again. */
  lemma AfterRestart(d: seq<int>, timers: map<int, Timer>, due: Keys, timers2: map<int, Timer>, due2: Keys, p: nat,
                     now: int, lo: int, slack: nat)
    requires d != [] && d[0] in timers && d[0] !in d[1..] && p <= |d[1..]|
    requires Flagged(d, timers) && Window(d, due, lo - 1, now + HALF - slack) && OnTime(d, timers, due, lo)
    requires timers[d[0]].initTick + slack < HALF && due2 == due[d[0] := now + timers[d[0]].initTick] && lo <= now
    requires timers2 == timers[d[0] := timers[d[0]].(timeoutTick := due2[d[0]] % WORD, active := true)]
    ensures var r := Ins(d[1..], p, d[0]);
      Flagged(r, timers2) && Window(r, due2, lo - 1, now + HALF - slack) && OnTime(r, timers2, due2, lo)
    ensures forall x | x in timers2 && x != d[0] :: Untouched(timers, due, timers2, due2, x)
  {
    hide Ins;
    forall x ensures x in d <==> x == d[0] || x in d[1..] {}
    InsMembers(d[1..], p, d[0]);
  }

  /** Before a restart, all other timers are within reach of the comparison. */
  lemma RestartWindow(d: seq<int>, timers: map<int, Timer>, due: Keys, now: int, lo: int, slack: nat)
    requires d != [] && d[0] in timers && timers[d[0]].periodic
    requires forall x | x in d[1..] :: x in d && x in due && d[0] in due && due[d[0]] <= due[x]
    requires Window(d, due, lo - 1, now + HALF - slack) && OnTime(d, timers, due, lo)
    ensures forall x | x in d[1..] && x != d[0] :: x in due && lo <= due[x] < now + HALF - slack
  {
    var head := d[0];
    assert head in d;
  }

  // ----- a whole check

  function Fires(ids: seq<int>, at: int): seq<Fire> {
    seq(|ids|, i requires 0 <= i < |ids| => Fire(ids[i], at))
  }

  /** After `k` time-outs: the timers still due come first, in the old order, and
      all others are due later. */
  ghost predicate Pending(d: seq<int>, old0: seq<int>, k: nat, n: nat, due: Keys, now: int) {
    && k <= n <= |old0| && n - k <= |d| && d[..n - k] == old0[k..n]
    && (forall i | 0 <= i < |d| :: d[i] in due)
    && (forall i | 0 <= i < n - k :: due[d[i]] <= now)
    && (forall i | n - k <= i < |d| :: due[d[i]] > now)
  }

  lemma PendingFirst(d: seq<int>, old0: seq<int>, k: nat, n: nat, due: Keys, now: int)
    requires Pending(d, old0, k, n, due, now) && d != []
    ensures d[0] in due && (due[d[0]] <= now <==> k < n)
    ensures k < n ==> k < |old0| && d[0] == old0[k]
  {
    if k < n { assert d[..n - k][0] == old0[k..n][0]; }
  }

  lemma PendingStop(d: seq<int>, old0: seq<int>, k: nat, n: nat, due: Keys, due2: Keys, now: int)
    requires Pending(d, old0, k, n, due, now) && d != [] && k < n
    requires forall x | x in d[1..] :: x in due2 && (x in due ==> due2[x] == due[x])
    ensures Pending(d[1..], old0, k + 1, n, due2, now)
  {
    var r := d[1..];
    forall i | 0 <= i < |r| ensures r[i] == d[i + 1] && r[i] in due2 && due2[r[i]] == due[d[i + 1]] {
      var x := r[i];
      assert x in r;
    }
    assert r[..n - k - 1] == d[..n - k][1..];
    assert old0[k + 1..n] == old0[k..n][1..];
  }

  lemma PendingRestart(r: seq<int>, old0: seq<int>, k: nat, n: nat, due: Keys, now: int, p: nat, t: int)
    requires Pending(r, old0, k, n, due, now) && p <= |r| && t in due && due[t] > now && IsPlace(r, due, due[t], p)
    ensures Pending(Ins(r, p, t), old0, k, n, due, now)
  {
    var s := Ins(r, p, t);
    assert p < |r| ==> due[r[p]] > due[t];
    forall i: nat | i < |s| ensures s[i] == if i < p then r[i] else if i == p then t
      else r[i - 1] { InsAt(r, p, t, i); }
    assert s[..n - k] == r[..n - k];
  }

  lemma PendingStart(d: seq<int>, due: Keys, now: int, n: nat)
    requires IsPlace(d, due, now, n)
    ensures Pending(d, d, 0, n, due, now)
  {}

  /** With the first timer not due, all have been fired that were. */
  lemma PendingDone(d: seq<int>, old0: seq<int>, k: nat, n: nat, due: Keys, now: int)
    requires Pending(d, old0, k, n, due, now)
    requires d == [] || (d[0] in due && due[d[0]] > now)
    ensures k == n && forall x | x in d :: x in due && due[x] > now
  {
    if d != [] { PendingFirst(d, old0, k, n, due, now); }
  }

  lemma PendingFired(d: seq<int>, old0: seq<int>, k: nat, n: nat, timers: map<int, Timer>, due: Keys,
                     timers2: map<int, Timer>, due2: Keys, now: int, p: nat, d2: seq<int>)
    requires Pending(d, old0, k, n, due, now) && d != [] && k < n && d[0] in timers && d[0] !in d[1..]
    requires Renewed(timers, due, timers2, due2, d[0], now)
    requires timers[d[0]].periodic ==> timers[d[0]].initTick > 0
    requires forall x | x in d[1..] :: x in timers && x in due && Untouched(timers, due, timers2, due2, x)
    requires if timers[d[0]].periodic
      then p <= |d[1..]| && d[0] in due2 && IsPlace(d[1..], due2, due2[d[0]], p) && d2 == Ins(d[1..], p, d[0])
      else d2 == d[1..]
    ensures Pending(d2, old0, k + 1, n, due2, now)
  {
    forall x | x in d[1..] ensures x in due2 && due2[x] == due[x] {
      assert Untouched(timers, due, timers2, due2, x);
    }
    hide Pending, IsPlace, Ins;
    PendingStop(d, old0, k, n, due, due2, now);
    if timers[d[0]].periodic {
      PendingRestart(d[1..], old0, k + 1, n, due2, now, p, d[0]);
    }
  }

  lemma HeadFacts2(rows: seq<seq<int>>, key: Keys)
    requires Rows(rows, key)
    ensures Sorted(Dense(rows), key)
  {}

  /** The code's test for a timer being due. */
  lemma DueTest(now: int, d: int)
    requires now >= 0 && d >= 0 && now - HALF < d < now + HALF
    ensures Sub32(now % WORD, d % WORD) < HALF <==> d <= now
  {
    WrapOrders(now, d);
  }

  lemma Prefix(old0: seq<int>, due: Keys, k: nat)
    requires Sorted(old0, due) && k < |old0|
    ensures old0[k] !in old0[..k]
    ensures forall x :: x in old0[..k + 1] <==> x in old0[..k] || x == old0[k]
  {
    assert old0[..k + 1] == old0[..k] + [old0[k]];
  }

  lemma {:induction false} PlaceExists(row: seq<int>, key: Keys, k: int) returns (p: nat)
    requires Sorted(row, key)
    ensures IsPlace(row, key, k, p)
  {
    p := 0;
    forall i | 0 <= i < |row| ensures row[i] in key { var x := row[i]; assert x in row; }
    while p < |row| && key[row[p]] <= k
      invariant p <= |row| && forall i | 0 <= i < p :: key[row[i]] <= k
    {
      p := p + 1;
    }
  }

  /** The effect of a check on every timer: the fired ones are renewed, the others untouched. */
  ghost predicate Effect(fired: seq<int>, timers: map<int, Timer>, due: Keys, timers2: map<int, Timer>, due2: Keys,
                         now: int)
  {
    && timers2.Keys == timers.Keys
    && (forall t | t in timers && t in fired :: Renewed(timers, due, timers2, due2, t, now))
    && (forall t | t in timers && t !in fired :: Untouched(timers, due, timers2, due2, t))
  }

  lemma EffectNone(timers: map<int, Timer>, due: Keys, now: int)
    ensures Effect([], timers, due, timers, due, now)
  {}

  lemma EffectStep(fired: seq<int>, t: int, timers: map<int, Timer>, due: Keys, timers1: map<int, Timer>, due1: Keys,
                   timers2: map<int, Timer>, due2: Keys, now: int)
    requires Effect(fired, timers, due, timers1, due1, now) && t !in fired && t in timers
      && timers2.Keys == timers1.Keys
    requires t in timers1 && Renewed(timers1, due1, timers2, due2, t, now)
    requires forall x | x in timers2 && x in timers1 && x != t :: Untouched(timers1, due1, timers2, due2, x)
    ensures Effect(fired + [t], timers, due, timers2, due2, now)
  {
    assert Untouched(timers, due, timers1, due1, t);
    forall x | x in timers && x in fired + [t] ensures Renewed(timers, due, timers2, due2, x, now) {
      if x != t {
        assert x in fired && Renewed(timers, due, timers1, due1, x, now) && Untouched(timers1, due1, timers2, due2, x);
      }
    }
    forall x | x in timers && x !in fired + [t] ensures Untouched(timers, due, timers2, due2, x) {
      assert Untouched(timers, due, timers1, due1, x) && Untouched(timers1, due1, timers2, due2, x);
    }
  }

  // ----- one timer over time

  /** Not running; between the two sections of a start; in the rows. */
  datatype Phase = Stopped | Opening(due: int) | Armed(due: int)

  ghost function PhaseOf(dense: seq<int>, due: Keys, opening: set<int>, t: int): Phase {
    if t in dense && t in due then Armed(due[t])
    else if t in opening && t in due then Opening(due[t])
    else Stopped
  }

  predicate FiresAt(ph: Phase, now: int) {
    ph.Armed? && ph.due <= now
  }

  /** What the check at tick `now` makes of a timer. */
  function Step(ph: Phase, now: int, interval: int, periodic: bool): Phase {
    if !FiresAt(ph, now) then ph else if periodic then Armed(now + interval) else Stopped
  }

  /** When a timer fires during the `n` ticks after `now`. */
  function FireTimes(ph: Phase, now: int, n: nat, interval: int, periodic: bool): seq<int>
    decreases n
  {
    if n == 0 then []
    else (if FiresAt(ph, now + 1) then [now + 1] else [])
         + FireTimes(Step(ph, now + 1, interval, periodic), now + 1, n - 1, interval, periodic)
  }

  /** The multiples of `interval` from `d` up to `last`. */
  function Every(d: int, interval: int, last: int): seq<int>
    requires interval > 0
    decreases last - d
  {
    if d > last then [] else [d] + Every(d + interval, interval, last)
  }

  /** One firing after the other, `interval` apart, from `d` on and up to `last`, and none is left out. */
  lemma {:induction false} EveryExactly(d: int, interval: int, last: int, i: nat)
    requires interval > 0
    ensures var e := Every(d, interval, last);
      && (i < |e| <==> d + i * interval <= last)
      && (i < |e| ==> e[i] == d + i * interval)
    decreases i
  {
    if i == 0 {
    } else {
      assert i * interval == interval + (i - 1) * interval;
      if d > last {
        assert (i - 1) * interval >= 0;
      } else {
        EveryExactly(d + interval, interval, last, i - 1);
      }
    }
  }

  lemma {:induction false} PeriodicAhead(d: int, now: int, n: nat, interval: int)
    requires interval > 0 && d > now
    ensures FireTimes(Armed(d), now, n, interval, true) == Every(d, interval, now + n)
    decreases n
  {
    if n == 0 {
    } else if d == now + 1 {
      PeriodicAhead(now + 1 + interval, now + 1, n - 1, interval);
    } else {
      PeriodicAhead(d, now + 1, n - 1, interval);
    }
  }

  /** A deadline that is not in the future is as good as the next tick. */
  lemma LateIsNext(d: int, now: int, n: nat, interval: int, periodic: bool)
    requires d <= now
    ensures FireTimes(Armed(d), now, n, interval, periodic) == FireTimes(Armed(now + 1), now, n, interval, periodic)
  {}

  /** A periodic timer fires at its deadline, or at the next tick if that is not in the future,
      and every interval after it, without drift. */
  lemma PeriodicNoDrift(d: int, now: int, n: nat, interval: int)
    requires interval > 0
    ensures FireTimes(Armed(d), now, n, interval, true) == Every(if d > now then d else now + 1, interval, now + n)
  {
    if d > now {
      PeriodicAhead(d, now, n, interval);
    } else {
      LateIsNext(d, now, n, interval, true);
      PeriodicAhead(now + 1, now, n, interval);
    }
  }

  /** A one-shot timer fires exactly once, at its deadline, or at the next tick if
      the deadline is not in the future. */
  lemma {:induction false} OneShotOnce(d: int, now: int, n: nat, interval: int)
    ensures FireTimes(Armed(d), now, n, interval, false)
      == var at := if d > now then d else now + 1; if at <= now + n then [at] else []
    decreases n
  {
    if n == 0 {
    } else {
      if d <= now + 1 {
        StoppedNever(now + 1, n - 1, interval);
      } else {
        OneShotOnce(d, now + 1, n - 1, interval);
      }
    }
  }

  lemma {:induction false} StoppedNever(now: int, n: nat, interval: int)
    ensures FireTimes(Stopped, now, n, interval, false) == []
    decreases n
  {
    if n == 0 {
    } else {
      StoppedNever(now + 1, n - 1, interval);
    }
  }

  /** A check fires exactly the timers whose deadline has come, and takes each one step. */
  lemma CheckSteps(d: seq<int>, timers: map<int, Timer>, due: Keys, n: nat, d2: seq<int>, timers2: map<int, Timer>,
                   due2: Keys, opening: set<int>, now: int, t: int)
    requires n <= |d| && IsPlace(d, due, now, n) && Effect(d[..n], timers, due, timers2, due2, now) && t in timers
    requires Flagged(d, timers) && Flagged(d2, timers2) && Ticks(d, timers, due) && Ticks(d2, timers2, due2)
    requires t in opening ==> t !in d && t in due
    ensures t in d[..n] <==> FiresAt(PhaseOf(d, due, opening, t), now)
    ensures PhaseOf(d2, due2, opening, t)
      == Step(PhaseOf(d, due, opening, t), now, timers[t].initTick, timers[t].periodic)
  {
    if t in d[..n] {
      var i :| 0 <= i < n && d[i] == t;
      assert t in d && due[d[i]] <= now;
      assert Renewed(timers, due, timers2, due2, t, now);
    } else {
      if t in d {
        forall k | 0 <= k < n ensures d[k] != t { assert d[k] == d[..n][k]; }
        var i :| 0 <= i < |d| && d[i] == t;
        assert due[d[i]] > now;
      }
      assert Untouched(timers, due, timers2, due2, t);
    }
  }

  /** When timer `t` fired, according to the log. */
  ghost function FiredAt(log: seq<Fire>, t: int): seq<int> {
    if log == [] then []
    else
      var last := log[|log| - 1];
      FiredAt(log[..|log| - 1], t) + if last.id == t then [last.at] else []
  }

  lemma {:induction false} FiredConcat(a: seq<Fire>, b: seq<Fire>, t: int)
    ensures FiredAt(a + b, t) == FiredAt(a, t) + FiredAt(b, t)
    decreases |b|
  {
    if b == [] {
      assert a + b == a;
    } else {
      var c := b[..|b| - 1];
      assert (a + b)[..|a + b| - 1] == a + c;
      FiredConcat(a, c, t);
    }
  }

  lemma FiredLast(log: seq<Fire>, f: Fire, t: int)
    ensures FiredAt(log + [f], t) == FiredAt(log, t) + if f.id == t then [f.at] else []
  {
    var l := log + [f];
    assert l[..|l| - 1] == log && l[|l| - 1] == f;
  }

  lemma FiresLast(ids: seq<int>, last: int, at: int)
    ensures Fires(ids + [last], at) == Fires(ids, at) + [Fire(last, at)]
  {}

  lemma FrontDiffers(ids: seq<int>)
    requires ids != [] && forall i, j | 0 <= i < j < |ids| :: ids[i] != ids[j]
    ensures var front, last := ids[..|ids| - 1], ids[|ids| - 1];
      && ids == front + [last] && last !in front
      && forall i, j | 0 <= i < j < |front| :: front[i] != front[j]
  {}

  lemma {:induction false} FiredOnce(ids: seq<int>, at: int, t: int)
    requires forall i, j | 0 <= i < j < |ids| :: ids[i] != ids[j]
    ensures FiredAt(Fires(ids, at), t) == if t in ids then [at] else []
    decreases |ids|
  {
    if ids == [] {
      assert Fires(ids, at) == [];
    } else {
      var front, last := ids[..|ids| - 1], ids[|ids| - 1];
      FrontDiffers(ids);
      hide FiredAt, Fires;
      FiredOnce(front, at, t);
      FiresLast(front, last, at);
      FiredLast(Fires(front, at), Fire(last, at), t);
      assert t in ids <==> t in front || t == last;
    }
  }

  // ----- runs with starts and stops

  /** A tick, the two sections of a start, a stop. */
  datatype Act = Tick | Enter(id: int) | Finish(id: int) | Stop(id: int)

  function NowAfter(act: Act, now: int): int {
    if act.Tick? then now + 1 else now
  }

  /** What one act makes of timer `t`: the first section of a start takes it out, the second arms
      it, and a stop between them is refused. */
  function After(act: Act, t: int, ph: Phase, now: int, interval: int, periodic: bool): Phase {
    match act
    case Tick => Step(ph, now + 1, interval, periodic)
    case Enter(u) => if u == t then Opening(now + interval) else ph
    case Finish(u) => if u == t && ph.Opening? then Armed(ph.due) else ph
    case Stop(u) => if u == t && ph.Armed? then Stopped else ph
  }

  function TicksIn(acts: seq<Act>): nat {
    if acts == [] then 0 else TicksIn(acts[1..]) + if acts[0].Tick? then 1 else 0
  }

  /** When timer `t` fires during the run `acts` that begins after tick `now`. */
  function Schedule(ph: Phase, now: int, acts: seq<Act>, t: int, interval: int, periodic: bool): seq<int>
    decreases |acts|
  {
    if acts == [] then []
    else
      (if acts[0].Tick? && FiresAt(ph, now + 1) then [now + 1] else [])
      + Schedule(After(acts[0], t, ph, now, interval, periodic), NowAfter(acts[0], now), acts[1..], t, interval,
                 periodic)
  }

  /** Whether `act` may come next for a timer in phase `ph`: a start is finished only while it is
      open, and not too late. */
  predicate Allows(act: Act, t: int, ph: Phase, now: int, periodic: bool, slack: nat) {
    act == Finish(t) ==> ph.Opening? && InTime(ph.due, now, periodic, slack)
  }

  /** The starts of timer `t` in a run do not overlap, and none takes too long. */
  predicate Timely(ph: Phase, now: int, acts: seq<Act>, t: int, interval: int, periodic: bool, slack: nat)
    decreases |acts|
  {
    acts == []
    || (&& Allows(acts[0], t, ph, now, periodic, slack)
        && Timely(After(acts[0], t, ph, now, interval, periodic), NowAfter(acts[0], now), acts[1..], t, interval,
                  periodic, slack))
  }

  /** Nothing in the run starts or stops timer `t`. */
  ghost predicate LeftAlone(acts: seq<Act>, t: int) {
    forall a | a in acts :: a.Tick? || a.id != t
  }

  lemma ScheduleStep(ph: Phase, now: int, rest: seq<Act>, t: int, interval: int, periodic: bool)
    requires rest != []
    ensures Schedule(ph, now, rest, t, interval, periodic)
      == (if rest[0].Tick? && FiresAt(ph, now + 1) then [now + 1] else [])
         + Schedule(After(rest[0], t, ph, now, interval, periodic), NowAfter(rest[0], now), rest[1..], t, interval,
                    periodic)
  {}

  lemma NothingLeft(ph: Phase, now: int, t: int, interval: int, periodic: bool)
    ensures Schedule(ph, now, [], t, interval, periodic) == [] && FireTimes(ph, now, 0, interval, periodic) == []
  {}

  lemma FireTimesStep(ph: Phase, now: int, n: nat, interval: int, periodic: bool)
    requires n > 0
    ensures FireTimes(ph, now, n, interval, periodic)
      == (if FiresAt(ph, now + 1) then [now + 1] else [])
         + FireTimes(Step(ph, now + 1, interval, periodic), now + 1, n - 1, interval, periodic)
  {}

  /** Starts and stops of other timers do not matter: left alone, a timer does in any run
      what it does in a run of that many ticks. */
  lemma {:induction false} OthersDoNotMatter(ph: Phase, now: int, acts: seq<Act>, t: int, interval: int, periodic: bool)
    requires LeftAlone(acts, t)
    ensures Schedule(ph, now, acts, t, interval, periodic) == FireTimes(ph, now, TicksIn(acts), interval, periodic)
    decreases |acts|
  {
    hide Schedule, FireTimes, FiresAt, Step;
    if acts == [] {
      NothingLeft(ph, now, t, interval, periodic);
    } else {
      assert acts[0] in acts;
      ScheduleStep(ph, now, acts, t, interval, periodic);
      OthersDoNotMatter(After(acts[0], t, ph, now, interval, periodic), NowAfter(acts[0], now), acts[1..], t, interval,
        periodic);
      if acts[0].Tick? {
        FireTimesStep(ph, now, TicksIn(acts), interval, periodic);
      }
    }
  }

  lemma OpenNeverFires(d: int, now: int)
    ensures !FiresAt(Opening(d), now)
  {}

  /** While its start is open a timer does not fire, whatever is done to others. */
  lemma {:induction false} OpenUntilFinished(d: int, now: int, between: seq<Act>, acts: seq<Act>, t: int, interval: int,
                                             periodic: bool)
    requires LeftAlone(between, t) && LeftAlone(acts, t)
    ensures var from := now + TicksIn(between);
      Schedule(Opening(d), now, between + [Finish(t)] + acts, t, interval, periodic)
      == FireTimes(Armed(d), from, TicksIn(acts), interval, periodic)
    decreases |between|
  {
    hide Schedule, FireTimes, FiresAt;
    var all := between + [Finish(t)] + acts;
    ScheduleStep(Opening(d), now, all, t, interval, periodic);
    if between == [] {
      assert all[0] == Finish(t) && all[1..] == acts;
      OthersDoNotMatter(Armed(d), now, acts, t, interval, periodic);
    } else {
      assert between[0] in between;
      assert all[0] == between[0] && all[1..] == between[1..] + [Finish(t)] + acts;
      OpenNeverFires(d, now + 1);
      OpenUntilFinished(d, NowAfter(between[0], now), between[1..], acts, t, interval, periodic);
    }
  }

  /** A timer started in mid-run and then left alone fires as its deadline says, whatever it and
      the others did before and however many ticks fall between the sections of its start. */
  lemma {:induction false} StartsAfresh(ph: Phase, now: int, before: seq<Act>, between: seq<Act>, acts: seq<Act>,
                                        t: int, interval: int, periodic: bool)
    requires LeftAlone(between, t) && LeftAlone(acts, t)
    ensures var entered := now + TicksIn(before); var from := entered + TicksIn(between);
      Schedule(ph, now, before + [Enter(t)] + (between + [Finish(t)] + acts), t, interval, periodic)
      == Schedule(ph, now, before, t, interval, periodic)
         + FireTimes(Armed(entered + interval), from, TicksIn(acts), interval, periodic)
    decreases |before|
  {
    hide Schedule, FireTimes, FiresAt, Step;
    var rest := between + [Finish(t)] + acts;
    var all := before + [Enter(t)] + rest;
    ScheduleStep(ph, now, all, t, interval, periodic);
    if before == [] {
      NothingLeft(ph, now, t, interval, periodic);
      assert all[0] == Enter(t) && all[1..] == rest;
      OpenUntilFinished(now + interval, now, between, acts, t, interval, periodic);
    } else {
      assert all[0] == before[0] && all[1..] == before[1..] + [Enter(t)] + rest;
      ScheduleStep(ph, now, before, t, interval, periodic);
      StartsAfresh(After(before[0], t, ph, now, interval, periodic), NowAfter(before[0], now), before[1..], between,
        acts, t, interval, periodic);
    }
  }

  /** So a one-shot timer fires exactly once: at its deadline, or at the first tick after the
      start was finished if that is later; ... */
  lemma OneShotAmidOthers(now: int, between: seq<Act>, acts: seq<Act>, t: int, interval: int)
    requires LeftAlone(between, t) && LeftAlone(acts, t)
    ensures var from := now + TicksIn(between);
      var at := if now + interval > from then now + interval else from + 1;
      Schedule(Opening(now + interval), now, between + [Finish(t)] + acts, t, interval, false)
      == if at <= from + TicksIn(acts) then [at] else []
  {
    hide Schedule, FireTimes;
    OpenUntilFinished(now + interval, now, between, acts, t, interval, false);
    OneShotOnce(now + interval, now + TicksIn(between), TicksIn(acts), interval);
  }

  /** ... and a periodic one then, and at every interval from there on. */
  lemma PeriodicAmidOthers(now: int, between: seq<Act>, acts: seq<Act>, t: int, interval: int)
    requires LeftAlone(between, t) && LeftAlone(acts, t) && interval > 0
    ensures var from := now + TicksIn(between);
      Schedule(Opening(now + interval), now, between + [Finish(t)] + acts, t, interval, true)
      == Every(if now + interval > from then now + interval else from + 1, interval, from + TicksIn(acts))
  {
    hide Schedule, FireTimes, Every;
    OpenUntilFinished(now + interval, now, between, acts, t, interval, true);
    PeriodicNoDrift(now + interval, now + TicksIn(between), TicksIn(acts), interval);
  }

  /** Two starts of one timer that overlap, each entered before the other is finished, are not timely. */
  lemma OverlappingStarts(ph: Phase, now: int, t: int, interval: int, periodic: bool, slack: nat)
    ensures !Timely(ph, now, [Enter(t), Enter(t), Finish(t), Finish(t)], t, interval, periodic, slack)
  {
    var d := now + interval;
    var one, two, three := [Finish(t)], [Finish(t), Finish(t)], [Enter(t), Finish(t), Finish(t)];
    assert two[1..] == one && three[1..] == two && [Enter(t), Enter(t), Finish(t), Finish(t)][1..] == three;
    assert !Timely(Armed(d), now, one, t, interval, periodic, slack);
    assert !Timely(Opening(d), now, two, t, interval, periodic, slack);
    assert !Timely(Opening(d), now, three, t, interval, periodic, slack);
  }

  /** Rightly so: the second would link the timer into a row that it is in already. */
  lemma LinkedTwice(row: seq<int>, key: Keys, p: nat, t: int)
    requires t in row && p <= |row|
    ensures !Sorted(Ins(row, p, t), key)
  {
    var i :| 0 <= i < |row| && row[i] == t;
    var r := Ins(row, p, t);
    var j := if i < p then i else i + 1;
    assert r[j] == t && r[p] == t;
    assert j < p || p < j;
  }

  /** A timer in mid-run: what it has done so far and what it would do in the rest of the run
      make up its schedule of the whole. */
  ghost predicate OnSchedule(log: seq<Fire>, t: int, start: Phase, from: int, acts: seq<Act>, ph: Phase, now: int,
                             rest: seq<Act>, interval: int, periodic: bool)
  {
    Schedule(start, from, acts, t, interval, periodic)
    == FiredAt(log, t) + Schedule(ph, now, rest, t, interval, periodic)
  }

  lemma StepOnSchedule(log: seq<Fire>, ids: seq<int>, t: int, start: Phase, from: int, acts: seq<Act>, ph: Phase,
                       now: int, rest: seq<Act>, interval: int, periodic: bool)
    requires OnSchedule(log, t, start, from, acts, ph, now, rest, interval, periodic) && rest != []
    requires forall i, j | 0 <= i < j < |ids| :: ids[i] != ids[j]
    requires t in ids <==> rest[0].Tick? && FiresAt(ph, now + 1)
    ensures OnSchedule(log + Fires(ids, now + 1), t, start, from, acts, After(rest[0], t, ph, now, interval, periodic),
                       NowAfter(rest[0], now), rest[1..], interval, periodic)
  {
    hide Schedule, FiredAt, Fires, FiresAt, After, NowAfter;
    FiredConcat(log, Fires(ids, now + 1), t);
    FiredOnce(ids, now + 1, t);
    ScheduleStep(ph, now, rest, t, interval, periodic);
    var todo := Schedule(After(rest[0], t, ph, now, interval, periodic), NowAfter(rest[0], now), rest[1..], t, interval,
                         periodic);
    Regroup(FiredAt(log, t), if t in ids then [now + 1] else [], todo);
  }

  lemma Regroup(a: seq<int>, b: seq<int>, c: seq<int>)
    ensures a + (b + c) == a + b + c
  {}

  /** One act at `now` that fired the first `n` timers, each once: those that were due, if it was a
      tick; every timer's phase moves on as the act says. */
  ghost predicate Acted(act: Act, d: seq<int>, timers: map<int, Timer>, due: Keys, opening: set<int>, n: nat,
                        d2: seq<int>, timers2: map<int, Timer>, due2: Keys, opening2: set<int>, now: int)
  {
    && n <= |d| && timers2.Keys == timers.Keys
    && (forall i, j | 0 <= i < j < n :: d[i] != d[j])
    && forall t | t in timers && t in timers2 ::
      && (t in d[..n] <==> act.Tick? && FiresAt(PhaseOf(d, due, opening, t), now + 1))
      && PhaseOf(d2, due2, opening2, t)
         == After(act, t, PhaseOf(d, due, opening, t), now, timers[t].initTick, timers[t].periodic)
      && SameSettings(timers[t], timers2[t])
  }

  lemma EnterActs(d: seq<int>, timers: map<int, Timer>, due: Keys, opening: set<int>, t: int, timer: Timer, now: int)
    requires t in timers && SameSettings(timers[t], timer)
    ensures Acted(Enter(t), d, timers, due, opening, 0, Del(d, t), timers[t := timer],
                  due[t := now + timers[t].initTick], opening + {t}, now)
  {
    hide Del;
    DelMembers(d, t);
    assert timers[t := timer].Keys == timers.Keys;
  }

  lemma FinishActs(d: seq<int>, timers: map<int, Timer>, due: Keys, opening: set<int>, t: int, p: nat, timer: Timer,
                   now: int)
    requires t in timers && t in opening && t in due && t !in d && p <= |d| && SameSettings(timers[t], timer)
    ensures Acted(Finish(t), d, timers, due, opening, 0, Ins(d, p, t), timers[t := timer], due, opening - {t}, now)
  {
    hide Ins;
    InsMembers(d, p, t);
    assert timers[t := timer].Keys == timers.Keys;
  }

  lemma StopActs(d: seq<int>, timers: map<int, Timer>, due: Keys, opening: set<int>, t: int, timer: Timer, now: int)
    requires t in timers && SameSettings(timers[t], timer) && (forall x | x in d :: x in due)
    requires t in opening ==> t !in d
    ensures Acted(Stop(t), d, timers, due, opening, 0, Del(d, t), timers[t := timer], due, opening, now)
  {
    hide Del;
    DelMembers(d, t);
    assert timers[t := timer].Keys == timers.Keys;
  }

  /** All timers are on their schedule, and the rest of the run is timely for each. */
  ghost predicate AllOnSchedule(log: seq<Fire>, d0: seq<int>, t0: map<int, Timer>, k0: Keys, o0: set<int>, from: int,
                                acts: seq<Act>, d: seq<int>, timers: map<int, Timer>, due: Keys, opening: set<int>,
                                now: int, rest: seq<Act>, slack: nat)
  {
    && timers.Keys == t0.Keys
    && forall t | t in timers && t in t0 ::
      && SameSettings(t0[t], timers[t])
      && OnSchedule(log, t, PhaseOf(d0, k0, o0, t), from, acts, PhaseOf(d, due, opening, t), now, rest, t0[t].initTick,
                    t0[t].periodic)
      && Timely(PhaseOf(d, due, opening, t), now, rest, t, t0[t].initTick, t0[t].periodic, slack)
  }

  ghost predicate AllTimely(d: seq<int>, timers: map<int, Timer>, due: Keys, opening: set<int>, now: int,
                            acts: seq<Act>, slack: nat)
  {
    forall t | t in timers ::
      Timely(PhaseOf(d, due, opening, t), now, acts, t, timers[t].initTick, timers[t].periodic, slack)
  }

  lemma RunStarts(d: seq<int>, timers: map<int, Timer>, due: Keys, opening: set<int>, now: int, acts: seq<Act>,
                  slack: nat)
    requires AllTimely(d, timers, due, opening, now, acts, slack)
    ensures AllOnSchedule([], d, timers, due, opening, now, acts, d, timers, due, opening, now, acts, slack)
  {
    hide Schedule, PhaseOf, Timely;
    forall t | t in timers
      ensures OnSchedule([], t, PhaseOf(d, due, opening, t), now, acts, PhaseOf(d, due, opening, t), now, acts,
        timers[t].initTick, timers[t].periodic)
    {
      var f := Schedule(PhaseOf(d, due, opening, t), now, acts, t, timers[t].initTick, timers[t].periodic);
      assert FiredAt([], t) == [] && [] + f == f;
    }
  }

  lemma TimelyStep(ph: Phase, now: int, rest: seq<Act>, t: int, interval: int, periodic: bool, slack: nat)
    requires Timely(ph, now, rest, t, interval, periodic, slack) && rest != []
    ensures Allows(rest[0], t, ph, now, periodic, slack)
    ensures Timely(After(rest[0], t, ph, now, interval, periodic), NowAfter(rest[0], now), rest[1..], t, interval,
                   periodic, slack)
  {}

  lemma RunStep(log: seq<Fire>, d0: seq<int>, t0: map<int, Timer>, k0: Keys, o0: set<int>, from: int, acts: seq<Act>,
                d: seq<int>, timers: map<int, Timer>, due: Keys, opening: set<int>, now: int, rest: seq<Act>,
                slack: nat, n: nat, d2: seq<int>, timers2: map<int, Timer>, due2: Keys, opening2: set<int>)
    requires rest != []
    requires AllOnSchedule(log, d0, t0, k0, o0, from, acts, d, timers, due, opening, now, rest, slack)
    requires Acted(rest[0], d, timers, due, opening, n, d2, timers2, due2, opening2, now)
    ensures AllOnSchedule(log + Fires(d[..n], now + 1), d0, t0, k0, o0, from, acts, d2, timers2, due2, opening2,
                          NowAfter(rest[0], now), rest[1..], slack)
  {
    hide OnSchedule, After, NowAfter, PhaseOf, FiresAt, Fires, Timely, Allows;
    forall t | t in timers2 && t in t0
      ensures SameSettings(t0[t], timers2[t])
      ensures OnSchedule(log + Fires(d[..n], now + 1), t, PhaseOf(d0, k0, o0, t), from, acts,
        PhaseOf(d2, due2, opening2, t), NowAfter(rest[0], now), rest[1..], t0[t].initTick, t0[t].periodic)
      ensures Timely(PhaseOf(d2, due2, opening2, t), NowAfter(rest[0], now), rest[1..], t, t0[t].initTick,
        t0[t].periodic, slack)
    {
      var ph := PhaseOf(d, due, opening, t);
      TimelyStep(ph, now, rest, t, t0[t].initTick, t0[t].periodic, slack);
      StepOnSchedule(log, d[..n], t, PhaseOf(d0, k0, o0, t), from, acts, ph, now, rest, t0[t].initTick, t0[t].periodic);
    }
  }

  /** A run allows its first act. */
  lemma RunAllows(log: seq<Fire>, d0: seq<int>, t0: map<int, Timer>, k0: Keys, o0: set<int>, from: int, acts: seq<Act>,
                  d: seq<int>, timers: map<int, Timer>, due: Keys, opening: set<int>, now: int, rest: seq<Act>,
                  slack: nat)
    requires rest != [] && (rest[0].Tick? || rest[0].id in timers)
    requires AllOnSchedule(log, d0, t0, k0, o0, from, acts, d, timers, due, opening, now, rest, slack)
    ensures timers.Keys == t0.Keys
    ensures !rest[0].Tick? ==> var t := rest[0].id;
      Allows(rest[0], t, PhaseOf(d, due, opening, t), now, timers[t].periodic, slack)
  {
    hide OnSchedule, PhaseOf, Timely, Allows;
    if !rest[0].Tick? {
      var t := rest[0].id;
      TimelyStep(PhaseOf(d, due, opening, t), now, rest, t, t0[t].initTick, t0[t].periodic, slack);
    }
  }

  lemma RunEnds(log: seq<Fire>, d0: seq<int>, t0: map<int, Timer>, k0: Keys, o0: set<int>, from: int, acts: seq<Act>,
                d: seq<int>, timers: map<int, Timer>, due: Keys, opening: set<int>, now: int, slack: nat)
    requires AllOnSchedule(log, d0, t0, k0, o0, from, acts, d, timers, due, opening, now, [], slack)
    ensures timers.Keys == t0.Keys
    ensures forall t | t in t0 ::
      FiredAt(log, t) == Schedule(PhaseOf(d0, k0, o0, t), from, acts, t, t0[t].initTick, t0[t].periodic)
  {
    hide PhaseOf, Timely;
    forall t | t in t0
      ensures FiredAt(log, t) == Schedule(PhaseOf(d0, k0, o0, t), from, acts, t, t0[t].initTick, t0[t].periodic)
    {
      assert t in timers;
      assert OnSchedule(log, t, PhaseOf(d0, k0, o0, t), from, acts, PhaseOf(d, due, opening, t), now, [],
        t0[t].initTick, t0[t].periodic);
    }
  }

  lemma TicksInRest(acts: seq<Act>, k: nat)
    requires k < |acts|
    ensures acts[k..] != [] && acts[k..][0] == acts[k] && acts[k..][1..] == acts[k + 1..]
    ensures TicksIn(acts[k..]) == TicksIn(acts[k + 1..]) + if acts[k].Tick? then 1 else 0
  {
    assert acts[k..][1..] == acts[k + 1..];
  }

  lemma NoTicks()
    ensures TicksIn([]) == 0
  {}

  lemma ActedKeys(act: Act, d: seq<int>, timers: map<int, Timer>, due: Keys, opening: set<int>, n: nat, d2: seq<int>,
                  timers2: map<int, Timer>, due2: Keys, opening2: set<int>, now: int)
    requires Acted(act, d, timers, due, opening, n, d2, timers2, due2, opening2, now)
    ensures timers2.Keys == timers.Keys
  {}

  lemma Regrouped(a: seq<Fire>, b: seq<Fire>, c: seq<Fire>)
    ensures a + (b + c) == a + b + c
  {}

  lemma EffectKeys(fired: seq<int>, timers: map<int, Timer>, due: Keys, timers2: map<int, Timer>, due2: Keys, now: int)
    requires Effect(fired, timers, due, timers2, due2, now)
    ensures timers2.Keys == timers.Keys
  {}

  lemma EffectSettings(fired: seq<int>, timers: map<int, Timer>, due: Keys, timers2: map<int, Timer>, due2: Keys,
                       now: int, t: int)
    requires Effect(fired, timers, due, timers2, due2, now) && t in timers
    ensures t in timers2 && SameSettings(timers[t], timers2[t])
  {
    assert t in fired ==> Renewed(timers, due, timers2, due2, t, now);
    assert t !in fired ==> Untouched(timers, due, timers2, due2, t);
  }

  lemma FrontMembers(d: seq<int>, due: Keys, n: nat)
    requires Sorted(d, due) && n <= |d|
    ensures (forall x | x in d[..n] :: x in d) && forall i, j | 0 <= i < j < n :: d[i] != d[j]
  {}

  lemma OpenedOne(opening: set<int>, d: seq<int>, timers: map<int, Timer>, due: Keys, now: int, t: int)
    requires Opened(opening, d, timers, due, now) && t in opening
    ensures t in timers && t in due && t !in d && timers[t].timeoutTick == due[t] % WORD
    ensures 0 <= due[t] <= now + timers[t].initTick
  {}

  lemma OpenedMaybe(opening: set<int>, d: seq<int>, timers: map<int, Timer>, due: Keys, now: int, t: int)
    requires Opened(opening, d, timers, due, now)
    ensures t in opening ==> t in due && t !in d
  {}

  lemma WaitingNear(d: seq<int>, timers: map<int, Timer>, due: Keys, now: int, slack: nat, k: int)
    requires Waiting(d, timers, due, now, slack) && now - slack <= k < now + HALF - slack
    ensures Near(d, due, k)
  {
    NearWindow(d, due, now - slack, k);
  }

  class TimerList {
    var rows: seq<seq<int>>
    var timers: map<int, Timer>
    var tick: u32
    var randomNr: u32
    ghost var now: int        // the tick count without wrap-around
    ghost var due: Keys       // the deadlines, on the same scale
    ghost var opening: set<int> // the timers between the two sections of a start
    ghost var log: seq<Fire>  // the time-outs delivered so far
    ghost const slack: nat    // the ticks by which a start may come after its deadline

    /** All but the active flags and the window of deadlines. */
    ghost predicate Linked()
      reads this
    {
      && now >= 0 && tick == now % WORD && |rows| >= 1
      && Rows(rows, due) && Ticks(Dense(rows), timers, due) && Settings(timers, slack) && slack + 1 < HALF
    }

    ghost predicate Valid()
      reads this
    {
      && Linked() && Waiting(Dense(rows), timers, due, now, slack)
      && Opened(opening, Dense(rows), timers, due, now)
    }

    /** Unlinks the timer from every row. */
    method Remove(t: int)
      requires |rows| >= 1
      modifies this`rows
      ensures |rows| == old(|rows|) && forall l | 0 <= l < |rows| :: rows[l] == Del(old(rows)[l], t)
    {
      var l := 0;
      while l < |rows|
        invariant l <= |rows| == old(|rows|)
        invariant forall m | 0 <= m < |rows| :: rows[m] == if m < l then Del(old(rows)[m], t) else old(rows)[m]
      {
        rows := rows[l := Del(rows[l], t)];
        l := l + 1;
      }
    }

    /** A timer in a row is known, and its deadline near `d`. */
    lemma InReach(l: nat, pos: nat, d: int)
      requires Linked() && l < |rows| && pos < |rows[l]| && Near(Dense(rows), due, d)
      ensures var x := rows[l][pos];
        && x in timers && x in due && 0 <= due[x] && timers[x].timeoutTick == due[x] % WORD
        && -HALF < due[x] - d < HALF
    {
      hide Rows;
      assert rows[l][pos] in rows[l];
      InDense(rows, due, l, rows[l][pos]);
    }

    /** The rows from `pos` on are known to the search. */
    lemma AllInReach(l: nat, d: int)
      requires Linked() && l < |rows| && Near(Dense(rows), due, d)
      ensures Sorted(rows[l], due) && forall i | 0 <= i < |rows[l]| :: rows[l][i] in due
    {
      hide Near;
      forall i: nat | i < |rows[l]| ensures rows[l][i] in due { InReach(l, i, d); }
    }

    /** The search on one row, from position `from` on. */
    method ScanRow(l: nat, from: nat, timeout: u32, ghost d: int) returns (pos: nat)
      requires Linked() && l < |rows| && from <= |rows[l]|
      requires d >= 0 && timeout == d % WORD && Near(Dense(rows), due, d)
      requires forall i | 0 <= i < from :: rows[l][i] in due && due[rows[l][i]] <= d
      ensures IsPlace(rows[l], due, d, pos)
    {
      hide Linked, Near;
      AllInReach(l, d);
      pos := from;
      var row := rows[l];
      while pos != |row|
        invariant pos <= |row| && forall i | 0 <= i < pos :: row[i] in due && due[row[i]] <= d
      {
        InReach(l, pos, d);
        ghost var k := due[row[pos]];
        var diff := Sub32(timers[row[pos]].timeoutTick, timeout);
        WrapOrders(k, d);
        if diff == 0 {
          pos := pos + 1;
        } else if diff < HALF {
          break;
        } else {
          pos := pos + 1;
        }
      }
    }

    /** The search of all rows, sparsest first. */
    method FindPlaces(timeout: u32, ghost d: int) returns (places: seq<nat>)
      requires Linked()
      requires d >= 0 && timeout == d % WORD && Near(Dense(rows), due, d)
      ensures Placed(rows, due, d, places)
    {
      hide Ticks, Settings;
      places := [];
      var pos: nat, l := 0, 0;
      while l < |rows|
        invariant l == |places| <= |rows|
        invariant l < |rows| ==> pos <= |rows[l]|
        invariant l < |rows| ==> forall i | 0 <= i < pos :: rows[l][i] in due && due[rows[l][i]] <= d
        invariant forall m | 0 <= m < l :: places[m] <= |rows[m]| && IsPlace(rows[m], due, d, places[m])
      {
        pos := ScanRow(l, pos, timeout, d);
        places := places + [pos];
        if l + 1 < |rows| {
          assert Sub(rows[l], rows[l + 1]);
          BelowIsBefore(rows[l], pos, rows[l + 1], due, d);
          pos := Below(rows[l], pos, rows[l + 1]);
        }
        l := l + 1;
      }
    }

    /** Links the timer in behind its places, in as many rows as the counter says. */
    method LinkIn(t: int, places: seq<nat>)
      requires |rows| >= 1 && |places| == |rows| && forall l | 0 <= l < |rows| :: places[l] <= |rows[l]|
      modifies this`rows, this`randomNr
      ensures |rows| == old(|rows|) && randomNr == (old(randomNr) + 1) % WORD
      ensures forall l | 0 <= l < |rows| ::
        rows[l] == if l >= |rows| - Height(randomNr, |rows|) then Ins(old(rows)[l], places[l], t) else old(rows)[l]
    {
      randomNr := (randomNr + 1) % WORD;
      var tst: u32 := randomNr;
      var levels := |rows|;
      ghost var h := Height(tst, levels);
      rows := rows[levels - 1 := Ins(rows[levels - 1], places[levels - 1], t)];
      var lvl := 2;
      while lvl <= levels
        invariant 2 <= lvl <= levels + 1 && |rows| == levels && randomNr == (old(randomNr) + 1) % WORD
        invariant lvl <= levels + 1 && h == lvl - 2 + Height(tst, levels - lvl + 2)
        invariant forall l | 0 <= l < levels ::
          rows[l] == if l > levels - lvl then Ins(old(rows)[l], places[l], t) else old(rows)[l]
      {
        if tst % (MASK + 1) == 0 {
          rows := rows[levels - lvl := Ins(rows[levels - lvl], places[levels - lvl], t)];
        } else {
          break;
        }
        tst := tst / SHIFTED;
        lvl := lvl + 1;
      }
    }

    /** The first section of a start, and what follows up to the second: takes the timer out and
        sets its deadline. */
    method Prepare(t: int)
      requires Linked() && t in timers
      modifies this`rows, this`timers, this`due
      ensures Linked() && |rows| == old(|rows|) && Dense(rows) == Del(Dense(old(rows)), t) && t !in Dense(rows)
      ensures due == old(due)[t := now + old(timers)[t].initTick]
      ensures timers == old(timers)[t := old(timers)[t].(timeoutTick := due[t] % WORD, active := false)]
    {
      hide Rows, Ticks, Near, Del, Sorted, Sub;
      ghost var r0, t0 := rows, timers;
      ghost var d := now + timers[t].initTick;
      Remove(t);
      RowsDel(r0, due, t, rows);
      DelMembers(Dense(r0), t);
      timers := timers[t := timers[t].(active := false)];
      Remainders(now, timers[t].initTick);
      timers := timers[t := timers[t].(timeoutTick := (tick + timers[t].initTick) % WORD)];
      DelTicks(Dense(r0), t0, due, t);
      RowsRekey(rows, due, t, d);
      UnlinkedTimer(Dense(rows), t0, due, t, timers[t], d);
      due := due[t := d];
      assert timers == t0[t := timers[t]];
    }

    /** The second section of a start: links the timer in by its deadline. */
    method LinkUp(t: int) returns (ghost p: nat)
      requires Linked() && t in timers && t in due && t !in Dense(rows) && Near(Dense(rows), due, due[t])
      requires due[t] >= 0 && timers[t].timeoutTick == due[t] % WORD
      modifies this`rows, this`timers, this`randomNr
      ensures Linked() && |rows| == old(|rows|)
      ensures timers == old(timers)[t := old(timers)[t].(active := true)]
      ensures p <= |Dense(old(rows))| && IsPlace(Dense(old(rows)), due, due[t], p)
      ensures Dense(rows) == Ins(Dense(old(rows)), p, t)
      ensures (forall x | x in Dense(old(rows)) :: x in due) && Dense(rows) == FlatInsert(Dense(old(rows)), due, t)
    {
      hide Rows, Ticks, Near, IsPlace, Ins, Height, FlatInsert, Sorted, Sub;
      ghost var r0 := rows;
      var places := FindPlaces(timers[t].timeoutTick, due[t]);
      LinkIn(t, places);
      p := places[|rows| - 1];
      TicksDue(Dense(r0), timers, due);
      InsIsFlat(Dense(r0), due, t, p);
      RowsIns(r0, due, t, places, Height(randomNr, |rows|), rows);
      TicksOf(Dense(r0), timers, due, t, timers[t].(active := true));
      timers := timers[t := timers[t].(active := true)];
      LinkedTimer(Dense(r0), timers, due, p, t);
    }

    /** Both sections in a row, with interrupts disabled throughout, as in the check. */
    method Restart(t: int) returns (ghost p: nat)
      requires Linked() && t in timers
      requires forall x | x in Dense(rows) && x != t :: x in due && now - slack <= due[x] < now + HALF - slack
      modifies this`rows, this`timers, this`randomNr, this`due
      ensures Linked() && |rows| == old(|rows|)
      ensures due == old(due)[t := now + old(timers)[t].initTick]
      ensures timers == old(timers)[t := old(timers)[t].(timeoutTick := due[t] % WORD, active := true)]
      ensures p <= |Del(Dense(old(rows)), t)| && IsPlace(Del(Dense(old(rows)), t), due, due[t], p)
      ensures Dense(rows) == Ins(Del(Dense(old(rows)), t), p, t)
      ensures t in due && (forall x | x in Del(Dense(old(rows)), t) :: x in due)
      ensures Dense(rows) == FlatInsert(Del(Dense(old(rows)), t), due, t)
    {
      hide Rows, Ticks, Near, IsPlace, Ins, Del, FlatInsert, Window;
      ghost var d := now + timers[t].initTick;
      WindowDel(Dense(rows), due, t, d, now - slack, now + HALF - slack);
      NearWindow(Del(Dense(rows), t), due[t := d], now - slack, d);
      ghost var t0 := timers;
      Prepare(t);
      p := LinkUp(t);
      assert timers == t0[t := timers[t]];
    }

    /** The first section of a start as an act of its own. */
    method Enter(t: int)
      requires Valid() && t in timers
      modifies this`rows, this`timers, this`due, this`opening
      ensures Valid() && Dense(rows) == Del(Dense(old(rows)), t) && opening == old(opening) + {t}
      ensures due == old(due)[t := now + old(timers)[t].initTick]
      ensures timers == old(timers)[t := old(timers)[t].(timeoutTick := due[t] % WORD, active := false)]
    {
      hide Rows, Ticks, Del, Waiting, Opened, Settings;
      ghost var d0, t0, k0 := Dense(rows), timers, due;
      Prepare(t);
      EnterKeeps(d0, t0, k0, t, timers[t], due[t], now, slack);
      OpenedEnter(opening, d0, t0, k0, t, timers[t], due[t], now);
      opening := opening + {t};
    }

    /** The second section, perhaps some ticks later: the timer goes behind all that are due earlier
        or at the same time. */
    method Finish(t: int) returns (ghost p: nat)
      requires Valid() && t in opening && t in timers && t in due && InTime(due[t], now, timers[t].periodic, slack)
      modifies this`rows, this`timers, this`randomNr, this`opening
      ensures Valid() && opening == old(opening) - {t} && t !in Dense(old(rows))
      ensures timers == old(timers)[t := old(timers)[t].(active := true)]
      ensures p <= |Dense(old(rows))| && Dense(rows) == Ins(Dense(old(rows)), p, t)
      ensures (forall x | x in Dense(old(rows)) :: x in due) && Dense(rows) == FlatInsert(Dense(old(rows)), due, t)
    {
      hide Rows, Ticks, Near, IsPlace, Ins, FlatInsert, Waiting, Opened;
      ghost var d0, t0 := Dense(rows), timers;
      OpenedOne(opening, d0, timers, due, now, t);
      WaitingNear(d0, timers, due, now, slack, due[t]);
      p := LinkUp(t);
      LinkKeeps(d0, t0, due, t, p, now, slack);
      OpenedFinish(opening, d0, t0, due, t, p, timers[t], now);
      opening := opening - {t};
    }

    /** Starts, or restarts, a timer, with no tick between the sections. */
    method Start(t: int) returns (ghost p: nat)
      requires Valid() && t in timers
      modifies this`rows, this`timers, this`randomNr, this`due, this`opening
      ensures Valid() && opening == old(opening) - {t}
      ensures due == old(due)[t := now + old(timers)[t].initTick]
      ensures timers == old(timers)[t := old(timers)[t].(timeoutTick := due[t] % WORD, active := true)]
      ensures p <= |Del(Dense(old(rows)), t)| && Dense(rows) == Ins(Del(Dense(old(rows)), t), p, t)
      ensures t in due && (forall x | x in Del(Dense(old(rows)), t) :: x in due)
      ensures Dense(rows) == FlatInsert(Del(Dense(old(rows)), t), due, t)
    {
      hide Rows, Ticks, Del, Ins, FlatInsert, Waiting, Opened;
      ghost var t0, o0 := timers, opening;
      Enter(t);
      p := Finish(t);
      assert timers == t0[t := timers[t]];
      assert opening == o0 - {t};
    }

    /** What holds between the tick and the end of the check. */
    ghost predicate Checking()
      reads this
    {
      && Linked() && Flagged(Dense(rows), timers)
      && Window(Dense(rows), due, now - slack - 1, now + HALF - slack)
      && OnTime(Dense(rows), timers, due, now - slack)
    }

    /** Takes the first timer out of the rows. */
    method Pop() returns (t: int)
      requires Linked() && Dense(rows) != []
      modifies this`rows
      ensures Linked() && |rows| == old(|rows|)
      ensures t == Dense(old(rows))[0] && t in timers && Dense(rows) == Dense(old(rows))[1..]
    {
      hide Rows;
      t := Dense(rows)[0];
      HeadFacts(rows, due);
      ghost var r0 := rows;
      assert t in Dense(rows);
      Remove(t);
      RowsDel(r0, due, t, rows);
    }

    /** The timer just taken from the front of `d` starts again. */
    method StartAgain(t: int, ghost d: seq<int>) returns (ghost p: nat)
      requires Linked() && d != [] && d[0] == t && t !in d[1..] && Dense(rows) == d[1..]
      requires Flagged(d, timers) && Window(d, due, now - slack - 1, now + HALF - slack)
      requires OnTime(d, timers, due, now - slack) && t in timers && timers[t].periodic
      requires forall x | x in d[1..] :: x in d && x in due && t in due && due[t] <= due[x]
      modifies this`rows, this`timers, this`randomNr, this`due
      ensures Checking() && |rows| == old(|rows|)
      ensures due == old(due)[t := now + old(timers)[t].initTick]
      ensures timers == old(timers)[t := old(timers)[t].(timeoutTick := due[t] % WORD, active := true)]
      ensures forall x | x in timers && x != t :: Untouched(old(timers), old(due), timers, due, x)
      ensures p <= |d[1..]| && IsPlace(d[1..], due, due[t], p) && Dense(rows) == Ins(d[1..], p, t)
    {
      hide Rows, Ticks, Ins, Del, IsPlace, Flagged, Window, OnTime, Untouched, Waiting, FlatInsert, Sorted, Sub;
      hide Near, Height;
      ghost var t0, k0 := timers, due;
      RestartWindow(d, timers, due, now, now - slack, slack);
      DelAbsent(d[1..], t);
      timers := timers[t := timers[t].(active := false)];
      TicksOf(d[1..], t0, due, t, timers[t]);
      p := Restart(t);
      assert timers == t0[t := t0[t].(timeoutTick := due[t] % WORD, active := true)];
      AfterRestart(d, t0, k0, timers, due, p, now, now - slack, slack);
    }

    /** Delivers the time-out of the first timer. */
    method FireHead() returns (ghost p: nat)
      requires Checking() && Dense(rows) != []
      modifies this`rows, this`timers, this`randomNr, this`due, this`log
      ensures Checking() && |rows| == old(|rows|)
      ensures timers.Keys == old(timers.Keys) && Dense(old(rows))[0] in timers
      ensures log == old(log) + [Fire(Dense(old(rows))[0], now)]
      ensures Renewed(old(timers), old(due), timers, due, Dense(old(rows))[0], now)
      ensures forall x | x in timers && x != Dense(old(rows))[0] :: Untouched(old(timers), old(due), timers, due, x)
      ensures var d := Dense(old(rows)); var t := d[0];
        if old(timers)[t].periodic
        then p <= |d[1..]| && t in due && IsPlace(d[1..], due, due[t], p) && Dense(rows) == Ins(d[1..], p, t)
        else Dense(rows) == d[1..]
    {
      hide Rows, Ticks, Ins, Del, IsPlace, Flagged, Window, OnTime, Untouched, Waiting, FlatInsert, Sorted, Sub;
      hide Near, Height;
      ghost var d, t0 := Dense(rows), timers;
      HeadFacts(rows, due);
      var t := Pop();
      p := 0;
      // timeout_func(parameter)
      log := log + [Fire(t, now)];
      FlagOf(d, timers, t);
      if timers[t].periodic && timers[t].active {
        p := StartAgain(t, d);
      } else {
        timers := timers[t := timers[t].(active := false)];
        TicksOf(d[1..], t0, due, t, timers[t]);
        AfterStop(d, t0, due, timers, now, now - slack, slack);
      }
    }

    /** A check in mid-run, which began with timers `d0`, `t0`, `k0` and log `l0`: of the first `n`, those
        due, the first `k` have been fired. */
    ghost predicate Midway(d0: seq<int>, t0: map<int, Timer>, k0: Keys, l0: seq<Fire>, k: nat, n: nat)
      reads this
    {
      && |rows| >= 1 && Pending(Dense(rows), d0, k, n, due, now) && k <= n <= |d0|
      && log == l0 + Fires(d0[..k], now) && Effect(d0[..k], t0, k0, timers, due, now)
    }

    lemma MidwayStarts(n: nat)
      requires Checking() && IsPlace(Dense(rows), due, now, n) && n <= |Dense(rows)|
      ensures Midway(Dense(rows), timers, due, log, 0, n)
    {
      hide IsPlace, Pending, Effect, Rows;
      PendingStart(Dense(rows), due, now, n);
      EffectNone(timers, due, now);
      assert Dense(rows)[..0] == [] && Fires([], now) == [];
    }

    lemma MidwayNext(d0: seq<int>, t0: map<int, Timer>, k0: Keys, l0: seq<Fire>, k: nat, n: nat)
      requires Checking() && Midway(d0, t0, k0, l0, k, n) && Dense(rows) != []
      ensures var t := Dense(rows)[0];
        t in timers && t in due && (Sub32(tick, timers[t].timeoutTick) < HALF <==> k < n) && (k < n ==> t == d0[k])
    {
      hide Pending, Effect, Checking;
      PendingFirst(Dense(rows), d0, k, n, due, now);
      HeadInReach();
      DueTest(now, due[Dense(rows)[0]]);
    }

    lemma HeadInReach()
      requires Checking() && Dense(rows) != []
      ensures |rows| >= 1 && now >= 0 && tick == now % WORD
      ensures var t := Dense(rows)[0];
        && t in timers && t in due && 0 <= due[t] && now - HALF < due[t] < now + HALF
        && timers[t].timeoutTick == due[t] % WORD
    {
      hide Rows;
      var t := Dense(rows)[0];
      assert t in Dense(rows);
    }

    /** One turn of the loop of the check. */
    method FireNext(ghost d0: seq<int>, ghost t0: map<int, Timer>, ghost k0: Keys, ghost l0: seq<Fire>, ghost k: nat,
                    ghost n: nat)
      requires Checking() && Midway(d0, t0, k0, l0, k, n) && Dense(rows) != [] && k < n && Dense(rows)[0] == d0[k]
      requires Sorted(d0, k0)
      modifies this`rows, this`timers, this`randomNr, this`due, this`log
      ensures Checking() && Midway(d0, t0, k0, l0, k + 1, n)
    {
      hide Rows, Ins, Del, IsPlace, Pending, Effect, Renewed, Untouched, Sorted, Flagged, Window, OnTime, Ticks;
      ghost var d, t1, k1 := Dense(rows), timers, due;
      var t := Dense(rows)[0];
      Prefix(d0, k0, k);
      HeadFacts(rows, due);
      TicksKnown(d, timers, due);
      EffectKeys(d0[..k], t0, k0, timers, due, now);
      ghost var p := FireHead();
      EffectStep(d0[..k], t, t0, k0, t1, k1, timers, due, now);
      assert d0[..k + 1] == d0[..k] + [t];
      PendingFired(d, d0, k, n, t1, k1, timers, due, now, p, Dense(rows));
      FiresLast(d0[..k], t, now);
    }

    /** The check of the timer interrupt: fires every timer that is due. */
    method Check() returns (ghost n: nat)
      requires Checking()
      modifies this`rows, this`timers, this`randomNr, this`due, this`log
      ensures Linked() && Waiting(Dense(rows), timers, due, now, slack)
      ensures n <= |Dense(old(rows))| && IsPlace(Dense(old(rows)), old(due), now, n)
      ensures log == old(log) + Fires(Dense(old(rows))[..n], now)
      ensures Effect(Dense(old(rows))[..n], old(timers), old(due), timers, due, now)
    {
      hide Rows, IsPlace, Pending, Effect, Sorted, Midway, Ticks;
      ghost var d0, t0, k0, l0 := Dense(rows), timers, due, log;
      HeadFacts2(rows, due);
      n := PlaceExists(d0, due, now);
      PlaceInside(d0, due, now, n);
      MidwayStarts(n);
      ghost var k: nat := 0;
      var current := tick;
      while Dense(rows) != []
        invariant Checking() && current == tick && k <= n && Midway(d0, t0, k0, l0, k, n)
        decreases n - k
      {
        var t := Dense(rows)[0];
        MidwayNext(d0, t0, k0, l0, k, n);
        if Sub32(current, timers[t].timeoutTick) < HALF {
          FireNext(d0, t0, k0, l0, k, n);
          current := tick;
          k := k + 1;
        } else {
          break;
        }
      }
      MidwayEnds(d0, t0, k0, l0, k, n);
    }

    lemma MidwayEnds(d0: seq<int>, t0: map<int, Timer>, k0: Keys, l0: seq<Fire>, k: nat, n: nat)
      requires Checking() && Midway(d0, t0, k0, l0, k, n)
      requires Dense(rows) == []
        || (Dense(rows)[0] in timers && !(Sub32(tick, timers[Dense(rows)[0]].timeoutTick) < HALF))
      ensures Waiting(Dense(rows), timers, due, now, slack)
      ensures n <= |d0| && log == l0 + Fires(d0[..n], now) && Effect(d0[..n], t0, k0, timers, due, now)
    {
      hide Pending, Effect, Rows;
      if Dense(rows) != [] {
        HeadInReach();
        DueTest(now, due[Dense(rows)[0]]);
      }
      PendingDone(Dense(rows), d0, k, n, due, now);
    }

    /** The tick interrupt: one more tick, then the check. */
    method Tick() returns (ghost n: nat)
      requires Valid()
      modifies this
      ensures Valid() && now == old(now) + 1 && opening == old(opening)
      ensures n <= |Dense(old(rows))| && log == old(log) + Fires(Dense(old(rows))[..n], now)
      ensures Acted(Act.Tick, Dense(old(rows)), old(timers), old(due), opening, n, Dense(rows), timers, due, opening,
                    old(now))
    {
      hide Rows, IsPlace, Effect, Opened, PhaseOf, FiresAt, Step, Sorted;
      Remainders(now, 1);
      ghost var d0, t0, k0 := Dense(rows), timers, due;
      tick := (tick + 1) % WORD;
      now := now + 1;
      HeadFacts2(rows, due);
      n := Check();
      EffectKeys(d0[..n], t0, k0, timers, due, now);
      FrontMembers(d0, k0, n);
      OpenedTick(opening, d0, t0, k0, d0[..n], Dense(rows), timers, due, now - 1);
      forall t | t in timers && t in t0
        ensures SameSettings(t0[t], timers[t])
        ensures t in d0[..n] <==> FiresAt(PhaseOf(d0, k0, opening, t), now)
        ensures PhaseOf(Dense(rows), due, opening, t)
          == Step(PhaseOf(d0, k0, opening, t), now, t0[t].initTick, t0[t].periodic)
      {
        OpenedMaybe(opening, d0, t0, k0, now - 1, t);
        CheckSteps(d0, t0, k0, n, Dense(rows), timers, due, opening, now, t);
        EffectSettings(d0[..n], t0, k0, timers, due, now, t);
      }
    }

    /** The next time-out: the deadline of the first timer, which is the earliest one. */
    method NextTimeout() returns (r: u32)
      requires Valid()
      ensures Dense(rows) == [] ==> r == TICK_MAX
      ensures Dense(rows) != [] ==> Dense(rows)[0] in due && r == due[Dense(rows)[0]] % WORD
      ensures forall x | x in Dense(rows) :: x in due && Dense(rows)[0] in due && due[Dense(rows)[0]] <= due[x]
    {
      if Dense(rows) == [] {
        return TICK_MAX;
      }
      var t := Dense(rows)[0];
      HeadFacts(rows, due);
      assert t in Dense(rows);
      forall x | x in Dense(rows) ensures x in due && t in due && due[t] <= due[x] {
        assert x == t || x in Dense(rows)[1..];
      }
      r := timers[t].timeoutTick;
    }

    /** Stops a timer; one that is not active is refused. */
    method Stop(t: int) returns (ok: bool)
      requires Valid() && t in timers
      modifies this`rows, this`timers
      ensures Valid() && ((forall x | x in Dense(old(rows)) :: x in due) && (t in opening ==> t !in Dense(old(rows))))
      ensures ok == old(timers)[t].active
      ensures timers == old(timers)[t := old(timers)[t].(active := false)]
      ensures Dense(rows) == Del(Dense(old(rows)), t)
    {
      hide Rows, Del, Waiting, Ticks, Flagged, Window, Opened;
      WaitingFlag(Dense(rows), timers, due, now, slack, t);
      OpenedMaybe(opening, Dense(rows), timers, due, now, t);
      TicksDue(Dense(rows), timers, due);
      ghost var r0, t0 := rows, timers;
      if !timers[t].active {
        DelAbsent(Dense(rows), t);
        assert timers == t0[t := t0[t].(active := false)];
        return false;
      }
      Remove(t);
      RowsDel(r0, due, t, rows);
      timers := timers[t := timers[t].(active := false)];
      DelTicks(Dense(r0), t0, due, t);
      TicksOf(Dense(rows), t0, due, t, timers[t]);
      StopKeeps(Dense(r0), t0, due, t, now, slack);
      OpenedStop(opening, Dense(r0), t0, due, t, now);
      ok := true;
    }

    /** One act of a run. */
    method Do(act: Act) returns (ghost n: nat)
      requires Valid() && (!act.Tick? ==> act.id in timers)
      requires !act.Tick? ==>
        Allows(act, act.id, PhaseOf(Dense(rows), due, opening, act.id), now, timers[act.id].periodic, slack)
      modifies this
      ensures Valid() && now == NowAfter(act, old(now)) && n <= |Dense(old(rows))|
      ensures log == old(log) + Fires(Dense(old(rows))[..n], old(now) + 1)
      ensures Acted(act, Dense(old(rows)), old(timers), old(due), old(opening), n, Dense(rows), timers, due, opening,
                    old(now))
    {
      hide Rows, Ticks, Settings, Waiting, Opened, Acted, Step, FiresAt, Del, Ins, FlatInsert;
      ghost var d0, t0, k0, o0 := Dense(rows), timers, due, opening;
      n := 0;
      assert Fires(d0[..0], now + 1) == [] && log + [] == log;
      match act {
        case Tick =>
          n := Tick();
        case Enter(t) =>
          Enter(t);
          EnterActs(d0, t0, k0, o0, t, timers[t], now);
        case Finish(t) =>
          OpenedMaybe(o0, d0, t0, k0, now, t);
          ghost var p := Finish(t);
          FinishActs(d0, t0, k0, o0, t, p, timers[t], now);
        case Stop(t) =>
          var ok := Stop(t);
          StopActs(d0, t0, k0, o0, t, timers[t], now);
      }
    }

    /** A run of ticks, stops and the two sections of starts in any order, in which no two starts of one
        timer overlap: every timer fires exactly when its phase, its settings and what is done to it say. */
    method Run(acts: seq<Act>)
      requires Valid() && forall a | a in acts :: a.Tick? || a.id in timers
      requires AllTimely(Dense(rows), timers, due, opening, now, acts, slack)
      modifies this
      ensures Valid() && now == old(now) + TicksIn(acts) && timers.Keys == old(timers.Keys) && old(log) <= log
      ensures forall t | t in old(timers) ::
        (FiredAt(log[|old(log)|..], t)
         == Schedule(PhaseOf(Dense(old(rows)), old(due), old(opening), t), old(now), acts, t, old(timers)[t].initTick,
                     old(timers)[t].periodic))
    {
      hide Linked, Waiting, Opened, Schedule, FiredAt, Acted, AllOnSchedule, AllTimely, PhaseOf, Fires, TicksIn, Allows;
      HasRows();
      ghost var d0, t0, k0, o0, l0, from := Dense(rows), timers, due, opening, log, now;
      ghost var during: seq<Fire> := [];
      var k := 0;
      assert log == l0 + during && acts[0..] == acts;
      RunStarts(d0, t0, k0, o0, from, acts, slack);
      while k < |acts|
        invariant k <= |acts| && Valid() && |rows| >= 1 && log == l0 + during
        invariant now + TicksIn(acts[k..]) == from + TicksIn(acts) && timers.Keys == t0.Keys
        invariant AllOnSchedule(during, d0, t0, k0, o0, from, acts, Dense(rows), timers, due, opening, now, acts[k..],
                                slack)
      {
        ghost var d1, t1, k1, o1, n1 := Dense(rows), timers, due, opening, now;
        TicksInRest(acts, k);
        assert acts[k] in acts;
        RunAllows(during, d0, t0, k0, o0, from, acts, d1, t1, k1, o1, n1, acts[k..], slack);
        ghost var m := Do(acts[k]);
        HasRows();
        ActedKeys(acts[k], d1, t1, k1, o1, m, Dense(rows), timers, due, opening, n1);
        RunStep(during, d0, t0, k0, o0, from, acts, d1, t1, k1, o1, n1, acts[k..], slack, m, Dense(rows), timers, due,
          opening);
        Regrouped(l0, during, Fires(d1[..m], n1 + 1));
        during := during + Fires(d1[..m], n1 + 1);
        k := k + 1;
      }
      assert acts[k..] == [];
      NoTicks();
      assert log[|l0|..] == during;
      RunEnds(during, d0, t0, k0, o0, from, acts, Dense(rows), timers, due, opening, now, slack);
    }

    lemma HasRows()
      requires Valid()
      ensures |rows| >= 1
    {}

    constructor (levels: nat, ghost late: nat)
      requires levels >= 1 && late + 1 < HALF
      ensures Valid() && |rows| == levels && Dense(rows) == [] && timers == map[] && log == []
      ensures slack == late && opening == {}
    {
      rows := seq(levels, _ => []);
      timers := map[];
      tick := 0;
      randomNr := 0;
      now := 0;
      due := map[];
      opening := {};
      log := [];
      slack := late;
    }

    method Create(t: int, time: u32, periodic: bool)
      requires Valid() && t !in timers && time + slack < HALF && (periodic ==> time > 0)
      modifies this`timers
      ensures Valid() && timers == old(timers)[t := Timer(time, 0, periodic, false)]
    {
      assert t !in Dense(rows);
      timers := timers[t := Timer(time, 0, periodic, false)];
    }
  }
}
