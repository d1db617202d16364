/** kernel/timer.c: the timer queue of one CPU.  Times are integers; `WrapCompare` says when the 32-bit
    comparisons of the source agree with their order. */
module Timers {
  import opened Arith

  const TIME_RANGE: int := 0x1_0000_0000

  /** `TIME_LT(a, b)` on 32-bit times. */
  function TimeLt(a: int, b: int): bool {
    (a - b) % TIME_RANGE >= TIME_RANGE / 2
  }

  /** The wrapped comparison is the integer order for times less than half the range apart. */
  lemma WrapCompare(a: int, b: int)
    requires -(TIME_RANGE / 2) < a - b < TIME_RANGE / 2
    ensures TimeLt(a % TIME_RANGE, b % TIME_RANGE) <==> a < b
  {
    assert (a % TIME_RANGE - b % TIME_RANGE) % TIME_RANGE == (a - b) % TIME_RANGE;
  }

  datatype Timer = Timer(scheduled: int, period: nat)

  /** What a callback may do: set a timer at time `at`, or cancel one. */
  datatype Op = Set(timer: nat, at: int, delay: nat, periodic: bool) | Cancel(timer: nat, at: int)

  datatype Callback = Callback(ops: seq<Op>, resched: bool)

  type Table = map<nat, Timer>

  ghost predicate Sorted(t: Table, q: seq<nat>) {
    && NoDup(q) && (forall x :: x in q ==> x in t)
    && forall i, j :: 0 <= i < j < |q| ==> t[q[i]].scheduled <= t[q[j]].scheduled
  }

  /** How often a timer can still fire in a tick at `now`: once if it is due, and once more if it is periodic
      and its next time is `now` itself. */
  function Due(t: Table, q: seq<nat>, now: int, x: nat): nat {
    if x !in q || x !in t || t[x].scheduled > now then 0
    else if t[x].period > 0 && t[x].scheduled + t[x].period == now then 2 else 1
  }

  function DueTotal(t: Table, q: seq<nat>, now: int): nat {
    if q == [] then 0 else Due(t, [q[0]], now, q[0]) + DueTotal(t, q[1..], now)
  }

  function Fires(fired: seq<(nat, int)>, x: nat): nat {
    if fired == [] then 0 else Fires(fired[..|fired| - 1], x) + if fired[|fired| - 1].0 == x then 1 else 0
  }

  ghost predicate InOrder(fired: seq<(nat, int)>) {
    forall i, j :: 0 <= i < j < |fired| ==> fired[i].1 <= fired[j].1
  }

  /** Removing one entry keeps the order and drops exactly its share of the total. */
  lemma {:induction false} Removed(t: Table, q: seq<nat>, i: nat, now: int)
    requires i < |q| && Sorted(t, q)
    ensures var q' := q[..i] + q[i + 1..];
            && Sorted(t, q') && (forall x :: x in q' <==> x in q && x != q[i])
            && DueTotal(t, q, now) == DueTotal(t, q', now) + Due(t, q, now, q[i])
  {
    var q' := q[..i] + q[i + 1..];
    forall j | 0 <= j < |q'| ensures q'[j] == q[if j < i then j else j + 1] {
    }
    forall x ensures x in q' <==> x in q && x != q[i] {
      if x in q && x != q[i] {
        var n :| 0 <= n < |q| && q[n] == x;
        assert q'[if n < i then n else n - 1] == x;
      }
    }
    RemovedTotal(t, q, i, now);
  }

  lemma RemovedTotal(t: Table, q: seq<nat>, i: nat, now: int)
    requires i < |q|
    ensures DueTotal(t, q, now) == DueTotal(t, q[..i] + q[i + 1..], now) + Due(t, q, now, q[i])
  {
    TotalSplit(t, q[..i], q[i..], now);
    assert q[..i] + q[i..] == q && q[i..][1..] == q[i + 1..];
    TotalSplit(t, q[..i], q[i + 1..], now);
  }

  lemma {:induction false} TotalSplit(t: Table, a: seq<nat>, b: seq<nat>, now: int)
    ensures DueTotal(t, a + b, now) == DueTotal(t, a, now) + DueTotal(t, b, now)
  {
    if a == [] {
      assert a + b == b;
    } else {
      assert (a + b)[1..] == a[1..] + b;
      TotalSplit(t, a[1..], b, now);
    }
  }

  lemma {:induction false} TotalFrame(t: Table, t': Table, q: seq<nat>, now: int)
    requires forall x :: x in q ==> x in t && x in t' && t[x] == t'[x]
    ensures DueTotal(t, q, now) == DueTotal(t', q, now)
  {
    if q != [] {
      TotalFrame(t, t', q[1..], now);
    }
  }

  /** A timer that is not queued may be changed. */
  lemma Detached(t: Table, q: seq<nat>, x: nat, tm: Timer, now: int)
    requires Sorted(t, q) && x !in q
    ensures Sorted(t[x := tm], q) && DueTotal(t[x := tm], q, now) == DueTotal(t, q, now)
  {
    TotalFrame(t, t[x := tm], q, now);
  }

  /** A timer put in at its place keeps the order and adds exactly its own share. */
  lemma Inserted(t: Table, q: seq<nat>, i: nat, x: nat, tm: Timer, now: int)
    requires Sorted(t, q) && x !in q && i <= |q|
    requires forall j :: 0 <= j < i ==> t[q[j]].scheduled <= tm.scheduled
    requires forall j :: i <= j < |q| ==> t[q[j]].scheduled >= tm.scheduled
    ensures var t', q' := t[x := tm], q[..i] + [x] + q[i..];
            && Sorted(t', q') && (forall y :: y in q' <==> y in q || y == x)
            && DueTotal(t', q', now) == DueTotal(t, q, now) + Due(t', q', now, x)
  {
    var t', q' := t[x := tm], q[..i] + [x] + q[i..];
    assert q[..i] + q[i..] == q;
    assert forall y :: y in q' <==> y in q || y == x by {
      assert forall y :: y in q <==> y in q[..i] || y in q[i..];
    }
    InsertedTotal(t', q, i, x, now);
    TotalFrame(t, t', q, now);
    InsertedOrder(t', q, i, x);
  }

  lemma InsertedOrder(t: Table, q: seq<nat>, i: nat, x: nat)
    requires Sorted(t, q) && x !in q && i <= |q| && x in t
    requires forall j :: 0 <= j < i ==> t[q[j]].scheduled <= t[x].scheduled
    requires forall j :: i <= j < |q| ==> t[q[j]].scheduled >= t[x].scheduled
    ensures Sorted(t, q[..i] + [x] + q[i..])
  {
    var q' := q[..i] + [x] + q[i..];
    forall j | 0 <= j < |q'| ensures q'[j] == if j < i then q[j] else if j == i then x else q[j - 1] {
    }
  }

  lemma InsertedTotal(t: Table, q: seq<nat>, i: nat, x: nat, now: int)
    requires i <= |q|
    ensures var q' := q[..i] + [x] + q[i..]; DueTotal(t, q', now) == DueTotal(t, q, now) + Due(t, q', now, x)
  {
    var q' := q[..i] + [x] + q[i..];
    assert q[..i] + q[i..] == q && x in q';
    TotalSplit(t, q[..i] + [x], q[i..], now);
    TotalSplit(t, q[..i], [x], now);
    TotalSplit(t, q[..i], q[i..], now);
    assert DueTotal(t, [x], now) == Due(t, [x], now, x);
  }

  /** What callbacks can do to the timers while a tick at `now` runs: cancel some (`gone`) and set some for
      later.  A timer that is not queued and still has a period has not been touched. */
  ghost predicate Touched(t0: Table, q0: seq<nat>, t1: Table, q1: seq<nat>, now: int, gone: set<nat>) {
    t1.Keys == t0.Keys && forall y {:trigger Kept(t0, q0, t1, q1, now, gone, y)} :: Kept(t0, q0, t1, q1, now, gone, y)
  }

  ghost predicate Kept(t0: Table, q0: seq<nat>, t1: Table, q1: seq<nat>, now: int, gone: set<nat>, y: nat) {
    y in t0 && y in t1 ==>
      && (y in q1 ==> (y in q0 && t1[y] == t0[y]) || t1[y].scheduled > now)
      && (y in q0 && y !in gone ==> y in q1 && t1[y] == t0[y])
      && (y !in q1 && t1[y].period > 0 ==> y !in q0 && t1[y] == t0[y])
  }

  lemma TouchedTrans(t0: Table, q0: seq<nat>, t1: Table, q1: seq<nat>, t2: Table, q2: seq<nat>, now: int, a: set<nat>,
                     b: set<nat>)
    requires Touched(t0, q0, t1, q1, now, a) && Touched(t1, q1, t2, q2, now, b)
    ensures Touched(t0, q0, t2, q2, now, a + b)
  {
    forall y ensures Kept(t0, q0, t2, q2, now, a + b, y) {
      assert Kept(t0, q0, t1, q1, now, a, y) && Kept(t1, q1, t2, q2, now, b, y);
    }
  }

  /** The calls name initialized timers and are made no earlier than the tick. */
  ghost predicate Fits(ops: seq<Op>, timers: set<nat>, now: int) {
    forall i :: 0 <= i < |ops| ==> ops[i].timer in timers && now <= ops[i].at
  }

  predicate Sets(ops: seq<Op>) {
    exists i :: 0 <= i < |ops| && ops[i].Set?
  }

  /** The last call about `x` cancels it. */
  predicate LastCancels(ops: seq<Op>, x: nat) {
    ops != [] && var op := ops[|ops| - 1]; if op.timer == x then op.Cancel? else LastCancels(ops[..|ops| - 1], x)
  }

  function Cancelled(ops: seq<Op>): set<nat> {
    set i | 0 <= i < |ops| && ops[i].Cancel? :: ops[i].timer
  }

  lemma OneMore(ops: seq<Op>, i: nat)
    requires i < |ops|
    ensures ops[..i + 1] == ops[..i] + [ops[i]]
    ensures Cancelled(ops[..i + 1]) == Cancelled(ops[..i]) + Cancelled([ops[i]])
    ensures Named(ops[..i + 1]) == Named(ops[..i]) + {ops[i].timer}
  {
    assert [ops[i]][0] == ops[i];
  }

  /** The effect of one call, as SetTimer and CancelTimer state it. */
  ghost predicate Effect(op: Op, t1: Table, q1: seq<nat>, t2: Table, q2: seq<nat>) {
    var x := op.timer;
    match op
    case Set(_, at, delay, periodic) =>
      var d := if delay == 0 then 1 else delay;
      && x !in q1 && t2 == t1[x := Timer(at + d, if periodic then d else 0)]
      && (forall y :: y in q2 <==> y in q1 || y == x)
    case Cancel(_, _) =>
      && x in t1 && t2 == t1[x := t1[x].(period := 0)] && (forall y :: y in q2 <==> y in q1 && y != x)
  }

  lemma OpTouched(op: Op, t1: Table, q1: seq<nat>, t2: Table, q2: seq<nat>, now: int)
    requires op.timer in t1 && now <= op.at && Effect(op, t1, q1, t2, q2)
    ensures Touched(t1, q1, t2, q2, now, Cancelled([op])) && Spared(t1, q1, t2, q2, {op.timer})
  {
    forall y ensures Kept(t1, q1, t2, q2, now, Cancelled([op]), y) {
      assert op.Cancel? ==> [op][0].timer in Cancelled([op]);
    }
  }

  /** Timer `y` is as it was. */
  ghost predicate Same(t0: Table, q0: seq<nat>, t1: Table, q1: seq<nat>, y: nat) {
    (y in t0 <==> y in t1) && (y in q0 <==> y in q1) && (y in t0 && y in t1 ==> t1[y] == t0[y])
  }

  /** Every timer that is not in `named` is as it was. */
  ghost predicate Spared(t0: Table, q0: seq<nat>, t1: Table, q1: seq<nat>, named: set<nat>) {
    forall y {:trigger Same(t0, q0, t1, q1, y)} :: y !in named ==> Same(t0, q0, t1, q1, y)
  }

  lemma SparedTrans(t0: Table, q0: seq<nat>, t1: Table, q1: seq<nat>, t2: Table, q2: seq<nat>, a: set<nat>,
                    b: set<nat>)
    requires Spared(t0, q0, t1, q1, a) && Spared(t1, q1, t2, q2, b)
    ensures Spared(t0, q0, t2, q2, a + b)
  {
    forall y | y !in a + b ensures Same(t0, q0, t2, q2, y) {
      assert Same(t0, q0, t1, q1, y) && Same(t1, q1, t2, q2, y);
    }
  }

  /** The timers the calls are about. */
  function Named(ops: seq<Op>): set<nat> {
    set i | 0 <= i < |ops| :: ops[i].timer
  }

  /** The timers the first `n` callbacks set or cancelled. */
  function AllNamed(script: nat -> Callback, n: nat): set<nat> {
    if n == 0 then {} else AllNamed(script, n - 1) + Named(script(n - 1).ops)
  }

  /** How a tick at `now` has gone for a timer that no callback has set or cancelled.  One that was not due is as
      it was; one that was due waits as it was, or has fired: a one-shot timer once, and it is off the queue; a
      periodic one once, and it is back for one period later, counted from its time or, if that has passed,
      from `now`; or twice, if that time was `now` itself. */
  ghost predicate Course(t0: Table, q0: seq<nat>, t: Table, q: seq<nat>, fired: seq<(nat, int)>, now: int, y: nat) {
    if y !in t0 || y !in t then y !in t0 && y !in t
    else if y !in q0 || t0[y].scheduled > now then Same(t0, q0, t, q, y) && Fires(fired, y) == 0
    else if Fires(fired, y) == 0 then y in q && t[y] == t0[y]
    else if t0[y].period == 0 then Fires(fired, y) == 1 && y !in q && t[y] == t0[y]
    else
      var next := t0[y].scheduled + t0[y].period;
      && y in q && t[y].period == t0[y].period
      && (|| (Fires(fired, y) == 1 && t[y].scheduled == if next < now then now + t0[y].period else next)
          || (Fires(fired, y) == 2 && next == now && t[y].scheduled == now + t0[y].period))
  }

  ghost predicate Courses(t0: Table, q0: seq<nat>, t: Table, q: seq<nat>, fired: seq<(nat, int)>, named: set<nat>,
                          now: int) {
    forall y {:trigger Course(t0, q0, t, q, fired, now, y)} ::
      y !in named ==> Course(t0, q0, t, q, fired, now, y)
  }

  /** Whether one of the first `n` callbacks asked for a reschedule. */
  function AnyResched(script: nat -> Callback, n: nat): bool {
    n > 0 && (script(n - 1).resched || AnyResched(script, n - 1))
  }

  /** The timers the first `n` callbacks cancelled. */
  function AllCancelled(script: nat -> Callback, n: nat): set<nat> {
    if n == 0 then {} else AllCancelled(script, n - 1) + Cancelled(script(n - 1).ops)
  }

  /** The time and period a periodic timer is put back with after firing at `now`. */
  function Again(tm: Timer, now: int): Timer {
    var next := tm.scheduled + tm.period;
    Timer(if next < now then now + tm.period else next, tm.period)
  }

  /** How a tick has gone so far: `t0`, `q0` are the timers at its start, `t`, `q` those now, `fired` what has
      been called back, with its scheduled time, and `gone` what callbacks have cancelled. */
  ghost predicate Progress(t0: Table, q0: seq<nat>, t: Table, q: seq<nat>, fired: seq<(nat, int)>, gone: set<nat>,
                           now: int)
  {
    && t.Keys == t0.Keys && InOrder(fired) && (forall i :: 0 <= i < |fired| ==> fired[i].1 <= now)
    && (forall y :: y in q && y in t && fired != [] ==> fired[|fired| - 1].1 <= t[y].scheduled)
    && (forall y {:trigger Share(t0, q0, t, q, fired, gone, now, y)} :: Share(t0, q0, t, q, fired, gone, now, y))
  }

  /** No timer fires more often than it was due, and a timer that was due fires, is still waiting, or has been
      cancelled. */
  ghost predicate Share(t0: Table, q0: seq<nat>, t: Table, q: seq<nat>, fired: seq<(nat, int)>, gone: set<nat>,
                        now: int, y: nat) {
    && Fires(fired, y) + Due(t, q, now, y) <= Due(t0, q0, now, y)
    && (Due(t0, q0, now, y) > 0 ==> Fires(fired, y) > 0 || y in gone || Due(t, q, now, y) > 0)
  }

  /** What a round leaves: `t1`, `q1` after the callback of `x`, which was due, and `x` put back or not. */
  ghost predicate PutBack(t: Table, x: nat, t1: Table, q1: seq<nat>, t2: Table, q2: seq<nat>, now: int)
    requires x in t && x in t1
  {
    if t[x].period > 0 && x !in q1 && t1[x].period > 0
    then t2 == t1[x := Again(t1[x], now)] && forall y :: y in q2 <==> y in q1 || y == x
    else t2 == t1 && q2 == q1
  }

  /** The queue with `x` put in before the first timer that is strictly later. */
  function Insert(t: Table, q: seq<nat>, x: nat): seq<nat>
    requires x in t && forall y :: y in q ==> y in t
  {
    if q == [] || t[q[0]].scheduled > t[x].scheduled then [x] + q else [q[0]] + Insert(t, q[1..], x)
  }

  lemma {:induction false} InsertAt(t: Table, q: seq<nat>, x: nat, i: nat)
    requires x in t && (forall y :: y in q ==> y in t) && i <= |q|
    requires forall j :: 0 <= j < i ==> t[q[j]].scheduled <= t[x].scheduled
    requires i < |q| ==> t[q[i]].scheduled > t[x].scheduled
    ensures Insert(t, q, x) == q[..i] + [x] + q[i..]
  {
    if i > 0 {
      InsertAt(t, q[1..], x, i - 1);
      assert q[..i] == [q[0]] + q[1..][..i - 1] && q[1..][i - 1..] == q[i..];
    }
  }

  /** Firing uses up one of the times a timer is due. */
  lemma RoundDue(t: Table, q: seq<nat>, x: nat, t1: Table, q1: seq<nat>, t2: Table, q2: seq<nat>, now: int,
                 cancels: set<nat>, y: nat)
    requires x in t && t[x].scheduled <= now && x !in q && x in t1 && PutBack(t, x, t1, q1, t2, q2, now)
    requires Kept(t, q, t1, q1, now, cancels, y) && t1.Keys == t.Keys && Kept(t, q, t1, q1, now, cancels, x)
    ensures t2.Keys == t.Keys
    ensures y == x ==> Due(t2, q2, now, x) + 1 <= Due(t, [x] + q, now, x)
    ensures y != x ==> Due(t2, q2, now, y) <= Due(t, q, now, y)
    ensures y != x && y !in cancels ==> Due(t2, q2, now, y) == Due(t, q, now, y)
    ensures y in q2 && y in t2 ==> (y in q && t2[y] == t[y]) || t2[y].scheduled >= now
  {
  }

  /** One round: the head `x` fires, its callback leaves `t1`, `q1`, and it may be put back. */
  lemma Round(t0: Table, q0: seq<nat>, t: Table, q: seq<nat>, fired: seq<(nat, int)>, gone: set<nat>, now: int,
              t1: Table, q1: seq<nat>, cancels: set<nat>, t2: Table, q2: seq<nat>)
    requires Sorted(t, q) && q != [] && t[q[0]].scheduled <= now && Progress(t0, q0, t, q, fired, gone, now)
    requires Touched(t, q[1..], t1, q1, now, cancels) && q[0] in t1 && PutBack(t, q[0], t1, q1, t2, q2, now)
    ensures Progress(t0, q0, t2, q2, fired + [(q[0], t[q[0]].scheduled)], gone + cancels, now)
    ensures Due(t2, q2, now, q[0]) < Due(t, q, now, q[0])
  {
    var x, rest := q[0], q[1..];
    var fired' := fired + [(x, t[x].scheduled)];
    assert fired'[..|fired|] == fired;
    TailMembers(q);
    assert Kept(t, rest, t1, q1, now, cancels, x);
    RoundDue(t, rest, x, t1, q1, t2, q2, now, cancels, x);
    assert [x] + rest == q;
    forall y ensures Share(t0, q0, t2, q2, fired', gone + cancels, now, y) {
      assert Share(t0, q0, t, q, fired, gone, now, y);
      assert Kept(t, rest, t1, q1, now, cancels, y);
      RoundDue(t, rest, x, t1, q1, t2, q2, now, cancels, y);
      assert y != x ==> Due(t, rest, now, y) == Due(t, q, now, y);
    }
    forall y | y in q2 && y in t2 ensures t[x].scheduled <= t2[y].scheduled {
      assert Kept(t, rest, t1, q1, now, cancels, y);
      RoundDue(t, rest, x, t1, q1, t2, q2, now, cancels, y);
    }
  }

  /** One round keeps the course of every timer that no callback names. */
  lemma RoundCourse(t0: Table, q0: seq<nat>, t: Table, q: seq<nat>, fired: seq<(nat, int)>, now: int,
                    t1: Table, q1: seq<nat>, t2: Table, q2: seq<nat>, y: nat)
    requires Sorted(t, q) && q != [] && t[q[0]].scheduled <= now && Course(t0, q0, t, q, fired, now, y)
    requires Same(t, q[1..], t1, q1, y) && q[0] in t1 && PutBack(t, q[0], t1, q1, t2, q2, now)
    ensures Course(t0, q0, t2, q2, fired + [(q[0], t[q[0]].scheduled)], now, y)
  {
    TailMembers(q);
    var fired' := fired + [(q[0], t[q[0]].scheduled)];
    assert fired'[..|fired|] == fired;
    assert Fires(fired', y) == Fires(fired, y) + if y == q[0] then 1 else 0;
  }

  lemma RoundCourses(t0: Table, q0: seq<nat>, t: Table, q: seq<nat>, fired: seq<(nat, int)>, named: set<nat>,
                     now: int, t1: Table, q1: seq<nat>, names: set<nat>, t2: Table, q2: seq<nat>)
    requires Sorted(t, q) && q != [] && t[q[0]].scheduled <= now && Courses(t0, q0, t, q, fired, named, now)
    requires Spared(t, q[1..], t1, q1, names) && q[0] in t1 && PutBack(t, q[0], t1, q1, t2, q2, now)
    ensures Courses(t0, q0, t2, q2, fired + [(q[0], t[q[0]].scheduled)], named + names, now)
  {
    var fired' := fired + [(q[0], t[q[0]].scheduled)];
    forall y | y !in named + names ensures Course(t0, q0, t2, q2, fired', now, y) {
      assert Course(t0, q0, t, q, fired, now, y) && Same(t, q[1..], t1, q1, y);
      RoundCourse(t0, q0, t, q, fired, now, t1, q1, t2, q2, y);
    }
  }

  /** A finished tick, for a timer that was due and that no callback set or cancelled.  A one-shot timer has
      fired once and is off the queue.  A periodic one is queued with its period: one period after its old time
      if that is still to come, two periods if that was `now`, and it fired twice then; otherwise one period
      after `now`. */
  lemma TickExact(t0: Table, q0: seq<nat>, t: Table, q: seq<nat>, fired: seq<(nat, int)>, named: set<nat>, now: int,
                  x: nat)
    requires Courses(t0, q0, t, q, fired, named, now) && forall y :: y in q && y in t ==> t[y].scheduled > now
    requires x !in named && x in t0 && x in q0 && t0[x].scheduled <= now
    ensures x in t && t[x].period == t0[x].period && (x in q <==> t0[x].period > 0)
    ensures t0[x].period == 0 ==> Fires(fired, x) == 1
    ensures t0[x].period > 0 ==>
              var next := t0[x].scheduled + t0[x].period;
              && Fires(fired, x) == (if next == now then 2 else 1)
              && t[x].scheduled == if next > now then next
                                   else if next == now then next + t0[x].period else now + t0[x].period
  {
    assert Course(t0, q0, t, q, fired, now, x);
  }

  /** A timer that was not due and that no callback names is as it was. */
  lemma TickSpares(t0: Table, q0: seq<nat>, t: Table, q: seq<nat>, fired: seq<(nat, int)>, named: set<nat>, now: int,
                   x: nat)
    requires Courses(t0, q0, t, q, fired, named, now) && x !in named && x in t0
    requires x !in q0 || t0[x].scheduled > now
    ensures x in t && t[x] == t0[x] && (x in q <==> x in q0) && Fires(fired, x) == 0
  {
    assert Course(t0, q0, t, q, fired, now, x);
  }

  /** A finished tick: every timer that was due has fired unless a callback cancelled it, once, or at most twice
      if it is periodic and was due again at `now`; no other timer has fired; the order is the scheduled one. */
  lemma TickSummary(t0: Table, q0: seq<nat>, t: Table, q: seq<nat>, fired: seq<(nat, int)>, gone: set<nat>, now: int,
                    x: nat)
    requires Progress(t0, q0, t, q, fired, gone, now) && forall y :: y in q && y in t ==> t[y].scheduled > now
    ensures var due := x in q0 && x in t0 && t0[x].scheduled <= now;
            && (!due ==> Fires(fired, x) == 0)
            && (due && x !in gone ==> Fires(fired, x) >= 1)
            && Fires(fired, x) <= (if due && t0[x].period > 0 && t0[x].scheduled + t0[x].period == now then 2 else 1)
    ensures InOrder(fired) && forall i :: 0 <= i < |fired| ==> fired[i].1 <= now
  {
    assert Share(t0, q0, t, q, fired, gone, now, x);
  }

  lemma AllLater(t: Table, q: seq<nat>, now: int)
    requires Sorted(t, q) && q != [] && now < t[q[0]].scheduled
    ensures forall x :: x in q ==> t[x].scheduled > now
  {
  }

  lemma TailMembers(q: seq<nat>)
    requires q != [] && NoDup(q)
    ensures forall y :: y in q[1..] <==> y in q && y != q[0]
  {
  }

  /** The queue of one CPU; `hw` is the time the one-shot hardware timer was last set for. */
  class TimerQueue {
    var timers: Table
    var queue: seq<nat>
    var hw: Option<int>

    ghost predicate Valid()
      reads this
    {
      Sorted(timers, queue)
    }

    /** The interrupt for the head of the queue is set up: for its time, or at once if that had passed by
        `clock`. */
    ghost predicate Armed(clock: int)
      reads this
      requires Valid()
    {
      queue != [] ==>
        hw.Some? && timers[queue[0]].scheduled <= hw.value
        && (hw.value == timers[queue[0]].scheduled || hw.value <= clock)
    }

    constructor ()
      ensures Valid() && queue == [] && Armed(0)
    {
      timers, queue, hw := map[], [], None;
    }

    /** timer_initialize on storage that holds no queued timer */
    method Initialize(x: nat)
      requires Valid() && x !in queue
      modifies this`timers
      ensures Valid() && timers == old(timers)[x := Timer(0, 0)]
      ensures forall clock {:trigger old(Armed(clock))} :: old(Armed(clock)) ==> Armed(clock)
    {
      timers := timers[x := Timer(0, 0)];
    }

    /** insert_timer_in_queue: before the first timer that is scheduled strictly later. */
    method InsertTimer(x: nat, ghost tm: Timer, ghost now: int)
      requires x in timers && timers[x] == tm && x !in queue && Sorted(timers, queue)
      modifies this`queue
      ensures Valid() && forall y :: y in queue <==> y in old(queue) || y == x
      ensures DueTotal(timers, queue, now) == DueTotal(timers, old(queue), now) + Due(timers, queue, now, x)
      ensures queue[0] == x || (old(queue) != [] && queue[0] == old(queue)[0])
      ensures queue == Insert(timers, old(queue), x)
    {
      var i := 0;
      while i < |queue| && timers[queue[i]].scheduled <= timers[x].scheduled
        invariant i <= |queue| && queue == old(queue)
        invariant forall j :: 0 <= j < i ==> timers[queue[j]].scheduled <= timers[x].scheduled
      {
        i := i + 1;
      }
      Inserted(timers, queue, i, x, tm, now);
      InsertAt(timers, queue, x, i);
      assert timers[x := tm] == timers;
      queue := queue[..i] + [x] + queue[i..];
    }

    /** Write the timer's fields and queue it. */
    method Schedule(x: nat, tm: Timer, ghost now: int)
      requires Valid() && x in timers && x !in queue
      modifies this`timers, this`queue
      ensures Valid() && timers == old(timers)[x := tm] && queue == Insert(timers, old(queue), x)
      ensures forall y :: y in queue <==> y in old(queue) || y == x
      ensures DueTotal(timers, queue, now) == DueTotal(old(timers), old(queue), now) + Due(timers, queue, now, x)
      ensures queue[0] == x || (old(queue) != [] && queue[0] == old(queue)[0])
    {
      Detached(timers, queue, x, tm, now);
      timers := timers[x := tm];
      InsertTimer(x, tm, now);
    }

    /** timer_set at time `at`, through timer_set_oneshot or timer_set_periodic; false is the panic on a timer
        that is queued already. */
    method SetTimer(x: nat, at: int, delay: nat, periodic: bool, ghost now: int) returns (ok: bool)
      requires Valid() && x in timers && now <= at
      modifies this
      ensures Valid() && ok == (x !in old(queue))
      ensures !ok ==> timers == old(timers) && queue == old(queue)
      ensures ok ==> var d := if delay == 0 then 1 else delay;
                     && timers == old(timers)[x := Timer(at + d, if periodic then d else 0)]
                     && (forall y :: y in queue <==> y in old(queue) || y == x)
                     && queue == Insert(timers, old(queue), x)
                     && DueTotal(timers, queue, now) == DueTotal(old(timers), old(queue), now)
      ensures forall clock {:trigger old(Armed(clock))} :: clock <= at && old(Armed(clock)) ==> Armed(at)
    {
      if x in queue {
        return false;
      }
      var d := if delay == 0 then 1 else delay;
      var tm := Timer(at + d, if periodic then d else 0);
      Schedule(x, tm, now);
      assert Due(timers, queue, now, x) == 0;
      if queue[0] == x {
        hw := Some(at + d);
      }
      return true;
    }

    /** Take the timer off the queue, if it is on it, and clear its period. */
    method Withdraw(x: nat, ghost now: int)
      requires Valid() && x in timers
      modifies this`timers, this`queue
      ensures Valid() && timers == old(timers)[x := old(timers)[x].(period := 0)]
      ensures forall y :: y in queue <==> y in old(queue) && y != x
      ensures if x !in old(queue) then queue == old(queue)
              else exists i :: && 0 <= i < |old(queue)| && old(queue)[i] == x
                               && queue == old(queue)[..i] + old(queue)[i + 1..]
      ensures DueTotal(timers, queue, now) <= DueTotal(old(timers), old(queue), now)
    {
      if x in queue {
        var i := Position(x);
        Unlink(i, now);
      }
      Detached(timers, queue, x, timers[x].(period := 0), now);
      timers := timers[x := timers[x].(period := 0)];
    }

    /** timer_cancel at time `at` */
    method CancelTimer(x: nat, at: int, ghost now: int)
      requires Valid() && x in timers
      modifies this
      ensures Valid() && timers == old(timers)[x := old(timers)[x].(period := 0)]
      ensures forall y :: y in queue <==> y in old(queue) && y != x
      ensures if x !in old(queue) then queue == old(queue)
              else exists i :: && 0 <= i < |old(queue)| && old(queue)[i] == x
                               && queue == old(queue)[..i] + old(queue)[i + 1..]
      ensures DueTotal(timers, queue, now) <= DueTotal(old(timers), old(queue), now)
      ensures forall clock {:trigger old(Armed(clock))} :: clock <= at && old(Armed(clock)) ==> Armed(at)
    {
      var oldhead := if queue == [] then None else Some(queue[0]);
      Withdraw(x, now);
      if queue == [] {
        hw := None;
      } else if oldhead != Some(queue[0]) {
        hw := Some(if timers[queue[0]].scheduled < at then at else timers[queue[0]].scheduled);
      }
    }

    /** The calls one callback makes, in order; false if one of them panics. */
    method RunOps(ops: seq<Op>, ghost now: int, ghost x: nat) returns (ok: bool)
      requires Valid() && Fits(ops, timers.Keys, now)
      modifies this
      ensures Valid() && (ok ==> Touched(old(timers), old(queue), timers, queue, now, Cancelled(ops)))
      ensures DueTotal(timers, queue, now) <= DueTotal(old(timers), old(queue), now)
      ensures !ok ==> Sets(ops)
      ensures ok ==> Spared(old(timers), old(queue), timers, queue, Named(ops))
      ensures ok && LastCancels(ops, x) ==> x in timers && timers[x].period == 0 && x !in queue
    {
      var i := 0;
      assert forall y :: Kept(timers, queue, timers, queue, now, Cancelled(ops[..0]), y);
      assert forall y :: Same(timers, queue, timers, queue, y);
      while i < |ops|
        decreases |ops| - i
        invariant i <= |ops| && Valid() && timers.Keys == old(timers).Keys
        invariant Touched(old(timers), old(queue), timers, queue, now, Cancelled(ops[..i]))
        invariant Spared(old(timers), old(queue), timers, queue, Named(ops[..i]))
        invariant DueTotal(timers, queue, now) <= DueTotal(old(timers), old(queue), now)
        invariant LastCancels(ops[..i], x) ==> x in timers && timers[x].period == 0 && x !in queue
      {
        ghost var t1, q1 := timers, queue;
        ok := RunOp(ops[i], now);
        if !ok {
          return false;
        }
        TouchedTrans(old(timers), old(queue), t1, q1, timers, queue, now, Cancelled(ops[..i]), Cancelled([ops[i]]));
        SparedTrans(old(timers), old(queue), t1, q1, timers, queue, Named(ops[..i]), {ops[i].timer});
        OneMore(ops, i);
        i := i + 1;
      }
      assert ops[..i] == ops;
      return true;
    }

    /** One call. */
    method RunOp(op: Op, ghost now: int) returns (ok: bool)
      requires Valid() && op.timer in timers && now <= op.at
      modifies this
      ensures Valid() && timers.Keys == old(timers).Keys && (!ok ==> op.Set?)
      ensures ok ==> && Touched(old(timers), old(queue), timers, queue, now, Cancelled([op]))
                     && Effect(op, old(timers), old(queue), timers, queue)
                     && Spared(old(timers), old(queue), timers, queue, {op.timer})
      ensures DueTotal(timers, queue, now) <= DueTotal(old(timers), old(queue), now)
    {
      match op {
        case Set(y, at, delay, periodic) =>
          ok := SetTimer(y, at, delay, periodic, now);
          if !ok {
            return;
          }
        case Cancel(y, at) =>
          CancelTimer(y, at, now);
          ok := true;
      }
      OpTouched(op, old(timers), old(queue), timers, queue, now);
    }

    /** A periodic timer that was neither set again nor cancelled goes back for its next time. */
    method Reinsert(x: nat, periodic: bool, now: int, ghost t: Table)
      requires Valid() && x in timers && x in t && periodic == (t[x].period > 0)
      modifies this`timers, this`queue
      ensures Valid() && PutBack(t, x, old(timers), old(queue), timers, queue, now)
      ensures DueTotal(timers, queue, now) <= DueTotal(old(timers), old(queue), now) + Due(timers, queue, now, x)
    {
      if periodic && x !in queue && timers[x].period > 0 {
        Detached(timers, queue, x, Again(timers[x], now), now);
        ghost var again := Again(timers[x], now);
        timers := timers[x := timers[x].(scheduled := timers[x].scheduled + timers[x].period)];
        if timers[x].scheduled < now {
          timers := timers[x := timers[x].(scheduled := now + timers[x].period)];
        }
        assert timers == old(timers)[x := again];
        InsertTimer(x, again, now);
      }
    }

    /** list_delete of entry `i` */
    method Unlink(i: nat, ghost now: int)
      requires Valid() && i < |queue|
      modifies this`queue
      ensures Valid() && queue == old(queue)[..i] + old(queue)[i + 1..]
      ensures forall x :: x in queue <==> x in old(queue) && x != old(queue)[i]
      ensures DueTotal(timers, old(queue), now)
                == DueTotal(timers, queue, now) + Due(timers, old(queue), now, old(queue)[i])
    {
      Removed(timers, queue, i, now);
      queue := queue[..i] + queue[i + 1..];
    }

    /** One round of timer_tick: take the head off, call it back, and put it back if it is periodic and was
        neither set again nor cancelled. */
    method FireHead(now: int, call: Callback, ghost t0: Table, ghost q0: seq<nat>, ghost fired: seq<(nat, int)>,
                    ghost gone: set<nat>, ghost named: set<nat>)
      returns (ok: bool)
      requires Valid() && queue != [] && timers[queue[0]].scheduled <= now
      requires Fits(call.ops, timers.Keys, now)
      requires Progress(t0, q0, timers, queue, fired, gone, now) && Courses(t0, q0, timers, queue, fired, named, now)
      modifies this
      ensures Valid()
      ensures !ok ==> Sets(call.ops)
      ensures ok ==> && DueTotal(timers, queue, now) < DueTotal(old(timers), old(queue), now)
                     && Progress(t0, q0, timers, queue, fired + [(old(queue)[0], old(timers)[old(queue)[0]].scheduled)],
                                 gone + Cancelled(call.ops), now)
                     && Courses(t0, q0, timers, queue, fired + [(old(queue)[0], old(timers)[old(queue)[0]].scheduled)],
                                named + Named(call.ops), now)
                     && (LastCancels(call.ops, old(queue)[0]) ==> old(queue)[0] !in queue)
    {
      ghost var t, q := timers, queue;
      var x := queue[0];
      Unlink(0, now);
      assert queue == q[1..];
      var periodic := timers[x].period > 0;
      ok := RunOps(call.ops, now, x);
      if !ok {
        return;
      }
      ghost var t1, q1 := timers, queue;
      Reinsert(x, periodic, now, t);
      Round(t0, q0, t, q, fired, gone, now, t1, q1, Cancelled(call.ops), timers, queue);
      RoundCourses(t0, q0, t, q, fired, named, now, t1, q1, Named(call.ops), timers, queue);
    }

    /** timer_tick.  `script(n)` is what the callback of the n-th firing does; `fired` lists the timers called
        back with the times they were scheduled for; false is a panic in a callback. */
    method Tick(now: int, script: nat -> Callback) returns (ok: bool, resched: bool, fired: seq<(nat, int)>)
      requires Valid()
      requires forall n: nat :: Fits(script(n).ops, timers.Keys, now)
      modifies this
      ensures Valid()
      ensures !ok ==> fired != [] && Sets(script(|fired| - 1).ops)
      ensures ok ==> && Progress(old(timers), old(queue), timers, queue, fired, AllCancelled(script, |fired|), now)
                     && Courses(old(timers), old(queue), timers, queue, fired, AllNamed(script, |fired|), now)
                     && (forall x :: x in queue ==> timers[x].scheduled > now) && Armed(now)
                     && resched == AnyResched(script, |fired|)
    {
      ok, resched, fired := true, false, [];
      ghost var gone, named := {}, {};
      assert forall y :: Course(timers, queue, timers, queue, fired, now, y);
      assert forall y :: Share(timers, queue, timers, queue, fired, gone, now, y);
      while queue != [] && !(now < timers[queue[0]].scheduled)
        invariant Valid() && Progress(old(timers), old(queue), timers, queue, fired, gone, now)
        invariant Courses(old(timers), old(queue), timers, queue, fired, named, now)
        invariant resched == AnyResched(script, |fired|) && gone == AllCancelled(script, |fired|)
        invariant named == AllNamed(script, |fired|)
        decreases DueTotal(timers, queue, now)
      {
        ghost var before := fired;
        var call := script(|fired|);
        fired := fired + [(queue[0], timers[queue[0]].scheduled)];
        ok := FireHead(now, call, old(timers), old(queue), before, gone, named);
        if call.resched {
          resched := true;
        }
        if !ok {
          return;
        }
        gone, named := gone + Cancelled(call.ops), named + Named(call.ops);
      }
      if queue != [] {
        AllLater(timers, queue, now);
        hw := Some(timers[queue[0]].scheduled);
      }
    }

    method Position(x: nat) returns (i: nat)
      requires x in queue
      ensures i < |queue| && queue[i] == x
    {
      i := 0;
      while queue[i] != x
        invariant i < |queue| && x in queue[i..]
        decreases |queue| - i
      {
        i := i + 1;
      }
    }
  }
}
